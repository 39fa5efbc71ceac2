/**
  The text formats of the transcription log: the timestamp of an entry, the
  prefix shown before its text, the exported log file and the export file name.
  Each rendering comes with a decoder that reads it back. The stamp and the
  file name always read back to what made them; an entry line does so only
  when neither its stamp nor its speaker name holds a ']'.
 */
module Format {
  import opened Strings

  /**
    One reading of the host clock: Date.getFullYear(), getMonth() (0 = January),
    getDate(), getDay() (0 = Sunday), getHours(), getMinutes(), and the time of
    day as toLocaleTimeString('ja-JP', { hour12: false }) renders it.
   */
  datatype Clock = Clock(year: int, month: nat, date: nat, weekday: nat, hours: nat, minutes: nat, time: string)

  /** The weekday names, Sunday first, indexed by getDay(). */
  const Days: seq<string> := ["日", "月", "火", "水", "木", "金", "土"]

  /** The stamp of an entry: year/month/date(weekday) time, the month counted from 1. */
  function FormattedDate(now: Clock): string
    requires now.weekday < |Days|
  {
    IntToString(now.year) + "/" + NatToString(now.month + 1) + "/" + NatToString(now.date)
      + "(" + Days[now.weekday] + ") " + now.time
  }

  /** The fields a stamp shows, the month counted from 1. */
  datatype Stamp = Stamp(year: int, month: nat, date: nat, weekday: nat, time: string)

  /** The position of a weekday name in Days. */
  function WeekdayIndex(w: string): (r: Option<nat>)
    ensures r.Some? ==> r.value < |Days| && Days[r.value] == w
    ensures r.None? ==> w !in Days
  {
    if w == "日" then Some(0)
    else if w == "月" then Some(1)
    else if w == "火" then Some(2)
    else if w == "水" then Some(3)
    else if w == "木" then Some(4)
    else if w == "金" then Some(5)
    else if w == "土" then Some(6)
    else None
  }

  lemma WeekdayIndexOfDay(i: nat)
    requires i < |Days|
    ensures |Days[i]| == 1 && WeekdayIndex(Days[i]) == Some(i)
  {
  }

  /** Reads a stamp back: the text up to the first '/', up to the next '/', up to '(', then the weekday, ") " and the time. */
  function ParseStamp(s: string): Option<Stamp>
  {
    match SplitFirst(s, '/')
    case None => None
    case Some((ys, r1)) =>
      match SplitFirst(r1, '/')
      case None => None
      case Some((ms, r2)) =>
        match SplitFirst(r2, '(')
        case None => None
        case Some((ds, r3)) =>
          if |r3| < 3 || r3[1] != ')' || r3[2] != ' ' then None
          else
            match (ParseInt(ys), ParseNat(ms), ParseNat(ds), WeekdayIndex([r3[0]]))
            case (Some(y), Some(m), Some(d), Some(w)) => Some(Stamp(y, m, d, w, r3[3..]))
            case _ => None
  }

  lemma NoSeparatorInNumber(n: int, c: char)
    requires !IsNumeral(c)
    ensures c !in IntToString(n)
  {
  }

  /** A stamp shows the year, the month counted from 1, the date, the weekday and the time, and reads back to them. */
  lemma StampRoundTrip(now: Clock)
    requires now.weekday < |Days|
    ensures ParseStamp(FormattedDate(now)) == Some(Stamp(now.year, now.month + 1, now.date, now.weekday, now.time))
  {
    var ys, ms, ds := IntToString(now.year), NatToString(now.month + 1), NatToString(now.date);
    var w := Days[now.weekday];
    WeekdayIndexOfDay(now.weekday);
    var r3 := w + ") " + now.time;
    var r2 := ds + "(" + r3;
    var r1 := ms + "/" + r2;
    assert FormattedDate(now) == ys + ['/'] + r1;
    assert r1 == ms + ['/'] + r2;
    assert r2 == ds + ['('] + r3;
    NoSeparatorInNumber(now.year, '/');
    NoSeparatorInNumber(now.month + 1, '/');
    NoSeparatorInNumber(now.date, '(');
    SplitFirstOf(ys, '/', r1);
    SplitFirstOf(ms, '/', r2);
    SplitFirstOf(ds, '(', r3);
    assert [r3[0]] == w;
    assert r3[3..] == now.time;
    IntToStringRoundTrip(now.year);
    IntToStringRoundTrip(now.month + 1);
    IntToStringRoundTrip(now.date);
  }

  /** The speaker part of an entry's prefix: the trimmed name in brackets and a space, or nothing for a blank name. */
  function NamePart(speaker: string): (r: string)
    ensures r == [] <==> IsBlank(speaker)
    ensures r != [] ==> |r| >= 4 && r[0] == '[' && r[|r| - 2..] == "] "
  {
    var name := Trim(speaker);
    if name != [] then "[" + name + "] " else ""
  }

  /** The prefix shown before an entry's text: the bracketed stamp, a space, then the speaker part. */
  function TimeAndName(stamp: string, speaker: string): (r: string)
    ensures |r| >= 3 && r[0] == '[' && r[|r| - 1] == ' '
  {
    "[" + stamp + "] " + NamePart(speaker)
  }

  /** A finalized log entry: the text of its timestamp span and of its text element. */
  datatype LogEntry = LogEntry(timeAndName: string, text: string)

  /** The entry addLogEntry creates for text at the time now. */
  function MakeEntry(now: Clock, speaker: string, text: string): LogEntry
    requires now.weekday < |Days|
  {
    LogEntry(TimeAndName(FormattedDate(now), speaker), text)
  }

  /** An exported line without its newline: the prefix, a space, the text. */
  function LineBody(e: LogEntry): string
  {
    e.timeAndName + " " + e.text
  }

  function ExportLine(e: LogEntry): string
  {
    LineBody(e) + "\n"
  }

  /** The exported log: the entries' lines in log order, each ending in a newline. */
  function ExportContent(es: seq<LogEntry>): (r: string)
    ensures r == [] <==> es == []
    ensures es != [] ==> r[|r| - 1] == '\n'
  {
    if es == [] then "" else ExportContent(es[..|es| - 1]) + ExportLine(es[|es| - 1])
  }

  /** The export of a log is the first entry's line followed by the export of the rest. */
  lemma {:induction false} ExportContentCons(e: LogEntry, es: seq<LogEntry>)
    ensures ExportContent([e] + es) == ExportLine(e) + ExportContent(es)
    decreases |es|
  {
    if es != [] {
      var init := es[..|es| - 1];
      assert ([e] + es)[..|es|] == [e] + init;
      ExportContentCons(e, init);
    }
  }

  /**
    The exported log holds one line per entry, in log order, provided no
    prefix or text itself holds a newline.
   */
  lemma {:induction false} ExportLines(es: seq<LogEntry>)
    requires forall i :: 0 <= i < |es| ==> '\n' !in LineBody(es[i])
    ensures |Lines(ExportContent(es))| == |es|
    ensures forall i :: 0 <= i < |es| ==> Lines(ExportContent(es))[i] == LineBody(es[i])
    decreases |es|
  {
    if es != [] {
      var e, rest := es[0], es[1..];
      assert es == [e] + rest;
      ExportLinesCons(e, rest);
      ExportLines(rest);
      var ls, tail := Lines(ExportContent(es)), Lines(ExportContent(rest));
      forall i | 0 <= i < |es|
        ensures ls[i] == LineBody(es[i])
      {
        if i > 0 {
          assert ls[i] == tail[i - 1];
        }
      }
    }
  }

  /** The lines of a log's export are the first entry's line and the lines of the rest's export. */
  lemma ExportLinesCons(e: LogEntry, rest: seq<LogEntry>)
    requires '\n' !in LineBody(e)
    ensures Lines(ExportContent([e] + rest)) == [LineBody(e)] + Lines(ExportContent(rest))
  {
    ExportContentCons(e, rest);
    LinesCons(LineBody(e), ExportContent(rest));
  }

  lemma LinesCons(line: string, rest: string)
    requires '\n' !in line
    ensures Lines(line + "\n" + rest) == [line] + Lines(rest)
  {
    assert line + "\n" + rest == line + ['\n'] + rest;
    SplitFirstOf(line, '\n', rest);
  }

  /** What a line of the exported log shows: the stamp, the speaker (empty when none) and the text. */
  datatype ParsedLine = ParsedLine(stamp: string, speaker: string, text: string)

  /**
    Reads a line of the exported log back: "[stamp] " followed by what
    ParseSpeakerAndText reads.
   */
  function ParseEntryLine(line: string): Option<ParsedLine>
  {
    if line == [] || line[0] != '[' then None
    else
      match SplitFirst(line[1..], ']')
      case None => None
      case Some((stamp, rest)) =>
        if rest == [] || rest[0] != ' ' then None
        else
          match ParseSpeakerAndText(rest[1..])
          case None => None
          case Some((speaker, text)) => Some(ParsedLine(stamp, speaker, text))
  }

  /** Reads " text" when there is no speaker, or "[speaker]  text" when there is one. */
  function ParseSpeakerAndText(body: string): Option<(string, string)>
  {
    if body != [] && body[0] == ' ' then Some(("", body[1..]))
    else if body != [] && body[0] == '[' then
      match SplitFirst(body[1..], ']')
      case None => None
      case Some((name, after)) =>
        if |after| >= 2 && after[0] == ' ' && after[1] == ' ' then Some((name, after[2..]))
        else None
    else None
  }

  /**
    A line of the exported log reads back to its stamp, its trimmed speaker and
    its text, as long as neither stamp nor speaker holds a ']'.
   */
  lemma EntryLineRoundTrip(stamp: string, speaker: string, text: string)
    requires ']' !in stamp && ']' !in Trim(speaker)
    ensures ParseEntryLine(LineBody(LogEntry(TimeAndName(stamp, speaker), text))) == Some(ParsedLine(stamp, Trim(speaker), text))
  {
    var name := Trim(speaker);
    assert LineBody(LogEntry(TimeAndName(stamp, speaker), text)) == "[" + stamp + "] " + NamePart(speaker) + " " + text;
    if name == [] {
      UnnamedLineRoundTrip(stamp, text);
    } else {
      NamedLineRoundTrip(stamp, name, text);
    }
  }

  lemma UnnamedLineRoundTrip(stamp: string, text: string)
    requires ']' !in stamp
    ensures ParseEntryLine("[" + stamp + "] " + "" + " " + text) == Some(ParsedLine(stamp, "", text))
  {
    var line := "[" + stamp + "] " + "" + " " + text;
    var rest := "  " + text;
    assert line[1..] == stamp + [']'] + rest;
    SplitFirstOf(stamp, ']', rest);
    assert rest[1..] == " " + text;
    assert ParseSpeakerAndText(rest[1..]) == Some(("", text));
  }

  lemma NamedLineRoundTrip(stamp: string, name: string, text: string)
    requires ']' !in stamp && ']' !in name
    ensures ParseEntryLine("[" + stamp + "] " + ("[" + name + "] ") + " " + text) == Some(ParsedLine(stamp, name, text))
  {
    var line := "[" + stamp + "] " + ("[" + name + "] ") + " " + text;
    var body := "[" + name + "]  " + text;
    var rest := " " + body;
    assert line[1..] == stamp + [']'] + rest;
    SplitFirstOf(stamp, ']', rest);
    assert rest[1..] == body;
    SpeakerRoundTrip(name, text);
  }

  lemma SpeakerRoundTrip(name: string, text: string)
    requires ']' !in name
    ensures ParseSpeakerAndText("[" + name + "]  " + text) == Some((name, text))
  {
    var body := "[" + name + "]  " + text;
    var after := "  " + text;
    assert body[1..] == name + [']'] + after;
    SplitFirstOf(name, ']', after);
    assert after[2..] == text;
  }

  /**
    A speaker name holding "]  " makes the export ambiguous: the entry by
    speaker "a]  b" with text "c" and the entry by speaker "a" with text
    "b]  c" have different prefixes but export the same line.
   */
  lemma BracketInNameIsAmbiguous(stamp: string)
    ensures TimeAndName(stamp, "a]  b") != TimeAndName(stamp, "a")
    ensures LineBody(LogEntry(TimeAndName(stamp, "a]  b"), "c")) == LineBody(LogEntry(TimeAndName(stamp, "a"), "b]  c"))
  {
    var head := "[" + stamp + "] ";
    TrimUntouched("a]  b");
    TrimUntouched("a");
    assert NamePart("a]  b") == "[a]  b] ";
    assert NamePart("a") == "[a] ";
    assert |TimeAndName(stamp, "a]  b")| == |head| + 8;
    assert |TimeAndName(stamp, "a")| == |head| + 4;
    assert LineBody(LogEntry(TimeAndName(stamp, "a]  b"), "c")) == head + ("[a]  b] " + " " + "c");
    assert LineBody(LogEntry(TimeAndName(stamp, "a"), "b]  c")) == head + ("[a] " + " " + "b]  c");
    assert "[a]  b] " + " " + "c" == "[a] " + " " + "b]  c";
  }

  lemma StampHasNoBracket(now: Clock)
    requires now.weekday < |Days| && ']' !in now.time
    ensures ']' !in FormattedDate(now)
  {
    NoSeparatorInNumber(now.year, ']');
    NoSeparatorInNumber(now.month + 1, ']');
    NoSeparatorInNumber(now.date, ']');
  }

  /**
    The line exported for an entry made at the time now reads back to that
    time's stamp fields, the trimmed speaker and the text.
   */
  lemma EntryRoundTrip(now: Clock, speaker: string, text: string)
    requires now.weekday < |Days| && ']' !in now.time && ']' !in Trim(speaker)
    ensures ParseEntryLine(LineBody(MakeEntry(now, speaker, text))) == Some(ParsedLine(FormattedDate(now), Trim(speaker), text))
    ensures ParseStamp(FormattedDate(now)) == Some(Stamp(now.year, now.month + 1, now.date, now.weekday, now.time))
  {
    StampHasNoBracket(now);
    EntryLineRoundTrip(FormattedDate(now), speaker, text);
    StampRoundTrip(now);
  }

  /** String(n).padStart(2, '0'). */
  function Pad2(n: nat): (r: string)
    ensures |r| >= 2 && AllDigits(r)
    ensures n < 10 ==> r[0] == '0'
  {
    PadStart(NatToString(n), 2, '0')
  }

  /** For any value below 100 the padded rendering is exactly two digits and reads back to the value. */
  lemma Pad2Exact(n: nat)
    requires n < 100
    ensures |Pad2(n)| == 2 && ParseNat(Pad2(n)) == Some(n)
  {
    var s := NatToString(n);
    var p := Pad2(n);
    if n < 10 {
      assert p == ['0', DigitChar(n)];
      assert p[..1] == ['0'] && p[..1][..0] == [];
      assert DigitsValue(p[..1]) == 0;
      assert DigitsValue(p) == DigitsValue(p[..1]) * 10 + DigitValue(p[1]);
    } else {
      NatToStringRoundTrip(n);
      NatToStringRoundTrip(n / 10);
      assert |NatToString(n / 10)| == 1;
    }
  }

  const FilePrefix: string := "transcription_"
  const FileSuffix: string := ".txt"

  /** The export file name: transcription_, the year, month, date, an underscore, hours and minutes, .txt. */
  function FileName(now: Clock): string
  {
    FilePrefix + IntToString(now.year) + ClockTail(now)
  }

  /** The fixed-width end of the file name: month, date, '_', hours, minutes, .txt. */
  function ClockTail(now: Clock): string
  {
    Pad2(now.month + 1) + Pad2(now.date) + "_" + Pad2(now.hours) + Pad2(now.minutes) + FileSuffix
  }

  /** The clock fields an export file name shows, the month counted from 1. */
  datatype FileStamp = FileStamp(year: int, month: nat, date: nat, hours: nat, minutes: nat)

  /** Reads an export file name back: the prefix, the year, then thirteen fixed-width characters. */
  function ParseFileName(name: string): Option<FileStamp>
  {
    if |name| < 14 || name[..14] != FilePrefix then None
    else
      var m := name[14..];
      if |m| < 14 then None
      else
        match ParseInt(m[..|m| - 13])
        case None => None
        case Some(y) =>
          match ParseClockTail(m[|m| - 13..])
          case None => None
          case Some(t) => Some(t.(year := y))
  }

  /** Reads "MMDD_HHMM.txt", each field two digits; the year is left 0. */
  function ParseClockTail(t: string): Option<FileStamp>
  {
    if |t| != 13 || t[4] != '_' || t[9..] != FileSuffix then None
    else
      match (ParseNat(t[..2]), ParseNat(t[2..4]), ParseNat(t[5..7]), ParseNat(t[7..9]))
      case (Some(mo), Some(d), Some(h), Some(mi)) => Some(FileStamp(0, mo, d, h, mi))
      case _ => None
  }

  /**
    When month, date, hours and minutes are below 100, as a clock's are, the
    file name has fixed-width fields and reads back to the clock it was made from.
   */
  lemma FileNameRoundTrip(now: Clock)
    requires now.month + 1 < 100 && now.date < 100 && now.hours < 100 && now.minutes < 100
    ensures |FileName(now)| == 27 + |IntToString(now.year)|
    ensures ParseFileName(FileName(now)) == Some(FileStamp(now.year, now.month + 1, now.date, now.hours, now.minutes))
  {
    var y := IntToString(now.year);
    var tail := ClockTail(now);
    ClockTailRoundTrip(now);
    IntToStringRoundTrip(now.year);
    assert FileName(now) == FilePrefix + (y + tail);
    ParseFileNameOf(y, tail);
  }

  lemma ParseFileNameOf(y: string, tail: string)
    requires |tail| == 13 && y != []
    ensures ParseFileName(FilePrefix + (y + tail)) ==
      match (ParseInt(y), ParseClockTail(tail))
      case (Some(year), Some(t)) => Some(t.(year := year))
      case _ => None
  {
    var name := FilePrefix + (y + tail);
    var m := y + tail;
    assert name[..14] == FilePrefix && name[14..] == m;
    assert m[..|m| - 13] == y && m[|m| - 13..] == tail;
  }

  lemma ClockTailRoundTrip(now: Clock)
    requires now.month + 1 < 100 && now.date < 100 && now.hours < 100 && now.minutes < 100
    ensures |ClockTail(now)| == 13 && ParseClockTail(ClockTail(now)) == Some(FileStamp(0, now.month + 1, now.date, now.hours, now.minutes))
  {
    Pad2Exact(now.month + 1);
    Pad2Exact(now.date);
    Pad2Exact(now.hours);
    Pad2Exact(now.minutes);
    ParseClockTailOf(Pad2(now.month + 1), Pad2(now.date), Pad2(now.hours), Pad2(now.minutes));
  }

  lemma ParseClockTailOf(mo: string, d: string, h: string, mi: string)
    requires |mo| == 2 && |d| == 2 && |h| == 2 && |mi| == 2
    ensures var t := mo + d + "_" + h + mi + FileSuffix;
      |t| == 13 &&
      ParseClockTail(t) ==
        match (ParseNat(mo), ParseNat(d), ParseNat(h), ParseNat(mi))
        case (Some(vmo), Some(vd), Some(vh), Some(vmi)) => Some(FileStamp(0, vmo, vd, vh, vmi))
        case _ => None
  {
    var t := mo + d + "_" + h + mi + FileSuffix;
    assert t[..2] == mo;
    assert t[2..4] == d;
    assert t[4] == '_';
    assert t[5..7] == h;
    assert t[7..9] == mi;
    assert t[9..] == FileSuffix;
  }
}
