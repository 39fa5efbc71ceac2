/**
  What the app reads from the speech-recognition engine's events: the list of
  results of a result event, split into final and interim text, and the error
  codes of an error event.
 */
module Recognition {
  /** One entry of a result event's list: whether the engine marks it final, and the transcript of its first alternative. */
  datatype SpeechResult = SpeechResult(isFinal: bool, transcript: string)

  /** The transcript a result contributes to the text of the given finality. */
  function Piece(r: SpeechResult, final: bool): string
  {
    if r.isFinal == final then r.transcript else ""
  }

  /** The transcripts of the results at indices lo up to hi whose finality is final, in order. */
  function Collect(rs: seq<SpeechResult>, lo: nat, hi: nat, final: bool): string
    requires hi <= |rs|
    decreases hi
  {
    if hi <= lo then "" else Collect(rs, lo, hi - 1, final) + Piece(rs[hi - 1], final)
  }

  /** The transcripts of the results at indices lo up to hi, final or not, in order. */
  function AllText(rs: seq<SpeechResult>, lo: nat, hi: nat): string
    requires hi <= |rs|
    decreases hi
  {
    if hi <= lo then "" else AllText(rs, lo, hi - 1) + rs[hi - 1].transcript
  }

  /** The final text of a result event: the final results from resultIndex on. */
  function FinalText(rs: seq<SpeechResult>, resultIndex: nat): string
  {
    Collect(rs, resultIndex, |rs|, true)
  }

  /** The interim text of a result event: the non-final results from resultIndex on. */
  function InterimText(rs: seq<SpeechResult>, resultIndex: nat): string
  {
    Collect(rs, resultIndex, |rs|, false)
  }

  /** Collecting over a range is collecting over its two halves, one after the other. */
  lemma {:induction false} CollectSplit(rs: seq<SpeechResult>, lo: nat, mid: nat, hi: nat, final: bool)
    requires lo <= mid <= hi <= |rs|
    ensures Collect(rs, lo, hi, final) == Collect(rs, lo, mid, final) + Collect(rs, mid, hi, final)
    decreases hi
  {
    if mid < hi {
      CollectSplit(rs, lo, mid, hi - 1, final);
    }
  }

  /** The lengths of the final and the interim text add up to the length of all transcripts in the range. */
  lemma {:induction false} CollectLengths(rs: seq<SpeechResult>, lo: nat, hi: nat)
    requires hi <= |rs|
    ensures |Collect(rs, lo, hi, true)| + |Collect(rs, lo, hi, false)| == |AllText(rs, lo, hi)|
    decreases hi
  {
    if lo < hi {
      CollectLengths(rs, lo, hi - 1);
    }
  }

  /**
    The transcript of the result at k lands in the text of its own finality,
    between the text gathered before and after it, and contributes nothing to
    the text of the other finality.
   */
  lemma CollectAt(rs: seq<SpeechResult>, lo: nat, k: nat, hi: nat)
    requires lo <= k < hi <= |rs|
    ensures var f := rs[k].isFinal;
      Collect(rs, lo, hi, f) == Collect(rs, lo, k, f) + rs[k].transcript + Collect(rs, k + 1, hi, f) &&
      Collect(rs, lo, hi, !f) == Collect(rs, lo, k, !f) + Collect(rs, k + 1, hi, !f)
  {
    CollectAround(rs, lo, k, hi, rs[k].isFinal);
    CollectAround(rs, lo, k, hi, !rs[k].isFinal);
  }

  /** The text gathered over a range is the text before k, the piece at k, and the text after k. */
  lemma CollectAround(rs: seq<SpeechResult>, lo: nat, k: nat, hi: nat, final: bool)
    requires lo <= k < hi <= |rs|
    ensures Collect(rs, lo, hi, final) == Collect(rs, lo, k, final) + Piece(rs[k], final) + Collect(rs, k + 1, hi, final)
  {
    var before, after := Collect(rs, lo, k, final), Collect(rs, k + 1, hi, final);
    CollectSplit(rs, lo, k, hi, final);
    CollectSplit(rs, k, k + 1, hi, final);
    assert Collect(rs, k, k + 1, final) == Piece(rs[k], final);
    assert before + (Piece(rs[k], final) + after) == before + Piece(rs[k], final) + after;
  }

  /** When every result in the range has the given finality, its text is all of the range's text. */
  lemma {:induction false} CollectAll(rs: seq<SpeechResult>, lo: nat, hi: nat, final: bool)
    requires hi <= |rs|
    requires forall k :: lo <= k < hi ==> rs[k].isFinal == final
    ensures Collect(rs, lo, hi, final) == AllText(rs, lo, hi)
    decreases hi
  {
    if lo < hi {
      CollectAll(rs, lo, hi - 1, final);
    }
  }

  /** When no result in the range has the given finality, its text is empty. */
  lemma {:induction false} CollectNone(rs: seq<SpeechResult>, lo: nat, hi: nat, final: bool)
    requires hi <= |rs|
    requires forall k :: lo <= k < hi ==> rs[k].isFinal != final
    ensures Collect(rs, lo, hi, final) == ""
    decreases hi
  {
    if lo < hi {
      CollectNone(rs, lo, hi - 1, final);
    }
  }

  /** When exactly one result in the range has the given finality, its text is that result's transcript. */
  lemma CollectOne(rs: seq<SpeechResult>, lo: nat, k: nat, hi: nat, final: bool)
    requires lo <= k < hi <= |rs| && rs[k].isFinal == final
    requires forall j :: lo <= j < hi && j != k ==> rs[j].isFinal != final
    ensures Collect(rs, lo, hi, final) == rs[k].transcript
  {
    CollectAround(rs, lo, k, hi, final);
    CollectNone(rs, lo, k, final);
    CollectNone(rs, k + 1, hi, final);
    assert "" + rs[k].transcript + "" == rs[k].transcript;
  }

  /**
    The loop of the result handler: walks the results from resultIndex to the
    end and appends each transcript to the final or to the interim text.
   */
  method SplitResults(results: seq<SpeechResult>, resultIndex: nat) returns (finalText: string, interimText: string)
    ensures finalText == FinalText(results, resultIndex)
    ensures interimText == InterimText(results, resultIndex)
  {
    interimText := "";
    finalText := "";
    var i := resultIndex;
    while i < |results|
      invariant resultIndex <= i && (i <= |results| || i == resultIndex)
      invariant finalText == if i <= |results| then Collect(results, resultIndex, i, true) else ""
      invariant interimText == if i <= |results| then Collect(results, resultIndex, i, false) else ""
    {
      if results[i].isFinal {
        finalText := finalText + results[i].transcript;
      } else {
        interimText := interimText + results[i].transcript;
      }
      i := i + 1;
    }
  }

  /** What the app does with an error event's code. */
  datatype ErrorAction =
    | Ignore       // expected noise: no-speech, network, aborted
    | StopSession  // microphone permission denied
    | Report       // anything else: reported, the session is kept

  function ErrorActionOf(code: string): (a: ErrorAction)
    ensures a == Ignore <==> (code == "no-speech" || code == "network" || code == "aborted")
    ensures a == StopSession <==> code == "not-allowed"
  {
    if code == "no-speech" || code == "network" || code == "aborted" then Ignore
    else if code == "not-allowed" then StopSession
    else Report
  }
}
