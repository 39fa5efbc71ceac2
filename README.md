# Transcription session model

A Dafny model of the `TranscriptionApp` class of a browser page that transcribes
speech. The browser's speech-recognition engine turns microphone audio into text.
The page has a small controller around that engine. It starts and stops a
recognition session, restarts the engine when its session ends while the user
still wants to record, and commits each final utterance to a log as a
timestamped line with an optional speaker name. It also exports that log as a
text file.

The model has four modules:

- `Strings` (`strings.dfy`): JavaScript's `trim` (with the ECMAScript set of
  whitespace and line-terminator characters), `padStart`, and the decimal
  rendering of numbers. `trim` and `padStart` are characterised by their
  postconditions. The decimal renderings come with a decoder and a round-trip
  lemma.
- `Format` (`format.dfy`): the entry stamp built by `getFormattedDate`, the
  prefix built in `addLogEntry`, the export content and the file name built in
  `downloadLog`. Each format has a decoder (`ParseStamp`, `ParseEntryLine`,
  `ParseFileName`). The decoders are specification devices, not code of the
  page. The stamp and the file name always read back to what made them. An entry
  line reads back only when neither its stamp nor the trimmed speaker name
  holds `]`. A name holding `]  ` makes two different entries export the same
  line (`BracketInNameIsAmbiguous`).
- `Recognition` (`recognition.dfy`): splitting a result event's list into final
  and interim text, and how an error event's code is classified.
- `App` (`app.dfy`): the `TranscriptionApp` class. Its fields are
  `isRecording`, the interim line, the speaker field's value and the list of
  finalized entries. A ghost trace `effects` records every call the app makes on
  the recognizer and every blocking message it shows. Each handler is a method
  whose postcondition states the whole new state and what it appended to the
  trace. The invariant `Valid()` says that no logged entry has blank text. It
  also says that every recognizer start was issued while `isRecording` held.
  The constructor establishes it and every handler preserves it.
  `DownloadLog` uses it to promise that no exported entry has blank text.

The engine is an abstract capability. A start that throws is a `bool` parameter
of `StartRecording`. The engine's callbacks are methods that the caller invokes
one at a time. The host clock (`new Date()` and `toLocaleTimeString`) is a
`Clock` value passed in. A download produces a `(name, content)` value.

## Model

| member | source | states |
|---|---|---|
| `Strings.Trim` | script.js:223 | `trim()` returns a slice of its input with whitespace only on either side. The result neither starts nor ends with whitespace. It is empty exactly when the input is all whitespace. |
| `Strings.TrimUntouched` | script.js:223 | A text that neither starts nor ends with whitespace is unchanged by `trim()`. |
| `Strings.PadStart` | script.js:285-288 | `padStart(w, c)` has length `max(|s|, w)`, ends with `s`, and is preceded only by filler characters. |
| `Strings.NatToString` | script.js:219 | A number is rendered as a non-empty string of decimal digits with no leading zero (except for 0 itself). |
| `Strings.NatToStringRoundTrip` | script.js:219 | Reading the decimal rendering of a natural number gives the number back. |
| `Strings.IntToString` | script.js:213-219 | `${year}` renders the year as a non-empty string of digits and minus signs. `IntToStringRoundTrip` fixes the value it shows, negative years included. |
| `Strings.IntToStringRoundTrip` | script.js:213 | Reading the rendering of the year, negative years included, gives the year back. |
| `Format.WeekdayIndexOfDay` | script.js:212 | Each of 日月火水木金土 is a single character at its own index, so the weekday name identifies `getDay()`. |
| `Format.FormattedDate` | script.js:210-220 | Renders `${year}/${getMonth()+1}/${date}(${days[getDay()]}) ${time}`. `StampRoundTrip` reads it back. |
| `Format.StampRoundTrip` | script.js:210-220 | The stamp `Y/M/D(w) time` reads back to the year, `getMonth()+1`, the date, the weekday index and the time string. |
| `Format.NamePart` | script.js:231-232 | The speaker part is empty exactly when the speaker field is blank after `trim()`. Otherwise it starts with `[` and ends in `] `. What lies between is the trimmed name, as `EntryLineRoundTrip` reads back. |
| `Format.TimeAndName` | script.js:231-234 | The entry prefix starts with `[` and ends in a space. The space written before the text in the export therefore makes a double space. |
| `Format.EntryLineRoundTrip` | script.js:231-234 | An exported line `[stamp] ` + name part + ` ` + text reads back to the stamp, the trimmed speaker name and the text. The name part is `[name] ` when the trimmed name is non-empty and nothing otherwise. Neither stamp nor name may hold `]`. |
| `Format.BracketInNameIsAmbiguous` | script.js:231-234 | With speaker `a]  b` and text `c`, and with speaker `a` and text `b]  c`, the prefixes differ but the exported lines are identical. A `]` in a name therefore makes the line format ambiguous. |
| `Format.EntryRoundTrip` | script.js:210-234 | The line exported for an entry made at a given clock reads back to that clock's stamp fields, the trimmed speaker and the text. This holds when neither the clock's time string nor the trimmed speaker name holds `]`. |
| `Format.MakeEntry` | script.js:222-238 | The entry `addLogEntry` creates holds the prefix made from the clock's stamp and the speaker field, and the untrimmed text. Its export is read back by `EntryRoundTrip`. |
| `Format.LineBody` | script.js:278-280 | One exported line without its newline is `${timeAndName} ${text}`. `ExportLines` shows that the content splits into these lines. |
| `Format.ExportContent` | script.js:276-281 | The `forEach` builds the content so that it is empty exactly when there are no entries. Otherwise it ends in a newline. `ExportLines` fixes its lines. |
| `Format.ExportContentCons` | script.js:276-281 | The export of a log is the first entry's line followed by the export of the rest. |
| `Format.ExportLines` | script.js:276-281 | The exported content has exactly one line per entry, in log order. Each line is `timeAndName + " " + text`. This holds when no prefix or text contains a newline. |
| `Format.Pad2` | script.js:285-288 | `String(n).padStart(2, '0')` is at least two digits long and starts with `0` for a one-digit value. `Pad2Exact` fixes it for 0..99. |
| `Format.Pad2Exact` | script.js:285-288 | For every value 0..99, `String(n).padStart(2, '0')` is exactly two digits and reads back to `n`. |
| `Format.ClockTail` | script.js:285-289 | Renders the part of the file name after the year, `${month}${date}_${hours}${minutes}.txt`. `ClockTailRoundTrip` reads it back. |
| `Format.FileName` | script.js:283-289 | Renders `transcription_${year}${month}${date}_${hours}${minutes}.txt`. `FileNameRoundTrip` reads it back. |
| `Format.ClockTailRoundTrip` | script.js:285-289 | The end of the file name, `MMDD_HHMM.txt`, is 13 characters long and reads back to month+1, date, hours and minutes. |
| `Format.FileNameRoundTrip` | script.js:283-289 | `transcription_` + year + MM + DD + `_` + HH + mm + `.txt` has length 27 + the year's length and reads back to the clock it was made from. |
| `Recognition.CollectSplit` | script.js:84-90 | The text gathered over a range of results is the text over its first part followed by the text over the rest. |
| `Recognition.CollectLengths` | script.js:84-90 | The lengths of the final and the interim text add up to the length of all transcripts in the range. |
| `Recognition.CollectAt` | script.js:84-90 | The transcript of each result in the range appears in the text of its own finality, between what is gathered before and after it. It contributes nothing to the text of the other finality. |
| `Recognition.CollectAround` | script.js:84-90 | The text of a finality over a range is the text before a result, that result's part, and the text after it. |
| `Recognition.CollectAll` | script.js:84-90 | When every result in the range has one finality, the text of that finality is all the transcripts in order. |
| `Recognition.CollectNone` | script.js:84-90 | When no result in the range has a finality, the text of that finality is empty. |
| `Recognition.CollectOne` | script.js:84-90 | When exactly one result in the range is final (or interim), that text is just its transcript. |
| `Recognition.SplitResults` | script.js:81-90 | The loop from `resultIndex` returns the in-order concatenation of the final results' transcripts and that of the non-final ones. Both are empty when `resultIndex` is past the end. |
| `Recognition.ErrorActionOf` | script.js:100-117 | `no-speech`, `network` and `aborted` are ignored. `not-allowed` stops the session. Every other code is only reported. |
| `App.TranscriptionApp.constructor` | script.js:2-19 | A new app is not recording and has no interim line and no entries. The speaker field takes the stored name when one is stored and non-empty. |
| `App.TranscriptionApp.SetSpeakerName` | script.js:49-52 | The speaker field's input event changes the field's value and nothing else. |
| `App.TranscriptionApp.StartRecording` | script.js:164-189 | While recording it does nothing. With a blank trimmed name it only shows the message and does not start the recognizer. Otherwise it sets `isRecording` before exactly one recognizer start, and `isRecording` ends up false exactly when that start throws. |
| `App.TranscriptionApp.StopRecording` | script.js:191-196 | Afterwards `isRecording` is false, there is no interim line, and one recognizer stop was issued. |
| `App.TranscriptionApp.OnStart` | script.js:58-62 | The engine's start event sets `isRecording`. |
| `App.TranscriptionApp.OnEnd` | script.js:64-78 | A restart is issued exactly when `isRecording` holds. Otherwise no call is made and the interim line is removed. |
| `App.TranscriptionApp.OnResult` | script.js:80-98 | A non-empty final text leads to `addLogEntry` (one entry unless blank) and removes the interim line. Otherwise a non-empty interim text replaces the interim line's text wholesale. Otherwise nothing changes. |
| `App.TranscriptionApp.OnError` | script.js:100-117 | `not-allowed` shows the message and stops the session. Every other code leaves `isRecording`, the interim line and the trace as they were. |
| `App.TranscriptionApp.AddLogEntry` | script.js:222-245 | Blank text leaves the log unchanged. Otherwise exactly one entry is appended at the end, with the prefix made from the clock and the speaker name. Earlier entries are untouched. |
| `App.TranscriptionApp.UpdateInterim` | script.js:247-256 | The interim line now shows exactly the given text. |
| `App.TranscriptionApp.RemoveInterim` | script.js:258-263 | No interim line remains. |
| `App.TranscriptionApp.DownloadLog` | script.js:269-300 | With no finalized entry there is no file, only the message. Otherwise the file name is `FileName(now)` and the content is the entries' lines in log order. Given the invariant, every exported entry has non-blank text. |
| `App.SessionLifecycle` | script.js:64-78 | Start, engine start, an unexpected end, a stop and the end that follows: the unexpected end restarts the recognizer, and the end after the user's stop does not. |
| `App.StartEventAfterStop` | script.js:58-78 | Start, stop, then an engine start event and an end event: because the start event sets `isRecording` unconditionally, the session is wanted again and the end restarts the recognizer after the user's stop. |

## Left out

- Rendering is left out: `updateUI`, `updateStatus`, the status texts, `setupVisibilityDetection`, `scrollToBottom`, the button tooltip set by `validateInput`, and the removal of the placeholder element. None of them affects the modelled state.
- The speaker field being disabled while recording is not modelled, because it is a UI state. `SetSpeakerName` may be called at any time.
- `alert` is recorded as an `Alert` effect with the exact message text. The download's "nothing to save" message is the `Refused` outcome of `DownloadLog`. That method changes no state, so it records no effect.
- `startSilentAudio` is left out (AudioContext, oscillator and gain plumbing). An exception it might throw, which would leave `isRecording` true without a recognizer start, is not modelled.
- Browser support detection and the recognizer configuration in `init` (language, continuous mode, interim results, alternatives) are left out. A browser without a recognizer makes `init` return before any of the modelled handlers is attached; that case is not modelled. Only the `visibilitychange` listener, which is rendering, is still attached. The `startThrows` parameter of `StartRecording` stands for a start the engine refuses, for example while the previous session is still stopping.
- `localStorage`: the stored name is a constructor parameter, and the write on every edit is left out.
- `Blob`, `URL.createObjectURL` and the anchor click are left out. The download is the returned `(name, content)` pair.
- `new Date()`, `toLocaleTimeString` and `getDay()` are the `Clock` parameter. That `getDay()` lies in 0..6 is a precondition of the stamp, as the host guarantees it.
- Console logging is left out. This includes a restart that throws in `onend`: it is swallowed, so it changes no modelled state.
- The interim line's position among the log area's children is not modelled. The export selects only non-interim entries, so that position does not affect it.
- JavaScript strings are UTF-16 and Dafny strings are sequences of Unicode scalar values. Lengths are therefore counted in scalar values.
- Merging several exported logs, their parsing and sorting, and the (name, size) de-duplication of a file selection do not appear in `script.js` and are not part of this model. Neither is disabling interim results on mobile devices: `script.js` sets `interimResults` to true unconditionally. The decoders in `Format` serve only to state properties of the export format.
