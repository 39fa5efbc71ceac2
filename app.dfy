/**
  The recording session of the transcription page: the TranscriptionApp object,
  its start and stop handlers, the callbacks the speech-recognition engine
  invokes, the log it keeps and the export of that log.

  The engine is an abstract capability: each call the app makes on it is
  appended to a ghost trace, and a start that throws is a parameter of the
  handler that makes the call. The host clock is a Clock value passed in.
 */
module App {
  import opened Strings
  import opened Format
  import opened Recognition

  /** The blocking messages (alert) the app shows. */
  const SpeakerRequiredMessage: string := "話者名を入力してください。"
  const MicrophoneDeniedMessage: string := "マイクへのアクセスが拒否されました。マイクの使用を許可してください。"
  const NothingToSaveMessage: string := "保存するログがありません。"

  /** What the app does that the outside world sees: calls on the recognizer and blocking messages. */
  datatype Effect =
    | RecognizerStart(recordingAtCall: bool)  // with the value isRecording had when the call was made
    | RecognizerStop
    | Alert(message: string)

  /** A file handed to the browser to save. */
  datatype ExportFile = ExportFile(name: string, content: string)

  /** The outcome of a download request: a file to save, or the message that there is nothing to save. */
  datatype Download = Saved(file: ExportFile) | Refused(message: string)

  class TranscriptionApp {
    /** Whether the user wants the session to run (set on start, cleared only by a stop). */
    var isRecording: bool
    /** The interim line at the end of the log area, when one is shown, with its text. */
    var interim: Option<string>
    /** The current value of the speaker name field. */
    var speakerName: string
    /** The finalized entries of the log area, oldest first. */
    var entries: seq<LogEntry>
    /** Every recognizer call and every message so far, oldest first. */
    ghost var effects: seq<Effect>

    /** No entry holds blank text, and the recognizer is only ever started while isRecording holds. */
    ghost predicate Valid()
      reads this
    {
      (forall i :: 0 <= i < |entries| ==> !IsBlank(entries[i].text)) &&
      (forall i :: 0 <= i < |effects| ==> effects[i].RecognizerStart? ==> effects[i].recordingAtCall)
    }

    /** A new app: not recording, an empty log, and the speaker name restored from storage when one was stored. */
    constructor (storedName: Option<string>, fieldValue: string)
      ensures Valid()
      ensures !isRecording && interim == None && entries == [] && effects == []
      ensures speakerName == if storedName.Some? && storedName.value != "" then storedName.value else fieldValue
    {
      isRecording := false;
      interim := None;
      speakerName := if storedName.Some? && storedName.value != "" then storedName.value else fieldValue;
      entries := [];
      effects := [];
    }

    /** The speaker field's input event: the field now holds value. */
    method SetSpeakerName(value: string)
      requires Valid()
      modifies this
      ensures Valid()
      ensures speakerName == value
      ensures isRecording == old(isRecording) && interim == old(interim) && entries == old(entries) && effects == old(effects)
    {
      speakerName := value;
    }

    /**
      The start button. Nothing happens while recording; a blank speaker name
      only shows a message; otherwise isRecording is set before the recognizer
      is started, and cleared again if that start throws.
     */
    method StartRecording(startThrows: bool)
      requires Valid()
      modifies this
      ensures Valid()
      ensures entries == old(entries) && interim == old(interim) && speakerName == old(speakerName)
      ensures old(isRecording) ==> isRecording && effects == old(effects)
      ensures !old(isRecording) && Trim(speakerName) == [] ==>
        !isRecording && effects == old(effects) + [Alert(SpeakerRequiredMessage)]
      ensures !old(isRecording) && Trim(speakerName) != [] ==>
        isRecording == !startThrows && effects == old(effects) + [RecognizerStart(true)]
    {
      if isRecording {
        return;
      }
      if Trim(speakerName) == [] {
        effects := effects + [Alert(SpeakerRequiredMessage)];
        return;
      }
      isRecording := true;
      effects := effects + [RecognizerStart(isRecording)];
      if startThrows {
        isRecording := false;
      }
    }

    /** The stop button: the session is no longer wanted, the recognizer is stopped and the interim line removed. */
    method StopRecording()
      requires Valid()
      modifies this
      ensures Valid()
      ensures !isRecording && interim == None && effects == old(effects) + [RecognizerStop]
      ensures entries == old(entries) && speakerName == old(speakerName)
    {
      isRecording := false;
      effects := effects + [RecognizerStop];
      RemoveInterim();
    }

    /** The engine's start event. */
    method OnStart()
      requires Valid()
      modifies this
      ensures Valid()
      ensures isRecording
      ensures interim == old(interim) && entries == old(entries) && speakerName == old(speakerName) && effects == old(effects)
    {
      isRecording := true;
    }

    /**
      The engine's end event. While isRecording holds the recognizer is started
      again at once (a start that throws is only logged, so it changes nothing
      here); otherwise no restart is issued and the interim line is removed.
     */
    method OnEnd()
      requires Valid()
      modifies this
      ensures Valid()
      ensures effects == old(effects) + (if old(isRecording) then [RecognizerStart(true)] else [])
      ensures interim == (if old(isRecording) then old(interim) else None)
      ensures isRecording == old(isRecording) && entries == old(entries) && speakerName == old(speakerName)
    {
      if isRecording {
        effects := effects + [RecognizerStart(isRecording)];
      } else {
        RemoveInterim();
      }
    }

    /**
      The engine's result event. The results from resultIndex on are split into
      the final and the interim text; a non-empty final text is logged and the
      interim line removed, otherwise a non-empty interim text replaces the
      interim line's text.
     */
    method OnResult(results: seq<SpeechResult>, resultIndex: nat, now: Clock)
      requires Valid() && now.weekday < |Days|
      modifies this
      ensures Valid()
      ensures var final, interimText := FinalText(results, resultIndex), InterimText(results, resultIndex);
        if final != "" then
          interim == None &&
          entries == old(entries) + (if Trim(final) == [] then [] else [MakeEntry(now, speakerName, final)])
        else
          entries == old(entries) && interim == (if interimText != "" then Some(interimText) else old(interim))
      ensures isRecording == old(isRecording) && speakerName == old(speakerName) && effects == old(effects)
    {
      var finalTranscript, interimTranscript := SplitResults(results, resultIndex);
      if finalTranscript != "" {
        AddLogEntry(finalTranscript, now);
        RemoveInterim();
      } else if interimTranscript != "" {
        UpdateInterim(interimTranscript);
      }
    }

    /**
      The engine's error event. no-speech, network and aborted are ignored;
      not-allowed shows a message and stops the session; any other code is
      only reported, so the session goes on as it was.
     */
    method OnError(code: string)
      requires Valid()
      modifies this
      ensures Valid()
      ensures ErrorActionOf(code) == StopSession ==>
        !isRecording && interim == None &&
        effects == old(effects) + [Alert(MicrophoneDeniedMessage), RecognizerStop]
      ensures ErrorActionOf(code) != StopSession ==>
        isRecording == old(isRecording) && interim == old(interim) && effects == old(effects)
      ensures entries == old(entries) && speakerName == old(speakerName)
    {
      match ErrorActionOf(code)
      case Ignore =>
      case StopSession =>
        effects := effects + [Alert(MicrophoneDeniedMessage)];
        StopRecording();
      case Report =>
    }

    /**
      Logs text as a new entry stamped with now and the current speaker name;
      blank text is not logged. Entries already logged are left as they are.
     */
    method AddLogEntry(text: string, now: Clock)
      requires Valid() && now.weekday < |Days|
      modifies this
      ensures Valid()
      ensures entries == if Trim(text) == [] then old(entries) else old(entries) + [MakeEntry(now, speakerName, text)]
      ensures isRecording == old(isRecording) && interim == old(interim) && speakerName == old(speakerName) && effects == old(effects)
    {
      if Trim(text) == [] {
        return;
      }
      entries := entries + [MakeEntry(now, speakerName, text)];
    }

    /** Shows text on the interim line, creating the line if none is shown; an earlier interim text is replaced, not extended. */
    method UpdateInterim(text: string)
      requires Valid()
      modifies this
      ensures Valid()
      ensures interim == Some(text)
      ensures isRecording == old(isRecording) && entries == old(entries) && speakerName == old(speakerName) && effects == old(effects)
    {
      interim := Some(text);
    }

    /** Removes the interim line, if one is shown. */
    method RemoveInterim()
      requires Valid()
      modifies this
      ensures Valid()
      ensures interim == None
      ensures isRecording == old(isRecording) && entries == old(entries) && speakerName == old(speakerName) && effects == old(effects)
    {
      interim := None;
    }

    /**
      The download button: with no finalized entry, only the message;
      otherwise a file named after now whose content has one line per entry,
      in log order, none of them with blank text.
     */
    method DownloadLog(now: Clock) returns (d: Download)
      requires Valid()
      ensures entries == [] ==> d == Refused(NothingToSaveMessage)
      ensures entries != [] ==> d == Saved(ExportFile(FileName(now), ExportContent(entries)))
      ensures d.Saved? ==> forall i :: 0 <= i < |entries| ==> !IsBlank(entries[i].text)
    {
      if |entries| == 0 {
        return Refused(NothingToSaveMessage);
      }
      var content := "";
      var k := 0;
      while k < |entries|
        invariant 0 <= k <= |entries|
        invariant content == ExportContent(entries[..k])
      {
        var entry := entries[k];
        assert entries[..k + 1][..k] == entries[..k];
        content := content + entry.timeAndName + " " + entry.text + "\n";
        k := k + 1;
      }
      assert entries[..k] == entries;
      return Saved(ExportFile(FileName(now), content));
    }
  }

  /**
    A session as the user and the engine drive it: a start with a speaker name,
    the engine's start event, an end the user did not ask for, a stop, and the
    end that follows it. The unexpected end restarts the recognizer; the end
    after the stop does not.
   */
  method SessionLifecycle(app: TranscriptionApp)
    requires app.Valid() && !app.isRecording && Trim(app.speakerName) != []
    modifies app
    ensures app.Valid() && !app.isRecording && app.interim == None && app.entries == old(app.entries)
    ensures app.effects == old(app.effects) + [RecognizerStart(true), RecognizerStart(true), RecognizerStop]
  {
    app.StartRecording(false);
    app.OnStart();
    app.OnEnd();
    app.StopRecording();
    app.OnEnd();
  }

  /**
    An engine start event that arrives after the user's stop, as when the
    engine reports a start it had already begun: the start event sets
    isRecording without any condition, so the session counts as wanted again
    and the end event that follows restarts the recognizer.
   */
  method StartEventAfterStop(app: TranscriptionApp)
    requires app.Valid() && !app.isRecording && Trim(app.speakerName) != []
    modifies app
    ensures app.Valid() && app.isRecording && app.entries == old(app.entries)
    ensures app.effects == old(app.effects) + [RecognizerStart(true), RecognizerStop, RecognizerStart(true)]
  {
    app.StartRecording(false);
    app.StopRecording();
    app.OnStart();
    app.OnEnd();
  }
}
