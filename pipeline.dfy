/**
 * The handler of the "Process" button: check the URL, sweep old audio
 * files, show the video, then fetch, translate and speak, each stage run
 * only when the previous one produced a non-empty text, and finally offer
 * the audio file and delete it.
 */
module Pipeline {
  import opened Outcomes
  import opened TextTranslator
  import opened Transcript

  /** The external collaborators one run talks to. */
  datatype Services = Services(
    display: string -> Reply<()>,        // showing the video player for the URL
    resolve: Resolver,                   // URL to video id
    captions: CaptionService,            // caption retrieval
    translator: Translator,              // machine translation of one chunk
    speech: (string, string) -> Reply<string>) // speech synthesis to a fresh audio file, by path

  /** What one run shows, asks for and does, in the order it happens. */
  datatype Event =
    | UrlRejected                        // the URL field was empty
    | ScratchSwept                       // earlier audio files removed
    | VideoShown
    | VideoFailed(displayError: string)  // reported, not fatal
    | FetchStarted                       // "Fetching transcript..."
    | TranscriptFailed(fetchFailure: FetchFailure)
    | TranscriptShown(transcript: string)
    | TranslateStarted(text: string, languageCode: string)
    | ChunkSent(chunk: string)           // one call of the translation service
    | TranslationFailed(translateFailure: TranslateFailure)
    | TranslationShown(translation: string)
    | AudioStarted(text: string, languageCode: string)
    | AudioFailed(speechError: string)
    | AudioOffered(path: string)         // played and offered for download
    | AudioDeleted(path: string)

  /** The stage an event belongs to; a run never returns to an earlier stage. */
  function Rank(e: Event): nat
  {
    match e
    case UrlRejected => 0
    case ScratchSwept => 1
    case VideoShown => 2
    case VideoFailed(_) => 2
    case FetchStarted => 3
    case TranscriptFailed(_) => 4
    case TranscriptShown(_) => 4
    case TranslateStarted(_, _) => 5
    case ChunkSent(_) => 6
    case TranslationFailed(_) => 7
    case TranslationShown(_) => 7
    case AudioStarted(_, _) => 8
    case AudioFailed(_) => 9
    case AudioOffered(_) => 9
    case AudioDeleted(_) => 10
  }

  /** No event belongs to an earlier stage than any event before it. */
  ghost predicate InStageOrder(trace: seq<Event>)
  {
    forall i, j :: 0 <= i < j < |trace| ==> Rank(trace[i]) <= Rank(trace[j])
  }

  /** No event belongs to an earlier stage than the one just before it. */
  ghost predicate StepsForward(trace: seq<Event>)
  {
    forall i :: 0 < i < |trace| ==> Rank(trace[i - 1]) <= Rank(trace[i])
  }

  /** The events start at stage k or later and never step back. */
  ghost predicate StartsAtAndStepsForward(events: seq<Event>, k: nat)
  {
    StepsForward(events) && (events != [] ==> k <= Rank(events[0]))
  }

  /** The chunks handed to the translation service during the run, in order. */
  function SentChunks(trace: seq<Event>): seq<string>
  {
    if trace == [] then []
    else (if trace[0].ChunkSent? then [trace[0].chunk] else []) + SentChunks(trace[1..])
  }

  /** One ChunkSent event per chunk, in chunk order. */
  function ChunkEvents(chunks: seq<string>): seq<Event>
  {
    seq(|chunks|, i requires 0 <= i < |chunks| => ChunkSent(chunks[i]))
  }

  ghost predicate TranslationInvoked(trace: seq<Event>)
  {
    exists i :: 0 <= i < |trace| && trace[i].TranslateStarted?
  }

  ghost predicate AudioInvoked(trace: seq<Event>)
  {
    exists i :: 0 <= i < |trace| && trace[i].AudioStarted?
  }

  /** An audio file is deleted only as the last step, right after it was offered. */
  ghost predicate DeletedAfterOffer(trace: seq<Event>)
  {
    forall i :: 0 <= i < |trace| && trace[i].AudioDeleted? ==>
      0 < i == |trace| - 1 && trace[i - 1] == AudioOffered(trace[i].path)
  }

  /** No audio file is offered or deleted. */
  ghost predicate NoFile(events: seq<Event>)
  {
    forall i :: 0 <= i < |events| ==> !events[i].AudioOffered? && !events[i].AudioDeleted?
  }

  /** The file at path is offered and then deleted as the last two events, and no file before. */
  ghost predicate EndsWithFile(events: seq<Event>, path: string)
  {
    && |events| >= 2
    && NoFile(events[..|events| - 2])
    && events[|events| - 2..] == [AudioOffered(path), AudioDeleted(path)]
  }

  /** Python's truthiness of the `str | None` a stage returns. */
  predicate Produced<E>(r: Result<string, E>)
  {
    r.Success? && r.value != ""
  }

  /**
   * The transcript the handler fetches: `fetch_transcript(youtube_url)` is
   * called without a language, so the request always prefers English.
   */
  function RunTranscript(url: string, svc: Services): Result<string, FetchFailure>
  {
    FetchTranscript(url, DefaultLanguage, svc.resolve, svc.captions)
  }

  /** The translation the handler asks for: the fetched transcript into the chosen language. */
  function RunTranslation(url: string, languageCode: string, svc: Services): Result<string, TranslateFailure>
    requires RunTranscript(url, svc).Success?
  {
    Translation(Str(RunTranscript(url, svc).value), languageCode, svc.translator)
  }

  /** The event showing the video gives: shown, or the reported error. */
  function DisplayEvent(shown: Reply<()>): Event
  {
    match shown
    case Success(_) => VideoShown
    case Failure(e) => VideoFailed(e)
  }

  /**
   * The events of synthesis: the error is reported, nothing happens for an
   * empty path (the `if audio_file:` test), or the file is offered and then
   * deleted.
   */
  function AudioStage(audio: Reply<string>): seq<Event>
  {
    match audio
    case Failure(e) => [AudioFailed(e)]
    case Success(path) => if path == "" then [] else [AudioOffered(path), AudioDeleted(path)]
  }

  /**
   * The events after the chunks are sent: the translation's failure,
   * nothing for "", or the translation shown and synthesis.
   */
  function OutcomeEvents(translation: Result<string, TranslateFailure>, languageCode: string,
                         speech: (string, string) -> Reply<string>): seq<Event>
  {
    match translation
    case Failure(f) => [TranslationFailed(f)]
    case Success(translated) =>
      if translated == "" then []
      else [TranslationShown(translated), AudioStarted(translated, languageCode)]
           + AudioStage(speech(translated, languageCode))
  }

  /**
   * The events from translating a non-empty transcript on, given the chunks
   * sent and the translation's outcome.
   */
  function TranslationStage(requested: seq<string>, translation: Result<string, TranslateFailure>,
                            languageCode: string, speech: (string, string) -> Reply<string>): seq<Event>
  {
    ChunkEvents(requested) + OutcomeEvents(translation, languageCode, speech)
  }

  /** The events from the fetched transcript on: its failure, nothing for "", or the later stages. */
  function TranscriptStage(transcript: Result<string, FetchFailure>, languageCode: string, svc: Services): seq<Event>
  {
    match transcript
    case Failure(f) => [TranscriptFailed(f)]
    case Success(t) =>
      if t == "" then []
      else [TranscriptShown(t), TranslateStarted(t, languageCode)]
           + TranslationStage(Requests(Str(t), languageCode, svc.translator),
                              Translation(Str(t), languageCode, svc.translator), languageCode, svc.speech)
  }

  /** The events of one press of "Process", in order. */
  function RunTrace(url: string, languageCode: string, svc: Services): seq<Event>
  {
    if url == "" then [UrlRejected]
    else [ScratchSwept, DisplayEvent(svc.display(url)), FetchStarted]
         + TranscriptStage(RunTranscript(url, svc), languageCode, svc)
  }

  /**
   * One press of "Process", step by step as the handler runs it: the
   * events it produces are those of RunTrace.
   */
  method Process(url: string, languageCode: string, svc: Services) returns (trace: seq<Event>)
    ensures trace == RunTrace(url, languageCode, svc)
  {
    if url == "" {
      trace := [UrlRejected];
      return;
    }
    trace := [ScratchSwept];
    match svc.display(url) {
      case Success(_) => trace := trace + [VideoShown];
      case Failure(e) => trace := trace + [VideoFailed(e)];
    }
    trace := trace + [FetchStarted];
    ghost var head := trace;
    assert head == [ScratchSwept, DisplayEvent(svc.display(url)), FetchStarted];
    var transcript := FetchTranscript(url, DefaultLanguage, svc.resolve, svc.captions);
    assert transcript == RunTranscript(url, svc);
    if transcript.Failure? {
      trace := trace + [TranscriptFailed(transcript.error)];
    } else if transcript.value != "" {
      var t := transcript.value;
      trace := trace + [TranscriptShown(t), TranslateStarted(t, languageCode)];
      var later := TranslateAndSpeak(t, languageCode, svc);
      trace := trace + later;
      assert trace == head + ([TranscriptShown(t), TranslateStarted(t, languageCode)] + later);
    }
    assert trace == head + TranscriptStage(transcript, languageCode, svc);
  }

  /**
   * The handler's steps once a non-empty transcript is shown: translate it,
   * and when the translation is non-empty, synthesize it, offer the audio
   * file and delete it.
   */
  method TranslateAndSpeak(transcript: string, languageCode: string, svc: Services) returns (events: seq<Event>)
    requires transcript != ""
    ensures events == TranslationStage(Requests(Str(transcript), languageCode, svc.translator),
                                       Translation(Str(transcript), languageCode, svc.translator),
                                       languageCode, svc.speech)
  {
    var translated, requested := TranslateText(Str(transcript), languageCode, svc.translator);
    events := ChunkEvents(requested);
    if translated.Failure? {
      events := events + [TranslationFailed(translated.error)];
    } else if translated.value != "" {
      events := events + [TranslationShown(translated.value), AudioStarted(translated.value, languageCode)];
      var audio := svc.speech(translated.value, languageCode);
      match audio {
        case Failure(e) =>
          events := events + [AudioFailed(e)];
        case Success(path) =>
          if path != "" {
            events := events + [AudioOffered(path)];
            events := events + [AudioDeleted(path)];
          }
      }
    }
  }

  /** Joining two forward-stepping traces keeps stepping forward when the seam does. */
  lemma StepsForwardConcat(a: seq<Event>, b: seq<Event>)
    requires StepsForward(a) && StepsForward(b)
    requires a != [] && b != [] ==> Rank(a[|a| - 1]) <= Rank(b[0])
    ensures StepsForward(a + b)
  {
    var c := a + b;
    forall i | 0 < i < |c| ensures Rank(c[i - 1]) <= Rank(c[i]) {
      if i < |a| {
        assert c[i - 1] == a[i - 1] && c[i] == a[i];
      } else if i > |a| {
        assert c[i - 1] == b[i - 1 - |a|] && c[i] == b[i - |a|];
      }
    }
  }

  /** A forward-stepping trace is in stage order. */
  lemma {:induction false} StepsForwardInOrder(trace: seq<Event>)
    requires StepsForward(trace)
    ensures InStageOrder(trace)
    decreases |trace|
  {
    if |trace| > 1 {
      var pre := trace[..|trace| - 1];
      assert StepsForward(pre) by {
        forall i | 0 < i < |pre| ensures Rank(pre[i - 1]) <= Rank(pre[i]) {
          assert pre[i - 1] == trace[i - 1] && pre[i] == trace[i];
        }
      }
      StepsForwardInOrder(pre);
      forall i, j | 0 <= i < j < |trace| ensures Rank(trace[i]) <= Rank(trace[j]) {
        if j < |trace| - 1 {
          assert trace[i] == pre[i] && trace[j] == pre[j];
        } else if i < j - 1 {
          assert Rank(pre[i]) <= Rank(pre[j - 1]);
        }
      }
    }
  }

  /** The translation outcome and synthesis start at stage 7 and step forward. */
  lemma OutcomeOrdered(translation: Result<string, TranslateFailure>, languageCode: string,
                       speech: (string, string) -> Reply<string>)
    ensures StartsAtAndStepsForward(OutcomeEvents(translation, languageCode, speech), 7)
  {
    if translation.Success? && translation.value != "" {
      var head := [TranslationShown(translation.value), AudioStarted(translation.value, languageCode)];
      var audio := AudioStage(speech(translation.value, languageCode));
      StepsForwardConcat(head, audio);
    }
  }

  /** The translation stage starts at stage 6 and steps forward. */
  lemma TranslationStageOrdered(requested: seq<string>, translation: Result<string, TranslateFailure>,
                                languageCode: string, speech: (string, string) -> Reply<string>)
    ensures StartsAtAndStepsForward(TranslationStage(requested, translation, languageCode, speech), 6)
  {
    var chunks := ChunkEvents(requested);
    assert StepsForward(chunks) by {
      forall i | 0 < i < |chunks| ensures Rank(chunks[i - 1]) <= Rank(chunks[i]) {
      }
    }
    OutcomeOrdered(translation, languageCode, speech);
    StepsForwardConcat(chunks, OutcomeEvents(translation, languageCode, speech));
  }

  /** Everything from the fetched transcript on starts at stage 4 and steps forward. */
  lemma TranscriptStageOrdered(transcript: Result<string, FetchFailure>, languageCode: string, svc: Services)
    ensures StartsAtAndStepsForward(TranscriptStage(transcript, languageCode, svc), 4)
  {
    if transcript.Success? && transcript.value != "" {
      var t := transcript.value;
      var requested := Requests(Str(t), languageCode, svc.translator);
      var translation := Translation(Str(t), languageCode, svc.translator);
      var later := TranslationStage(requested, translation, languageCode, svc.speech);
      assert TranscriptStage(transcript, languageCode, svc) == [TranscriptShown(t), TranslateStarted(t, languageCode)] + later;
      TranslationStageOrdered(requested, translation, languageCode, svc.speech);
      StepsForwardConcat([TranscriptShown(t), TranslateStarted(t, languageCode)], later);
    }
  }

  /** Every event of a run belongs to the same stage as the events before it, or a later one. */
  lemma RunInStageOrder(url: string, languageCode: string, svc: Services)
    ensures InStageOrder(RunTrace(url, languageCode, svc))
  {
    if url != "" {
      var transcript := RunTranscript(url, svc);
      TranscriptStageOrdered(transcript, languageCode, svc);
      StepsForwardConcat([ScratchSwept, DisplayEvent(svc.display(url)), FetchStarted],
                         TranscriptStage(transcript, languageCode, svc));
    }
    StepsForwardInOrder(RunTrace(url, languageCode, svc));
  }

  /** The chunks sent by a concatenation are those of each part, in order. */
  lemma {:induction false} SentChunksAppend(a: seq<Event>, b: seq<Event>)
    ensures SentChunks(a + b) == SentChunks(a) + SentChunks(b)
    decreases |a|
  {
    if a == [] {
      assert a + b == b;
    } else {
      SentChunksAppend(a[1..], b);
      assert (a + b)[1..] == a[1..] + b;
    }
  }

  /** A trace without chunk events sent no chunk. */
  lemma {:induction false} NoChunkSent(trace: seq<Event>)
    requires forall i :: 0 <= i < |trace| ==> !trace[i].ChunkSent?
    ensures SentChunks(trace) == []
    decreases |trace|
  {
    if trace != [] {
      NoChunkSent(trace[1..]);
    }
  }

  /** The chunk events give back the chunks they record. */
  lemma {:induction false} SentChunkEvents(chunks: seq<string>)
    ensures SentChunks(ChunkEvents(chunks)) == chunks
    decreases |chunks|
  {
    if chunks != [] {
      SentChunkEvents(chunks[1..]);
      assert ChunkEvents(chunks)[1..] == ChunkEvents(chunks[1..]);
    }
  }

  /**
   * An empty URL is rejected and nothing else happens. Otherwise the run
   * sweeps old audio files, tries to show the video and fetches the
   * transcript; what follows does not depend on whether the video could be
   * shown.
   */
  lemma RunStart(url: string, languageCode: string, svc: Services, display: string -> Reply<()>)
    ensures url == "" ==> RunTrace(url, languageCode, svc) == [UrlRejected]
    ensures url != "" ==>
      var trace := RunTrace(url, languageCode, svc);
      && |trace| >= 3
      && trace[..3] == [ScratchSwept, DisplayEvent(svc.display(url)), FetchStarted]
      && trace[2..] == RunTrace(url, languageCode, svc.(display := display))[2..]
  {
    if url != "" {
      var other := svc.(display := display);
      assert RunTranscript(url, other) == RunTranscript(url, svc);
    }
  }

  /**
   * Translation starts exactly when the URL is non-empty and the fetched
   * transcript is a non-empty string, and it is asked for that transcript
   * in the chosen language, right after the transcript is shown.
   */
  lemma RunTranslationGate(url: string, languageCode: string, svc: Services)
    ensures TranslationInvoked(RunTrace(url, languageCode, svc)) <==>
      url != "" && Produced(RunTranscript(url, svc))
    ensures url != "" && Produced(RunTranscript(url, svc)) ==>
      var trace := RunTrace(url, languageCode, svc);
      var t := RunTranscript(url, svc).value;
      |trace| > 4 && trace[3] == TranscriptShown(t) && trace[4] == TranslateStarted(t, languageCode)
  {
    var trace := RunTrace(url, languageCode, svc);
    if url != "" {
      var transcript := RunTranscript(url, svc);
      if Produced(transcript) {
        assert trace[4].TranslateStarted?;
      } else {
        assert |trace| <= 4;
        assert forall i :: 0 <= i < |trace| ==> !trace[i].TranslateStarted?;
      }
    }
  }

  /** The translation stage sends exactly the chunks it was given, in order. */
  lemma TranslationStageSent(requested: seq<string>, translation: Result<string, TranslateFailure>,
                             languageCode: string, speech: (string, string) -> Reply<string>)
    ensures SentChunks(TranslationStage(requested, translation, languageCode, speech)) == requested
  {
    var outcome := OutcomeEvents(translation, languageCode, speech);
    SentChunksAppend(ChunkEvents(requested), outcome);
    SentChunkEvents(requested);
    NoChunkSent(outcome);
  }

  /**
   * The chunks handed to the translation service during a run are the
   * chunks translate_text sends for the fetched transcript, in order, and
   * none at all when translation does not start.
   */
  lemma RunSentChunks(url: string, languageCode: string, svc: Services)
    ensures SentChunks(RunTrace(url, languageCode, svc)) ==
      if url != "" && Produced(RunTranscript(url, svc))
      then Requests(Str(RunTranscript(url, svc).value), languageCode, svc.translator)
      else []
  {
    var trace := RunTrace(url, languageCode, svc);
    if url == "" {
      NoChunkSent(trace);
    } else {
      var head := [ScratchSwept, DisplayEvent(svc.display(url)), FetchStarted];
      var transcript := RunTranscript(url, svc);
      var later := TranscriptStage(transcript, languageCode, svc);
      SentChunksAppend(head, later);
      NoChunkSent(head);
      if Produced(transcript) {
        var t := transcript.value;
        var requested := Requests(Str(t), languageCode, svc.translator);
        var translation := Translation(Str(t), languageCode, svc.translator);
        var stage := TranslationStage(requested, translation, languageCode, svc.speech);
        var shown := [TranscriptShown(t), TranslateStarted(t, languageCode)];
        assert later == shown + stage;
        SentChunksAppend(shown, stage);
        NoChunkSent(shown);
        TranslationStageSent(requested, translation, languageCode, svc.speech);
      } else {
        NoChunkSent(later);
      }
    }
  }

  /**
   * Within the translation stage, synthesis starts exactly when the
   * translation is a non-empty string, and it is asked for that text.
   */
  lemma TranslationStageAudio(requested: seq<string>, translation: Result<string, TranslateFailure>,
                              languageCode: string, speech: (string, string) -> Reply<string>)
    ensures var events := TranslationStage(requested, translation, languageCode, speech);
      && ((exists i :: 0 <= i < |events| && events[i].AudioStarted?) <==> Produced(translation))
      && (Produced(translation) ==>
           |events| > |requested| + 1 && events[|requested| + 1] == AudioStarted(translation.value, languageCode))
  {
    var events := TranslationStage(requested, translation, languageCode, speech);
    var outcome := events[|requested|..];
    assert events == ChunkEvents(requested) + outcome;
    if Produced(translation) {
      assert events[|requested| + 1] == AudioStarted(translation.value, languageCode);
    } else {
      assert |outcome| <= 1;
      forall i | 0 <= i < |events| ensures !events[i].AudioStarted? {
        if i >= |requested| {
          assert events[i] == outcome[i - |requested|];
        }
      }
    }
  }

  /**
   * Synthesis starts exactly when translation started and produced a
   * non-empty text, and it is asked for that text in the chosen language.
   */
  lemma RunAudioGate(url: string, languageCode: string, svc: Services)
    ensures AudioInvoked(RunTrace(url, languageCode, svc)) <==>
      url != "" && Produced(RunTranscript(url, svc)) && Produced(RunTranslation(url, languageCode, svc))
    ensures url != "" && Produced(RunTranscript(url, svc)) && Produced(RunTranslation(url, languageCode, svc)) ==>
      AudioStarted(RunTranslation(url, languageCode, svc).value, languageCode) in RunTrace(url, languageCode, svc)
  {
    var trace := RunTrace(url, languageCode, svc);
    if url != "" {
      var transcript := RunTranscript(url, svc);
      var head := [ScratchSwept, DisplayEvent(svc.display(url)), FetchStarted];
      if Produced(transcript) {
        var t := transcript.value;
        var requested := Requests(Str(t), languageCode, svc.translator);
        var translation := Translation(Str(t), languageCode, svc.translator);
        var stage := TranslationStage(requested, translation, languageCode, svc.speech);
        TranslationStageAudio(requested, translation, languageCode, svc.speech);
        assert trace == head + [TranscriptShown(t), TranslateStarted(t, languageCode)] + stage;
        forall i | 0 <= i < |trace| && trace[i].AudioStarted? ensures 5 <= i && stage[i - 5].AudioStarted? {
          assert i >= 5;
        }
        if Produced(translation) {
          assert trace[5 + |requested| + 1] == stage[|requested| + 1];
        }
      } else {
        assert |trace| <= 4;
      }
    }
  }

  /** Putting events without a file in front keeps a trace ending with the file. */
  lemma PrependKeepsFile(a: seq<Event>, events: seq<Event>, path: string)
    requires NoFile(a) && EndsWithFile(events, path)
    ensures EndsWithFile(a + events, path)
  {
    var c := a + events;
    assert c[..|c| - 2] == a + events[..|events| - 2];
    assert c[|c| - 2..] == events[|events| - 2..];
  }

  /** A trace without a file, or ending with one, deletes only right after offering. */
  lemma FileDiscipline(trace: seq<Event>)
    requires NoFile(trace) || exists path :: EndsWithFile(trace, path)
    ensures DeletedAfterOffer(trace)
  {
    if !NoFile(trace) {
      var path :| EndsWithFile(trace, path);
      var n := |trace|;
      forall i | 0 <= i < n && trace[i].AudioDeleted?
        ensures 0 < i == n - 1 && trace[i - 1] == AudioOffered(trace[i].path)
      {
        if i < n - 2 {
          assert false;
        } else {
          assert trace[n - 2] == trace[n - 2..][0] && trace[n - 1] == trace[n - 2..][1];
        }
      }
    }
  }

  /**
   * Within the translation stage: when synthesis produced a non-empty path, the stage
   * ends by offering it and then deleting it; otherwise no file is offered
   * or deleted.
   */
  lemma TranslationStageFile(requested: seq<string>, translation: Result<string, TranslateFailure>,
                             languageCode: string, speech: (string, string) -> Reply<string>)
    ensures var events := TranslationStage(requested, translation, languageCode, speech);
      if Produced(translation) && Produced(speech(translation.value, languageCode))
      then EndsWithFile(events, speech(translation.value, languageCode).value)
      else NoFile(events)
  {
    var chunks := ChunkEvents(requested);
    var outcome := OutcomeEvents(translation, languageCode, speech);
    assert NoFile(chunks);
    if Produced(translation) && Produced(speech(translation.value, languageCode)) {
      var path := speech(translation.value, languageCode).value;
      var head := [TranslationShown(translation.value), AudioStarted(translation.value, languageCode)];
      assert outcome == head + [AudioOffered(path), AudioDeleted(path)];
      assert EndsWithFile(outcome, path) by {
        assert outcome[..2] == head;
      }
      PrependKeepsFile(chunks, outcome, path);
    }
  }

  /** From the fetched transcript on, the same holds: the file of the run ends the events, or there is none. */
  lemma TranscriptStageFile(transcript: Result<string, FetchFailure>, languageCode: string, svc: Services)
    ensures var events := TranscriptStage(transcript, languageCode, svc);
      if Produced(transcript)
         && Produced(Translation(Str(transcript.value), languageCode, svc.translator))
         && Produced(svc.speech(Translation(Str(transcript.value), languageCode, svc.translator).value, languageCode))
      then EndsWithFile(events,
             svc.speech(Translation(Str(transcript.value), languageCode, svc.translator).value, languageCode).value)
      else NoFile(events)
  {
    if Produced(transcript) {
      var t := transcript.value;
      var requested := Requests(Str(t), languageCode, svc.translator);
      var translation := Translation(Str(t), languageCode, svc.translator);
      var later := TranslationStage(requested, translation, languageCode, svc.speech);
      var shown := [TranscriptShown(t), TranslateStarted(t, languageCode)];
      assert TranscriptStage(transcript, languageCode, svc) == shown + later;
      TranslationStageFile(requested, translation, languageCode, svc.speech);
      if Produced(translation) && Produced(svc.speech(translation.value, languageCode)) {
        PrependKeepsFile(shown, later, svc.speech(translation.value, languageCode).value);
      }
    }
  }

  /**
   * The audio file of a run is offered and then deleted as the last two
   * events, exactly when synthesis produced a non-empty path; no other file is offered
   * or deleted, and nothing is deleted before being offered.
   */
  lemma RunAudioFile(url: string, languageCode: string, svc: Services)
    ensures DeletedAfterOffer(RunTrace(url, languageCode, svc))
    ensures var trace := RunTrace(url, languageCode, svc);
      if url != "" && Produced(RunTranscript(url, svc)) && Produced(RunTranslation(url, languageCode, svc))
         && Produced(svc.speech(RunTranslation(url, languageCode, svc).value, languageCode))
      then EndsWithFile(trace, svc.speech(RunTranslation(url, languageCode, svc).value, languageCode).value)
      else NoFile(trace)
  {
    var trace := RunTrace(url, languageCode, svc);
    if url != "" {
      var transcript := RunTranscript(url, svc);
      var head := [ScratchSwept, DisplayEvent(svc.display(url)), FetchStarted];
      var later := TranscriptStage(transcript, languageCode, svc);
      TranscriptStageFile(transcript, languageCode, svc);
      if Produced(transcript) && Produced(RunTranslation(url, languageCode, svc))
         && Produced(svc.speech(RunTranslation(url, languageCode, svc).value, languageCode)) {
        PrependKeepsFile(head, later, svc.speech(RunTranslation(url, languageCode, svc).value, languageCode).value);
      }
    }
    FileDiscipline(trace);
  }
}
