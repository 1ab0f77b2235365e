/**
 * `translate_text`: validate the argument, slice it into chunks of 5000
 * characters, translate the chunks one at a time in order, and join the
 * translations with single spaces; the first failing chunk makes the whole
 * call fail.
 */
module TextTranslator {
  import opened Outcomes
  import opened Text
  import opened Chunking

  /**
   * The argument `translate_text` receives. Python lets the caller pass any
   * value; all that matters of a value that is not a string is whether it
   * is truthy.
   */
  datatype TextArg = Str(s: string) | NotStr(truthy: bool)

  /** Why `translate_text` returned None, that is, which error it reported. */
  datatype TranslateFailure =
    | NoText                  // the argument was falsy
    | NotAString              // the argument was truthy but not a string
    | Upstream(cause: string) // the translation service raised on some chunk

  /** The translation service: a chunk and a destination language code to a translation. */
  type Translator = (string, string) -> Reply<string>

  /** Python's `not text` is false: a non-empty string, or a truthy other value. */
  predicate Truthy(text: TextArg)
  {
    match text
    case Str(s) => s != ""
    case NotStr(truthy) => truthy
  }

  /**
   * Translating the chunks in order: the translations of all of them, or
   * the failure of the first one the service rejects.
   */
  function TranslateChunks(chunks: seq<string>, target: string, translator: Translator): Reply<seq<string>>
    decreases |chunks|
  {
    if chunks == [] then Success([])
    else
      var n := |chunks| - 1;
      match TranslateChunks(chunks[..n], target, translator)
      case Failure(e) => Failure(e)
      case Success(done) =>
        match translator(chunks[n], target)
        case Failure(e) => Failure(e)
        case Success(t) => Success(done + [t])
  }

  /** The chunks sent to the service: every chunk up to and including the first that fails. */
  function Attempted(chunks: seq<string>, target: string, translator: Translator): seq<string>
    decreases |chunks|
  {
    if chunks == [] then []
    else
      var n := |chunks| - 1;
      if TranslateChunks(chunks[..n], target, translator).Failure?
      then Attempted(chunks[..n], target, translator)
      else chunks
  }

  /** What `translate_text(text, target)` returns: the joined translation, or why it returned None. */
  function Translation(text: TextArg, target: string, translator: Translator): Result<string, TranslateFailure>
  {
    if !Truthy(text) then Failure(NoText)
    else if text.NotStr? then Failure(NotAString)
    else
      match TranslateChunks(Chunks(text.s, MaxChunkSize), target, translator)
      case Failure(e) => Failure(Upstream(e))
      case Success(parts) => Success(Join(parts))
  }

  /** The chunks `translate_text(text, target)` hands to the service, in the order it does. */
  function Requests(text: TextArg, target: string, translator: Translator): seq<string>
  {
    if !Truthy(text) || text.NotStr? then []
    else Attempted(Chunks(text.s, MaxChunkSize), target, translator)
  }

  /**
   * The chunk loop of `translate_text`: it returns the result and the chunks
   * it sent to the service, in order.
   */
  method TranslateText(text: TextArg, target: string, translator: Translator)
    returns (result: Result<string, TranslateFailure>, requested: seq<string>)
    ensures !Truthy(text) ==> result == Failure(NoText) && requested == []
    ensures Truthy(text) && text.NotStr? ==> result == Failure(NotAString) && requested == []
    ensures result == Translation(text, target, translator)
    ensures requested == Requests(text, target, translator)
  {
    if !Truthy(text) {
      return Failure(NoText), [];
    }
    if text.NotStr? {
      return Failure(NotAString), [];
    }
    var chunks := Chunks(text.s, MaxChunkSize);
    var translated: seq<string> := [];
    requested := [];
    var i := 0;
    while i < |chunks|
      invariant 0 <= i <= |chunks|
      invariant TranslateChunks(chunks[..i], target, translator) == Success(translated)
      invariant requested == chunks[..i]
    {
      requested := requested + [chunks[i]];
      var reply := translator(chunks[i], target);
      TranslateNext(chunks, i, target, translator);
      if reply.Failure? {
        assert requested == chunks[..i + 1];
        FailureIsFinal(chunks, i + 1, target, translator);
        return Failure(Upstream(reply.error)), requested;
      }
      translated := translated + [reply.value];
      i := i + 1;
    }
    assert chunks[..i] == chunks;
    AttemptedAll(chunks, target, translator);
    result := Success(Join(translated));
  }

  /** Translating one more chunk extends the translations so far, or fails with that chunk's error. */
  lemma TranslateNext(chunks: seq<string>, i: nat, target: string, translator: Translator)
    requires i < |chunks|
    ensures chunks[..i + 1][..i] == chunks[..i]
    ensures TranslateChunks(chunks[..i + 1], target, translator) ==
      match TranslateChunks(chunks[..i], target, translator)
      case Failure(e) => Failure(e)
      case Success(done) =>
        match translator(chunks[i], target)
        case Failure(e) => Failure(e)
        case Success(t) => Success(done + [t])
  {
    assert chunks[..i + 1][..i] == chunks[..i];
  }

  /**
   * Once the first i chunks fail, and the first i - 1 did not, the chunks
   * after them change neither the outcome nor the requests.
   */
  lemma {:induction false} FailureIsFinal(pre: seq<string>, i: nat, target: string, translator: Translator)
    requires 0 < i <= |pre|
    requires TranslateChunks(pre[..i], target, translator).Failure?
    requires !TranslateChunks(pre[..i - 1], target, translator).Failure?
    ensures TranslateChunks(pre, target, translator) == TranslateChunks(pre[..i], target, translator)
    ensures Attempted(pre, target, translator) == pre[..i]
    decreases |pre|
  {
    var n := |pre| - 1;
    if i == |pre| {
      assert pre[..i] == pre;
      assert pre[..i - 1] == pre[..n];
    } else {
      assert pre[..n][..i] == pre[..i];
      assert pre[..n][..i - 1] == pre[..i - 1];
      FailureIsFinal(pre[..n], i, target, translator);
    }
  }

  /** When every chunk translates, every chunk was sent. */
  lemma {:induction false} AttemptedAll(chunks: seq<string>, target: string, translator: Translator)
    requires TranslateChunks(chunks, target, translator).Success?
    ensures Attempted(chunks, target, translator) == chunks
  {
  }

  /**
   * The chunks translate exactly when the service accepts every one of them,
   * and then the translations stand in chunk order, one per chunk.
   */
  lemma {:induction false} TranslateChunksIff(chunks: seq<string>, target: string, translator: Translator)
    ensures TranslateChunks(chunks, target, translator).Success? <==>
      forall k :: 0 <= k < |chunks| ==> translator(chunks[k], target).Success?
    ensures TranslateChunks(chunks, target, translator).Success? ==>
      var parts := TranslateChunks(chunks, target, translator).value;
      && |parts| == |chunks|
      && forall k :: 0 <= k < |chunks| ==> parts[k] == translator(chunks[k], target).value
    decreases |chunks|
  {
    if chunks != [] {
      var n := |chunks| - 1;
      var pre := chunks[..n];
      TranslateChunksIff(pre, target, translator);
      assert forall k :: 0 <= k < n ==> pre[k] == chunks[k];
    }
  }

  /**
   * When chunk k is the first the service rejects, the whole translation
   * fails with that chunk's error and the chunks after it are never sent.
   */
  lemma FirstFailure(chunks: seq<string>, k: nat, target: string, translator: Translator)
    requires k < |chunks| && translator(chunks[k], target).Failure?
    requires forall j :: 0 <= j < k ==> translator(chunks[j], target).Success?
    ensures TranslateChunks(chunks, target, translator) == Failure(translator(chunks[k], target).error)
    ensures Attempted(chunks, target, translator) == chunks[..k + 1]
  {
    var pre := chunks[..k];
    TranslateChunksIff(pre, target, translator);
    assert chunks[..k + 1][..k] == pre;
    FailureIsFinal(chunks, k + 1, target, translator);
  }

  /**
   * A non-empty string is sent in ceil(len / 5000) chunks, in order, and
   * translates exactly when every chunk does; the result is then the
   * chunks' translations joined by single spaces.
   */
  lemma TranslationSuccess(s: string, target: string, translator: Translator)
    requires s != ""
    ensures var chunks := Chunks(s, MaxChunkSize);
      && (Translation(Str(s), target, translator).Success? <==>
          forall k :: 0 <= k < |chunks| ==> translator(chunks[k], target).Success?)
      && (Translation(Str(s), target, translator).Success? ==>
          && Translation(Str(s), target, translator).value ==
             Join(seq(|chunks|, k requires 0 <= k < |chunks| => translator(chunks[k], target).value))
          && Requests(Str(s), target, translator) == chunks
          && |Requests(Str(s), target, translator)| == (|s| + MaxChunkSize - 1) / MaxChunkSize)
  {
    var chunks := Chunks(s, MaxChunkSize);
    TranslateChunksIff(chunks, target, translator);
    MaxChunkCount(s);
    if TranslateChunks(chunks, target, translator).Success? {
      AttemptedAll(chunks, target, translator);
      var parts := TranslateChunks(chunks, target, translator).value;
      assert parts == seq(|chunks|, k requires 0 <= k < |chunks| => translator(chunks[k], target).value);
    }
  }

  /** A non-empty text of at most 5000 characters is sent whole, and its translation comes back unchanged. */
  lemma TranslationSingleChunk(s: string, target: string, translator: Translator)
    requires 0 < |s| <= MaxChunkSize
    ensures Requests(Str(s), target, translator) == [s]
    ensures Translation(Str(s), target, translator) ==
      match translator(s, target)
      case Success(t) => Success(t)
      case Failure(e) => Failure(Upstream(e))
  {
    SingleChunk(s, MaxChunkSize);
    assert [s][..0] == [];
  }

  /**
   * A failure on any chunk leaves no partial output: the result is the
   * first failing chunk's error, and nothing after that chunk is sent.
   */
  lemma TranslationAllOrNothing(s: string, k: nat, target: string, translator: Translator)
    requires var chunks := Chunks(s, MaxChunkSize);
      && k < |chunks| && translator(chunks[k], target).Failure?
      && forall j :: 0 <= j < k ==> translator(chunks[j], target).Success?
    ensures var chunks := Chunks(s, MaxChunkSize);
      && Translation(Str(s), target, translator) == Failure(Upstream(translator(chunks[k], target).error))
      && Requests(Str(s), target, translator) == chunks[..k + 1]
  {
    ChunkCount(s, MaxChunkSize);
    FirstFailure(Chunks(s, MaxChunkSize), k, target, translator);
  }
}
