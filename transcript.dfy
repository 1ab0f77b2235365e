/**
 * `fetch_transcript`: resolve the video URL to an id, ask the caption
 * service for the preferred language with English as the fallback, and
 * join the caption entries' texts with single spaces.
 */
module Transcript {
  import opened Outcomes
  import opened Text

  /** The fallback language, and the default preferred language. */
  const DefaultLanguage: string := "en"

  /** One caption entry as the service returns it; the script reads only its text. */
  datatype CaptionEntry = CaptionEntry(text: string)

  /** The caption service's answer: the entries, or which exception it raised. */
  datatype CaptionReply =
    | Entries(entries: seq<CaptionEntry>)
    | TranscriptsDisabled
    | NoTranscriptFound
    | CaptionError(cause: string)

  /** Why `fetch_transcript` returned None, that is, which error it reported. */
  datatype FetchFailure =
    | CaptionsDisabled         // "does not have transcripts enabled"
    | CaptionsNotFound         // "No transcripts were found"
    | FetchError(cause: string) // any other exception, the URL lookup's included

  /** Resolving a URL to a video id (the video-hosting library). */
  type Resolver = string -> Reply<string>

  /** The caption service: a video id and the languages to try, in order. */
  type CaptionService = (string, seq<string>) -> CaptionReply

  /** The preference list sent with the request: the asked-for language, then English. */
  function CaptionLanguages(languageCode: string): seq<string>
  {
    [languageCode, DefaultLanguage]
  }

  /** The texts of the entries, in the order the service returned them. */
  function EntryTexts(entries: seq<CaptionEntry>): seq<string>
  {
    seq(|entries|, i requires 0 <= i < |entries| => entries[i].text)
  }

  /** What `fetch_transcript(url, languageCode)` returns: the transcript, or why it returned None. */
  function FetchTranscript(url: string, languageCode: string, resolve: Resolver, captions: CaptionService)
    : Result<string, FetchFailure>
  {
    match resolve(url)
    case Failure(e) => Failure(FetchError(e))
    case Success(videoId) =>
      match captions(videoId, CaptionLanguages(languageCode))
      case Entries(entries) => Success(Join(EntryTexts(entries)))
      case TranscriptsDisabled => Failure(CaptionsDisabled)
      case NoTranscriptFound => Failure(CaptionsNotFound)
      case CaptionError(cause) => Failure(FetchError(cause))
  }

  /**
   * The three exception classes give three distinct failures; a failed URL
   * lookup is reported like any other error; the fetch succeeds exactly
   * when the service returns entries for the preference list.
   */
  lemma FetchOutcomes(url: string, languageCode: string, resolve: Resolver, captions: CaptionService)
    ensures var r := FetchTranscript(url, languageCode, resolve, captions);
      && (resolve(url).Failure? ==> r == Failure(FetchError(resolve(url).error)))
      && (resolve(url).Success? ==>
           var reply := captions(resolve(url).value, [languageCode, "en"]);
           && (r.Success? <==> reply.Entries?)
           && (r == Failure(CaptionsDisabled) <==> reply.TranscriptsDisabled?)
           && (r == Failure(CaptionsNotFound) <==> reply.NoTranscriptFound?)
           && (reply.CaptionError? ==> r == Failure(FetchError(reply.cause))))
  {
  }

  /**
   * The caption service is consulted only for the resolved id with the
   * languages [languageCode, "en"]: two services that agree on that request
   * give the same outcome.
   */
  lemma FetchAsksPreferredThenEnglish(url: string, languageCode: string, resolve: Resolver,
                                      captions1: CaptionService, captions2: CaptionService)
    requires resolve(url).Success? ==>
      captions1(resolve(url).value, [languageCode, "en"]) == captions2(resolve(url).value, [languageCode, "en"])
    ensures FetchTranscript(url, languageCode, resolve, captions1) == FetchTranscript(url, languageCode, resolve, captions2)
  {
  }

  /**
   * A fetched transcript is the entry texts in received order, one space
   * between neighbours: its length is theirs plus the separators, it is
   * empty only for no entries or one empty entry, and splitting it on
   * spaces gives the entries back when none of them holds a space.
   */
  lemma TranscriptFromEntries(url: string, languageCode: string, resolve: Resolver, captions: CaptionService)
    requires resolve(url).Success?
    requires captions(resolve(url).value, CaptionLanguages(languageCode)).Entries?
    ensures var entries := captions(resolve(url).value, CaptionLanguages(languageCode)).entries;
      var texts := EntryTexts(entries);
      var t := FetchTranscript(url, languageCode, resolve, captions).value;
      && FetchTranscript(url, languageCode, resolve, captions).Success?
      && t == Join(texts)
      && (|entries| > 0 ==> |t| == |Concat(texts)| + |entries| - 1)
      && (t == "" <==> |entries| == 0 || (|entries| == 1 && entries[0].text == ""))
      && (|entries| > 0 && SpaceFree(texts) ==> Split(t) == texts)
  {
    var entries := captions(resolve(url).value, CaptionLanguages(languageCode)).entries;
    var texts := EntryTexts(entries);
    JoinLength(texts);
    JoinEmptyIff(texts);
    if |entries| > 0 && SpaceFree(texts) {
      SplitJoin(texts);
    }
  }
}
