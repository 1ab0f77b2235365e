# YouTube video translator with voice: a Dafny model of its pipeline

The script is a single Streamlit page. It takes a video URL, fetches the
video's caption text, translates that text into a chosen language and
synthesizes speech from the translation. Text and audio are shown back to
the user. The captions, the translation and the speech synthesis are
external services. The script itself owns four things, and they are what
this project models:

- **Chunking.** `translate_text` slices the transcript into pieces of 5000
  characters: `[text[i:i+5000] for i in range(0, len(text), 5000)]`.
  `Chunking` models Python's `range` and slicing and proves that the
  slicing loses nothing. It also proves the chunk count is
  ceil(len / 5000) and that every chunk except the last is full.
- **Translation.** `translate_text` rejects a falsy or non-string argument
  without calling the service. It then translates the chunks one at a
  time, in order, and joins the translations with single spaces. The
  first failing chunk makes the whole call return `None`.
  `TextTranslator.TranslateText` is that loop as a method. It is proved
  equal to the reference functions `Translation` (the returned value) and
  `Requests` (the chunks sent to the service, in order).
- **Transcript assembly.** `fetch_transcript` asks the caption service for
  `[language_code, "en"]`. It maps three exception classes to three
  failures and joins the entry texts with single spaces (`Transcript`).
  `Text` models `" ".join` and its inverse `str.split(" ")`.
- **Stage gating.** The handler of the "Process" button runs the stages in
  order (`Pipeline.Process`). An empty URL stops the run at once. A video
  that cannot be shown is reported and the run goes on. Translation runs
  only on a non-empty transcript, synthesis only on a non-empty
  translation, and the audio file is deleted right after it has been
  offered. The method returns the run's events, and it is proved equal to
  the reference function `RunTrace`. The gating properties are lemmas
  about `RunTrace`.

The external services are parameters of the model. Each is a total
function from its request to a result or to the message of the exception
it raised (`Outcomes.Reply`): the URL-to-id lookup, the caption service,
the translation service, video display and speech synthesis.
`translate_text` and `fetch_transcript` return `None` on every failure.
The model returns a failure kind instead. The kind says which error
message the function reports: `NoText`, `NotAString` or `Upstream` for the
translation; `CaptionsDisabled`, `CaptionsNotFound` or `FetchError` for the
transcript.

The page describes itself (youtube.py:76) as fetching the transcript,
translating it and generating audio "in the desired language". The code
departs from that description, and from what one might expect of it, in
several places; the model follows the code in each case:

- The handler calls `fetch_transcript(youtube_url)` without a language
  (youtube.py:102). Captions are therefore always requested as
  `["en", "en"]`, whatever target language is chosen (`RunTranscript`).
- A transcript, a translation or an audio path that comes back as the
  empty string stops the run with no error reported. The gate is Python
  truthiness (youtube.py:103, 115, 120), modelled by `Produced`.
- Two empty caption entries join to `" "`, which is truthy, so translation
  starts (`Transcript.TranscriptFromEntries`).

## Model

| member | source | states |
|---|---|---|
| `Text.JoinSnoc` | youtube.py:48-51 | Appending one more translated chunk and joining adds exactly one space and that chunk to the earlier join. |
| `Text.JoinLength` | youtube.py:51 | A join of n > 0 parts is their characters plus n - 1 separators; the join of no parts is "". |
| `Text.JoinEmptyIff` | youtube.py:14 | A join is "" exactly when there are no parts or the only part is "". |
| `Text.SplitJoin` | youtube.py:14 | Splitting a join on spaces gives the parts back, in order, when no part holds a space. |
| `Text.JoinSplit` | youtube.py:14 | Joining the space-separated fields of any string gives that string back. |
| `Chunking.RangeShape` | youtube.py:39 | `range(start, stop, step)` holds start + k * step for k = 0, 1, …, each below stop, and has ceil((stop - start) / step) elements. |
| `Chunking.ChunkAt` | youtube.py:39 | Chunk k starts at k * width, inside the text, and ends at (k + 1) * width or at the end of the text. |
| `Chunking.ChunkCount` | youtube.py:39 | There are no chunks exactly when the text is empty; otherwise (n - 1) * width < len <= n * width, i.e. n is the ceiling of len / width. |
| `Chunking.MaxChunkCount` | youtube.py:38-39 | With width 5000, the number of chunks is (len + 4999) / 5000. |
| `Chunking.ChunkSizes` | youtube.py:38-39 | Every chunk is non-empty and at most width long; every chunk but the last is exactly width long. |
| `Chunking.ChunksConcat` | youtube.py:38-39 | The chunks concatenated in order are the text: chunking is lossless and has no overlap. |
| `Chunking.SingleChunk` | youtube.py:39 | A non-empty text of at most width characters is its own single chunk. |
| `TextTranslator.TranslateText` | youtube.py:26-61 | A falsy argument gives NoText and a truthy non-string gives NotAString, both without any service call; otherwise the loop returns exactly `Translation` and sends exactly the chunks of `Requests`, in order. |
| `TextTranslator.TranslateChunksIff` | youtube.py:44-48 | The chunks translate exactly when the service accepts every one of them; the translations then stand one per chunk, in chunk order. |
| `TextTranslator.FailureIsFinal` | youtube.py:42-48 | Once a chunk fails, later chunks change neither the outcome nor the chunks sent: the loop is left at the first failure. |
| `TextTranslator.FirstFailure` | youtube.py:44-48 | When chunk k is the first that fails, the result is that chunk's error and exactly chunks 0..k were sent. |
| `TextTranslator.TranslationSuccess` | youtube.py:38-54 | For non-empty text, the result succeeds iff every chunk translates, and then it is the chunk translations joined by single spaces; the chunks are sent in index order, ceil(len / 5000) of them. |
| `TextTranslator.TranslationSingleChunk` | youtube.py:39-54 | A non-empty text of at most 5000 characters is sent whole, and its translation comes back unchanged, with no separator. |
| `TextTranslator.TranslationAllOrNothing` | youtube.py:42-61 | When chunk k of the text is the first the service rejects, the call returns that chunk's error and no partial translation, and exactly chunks 0..k were sent. |
| `Transcript.FetchOutcomes` | youtube.py:10-23 | A failed URL lookup is an ordinary error; otherwise the fetch succeeds iff the service returns entries, and transcripts-disabled and not-found give their own distinct failures. |
| `Transcript.FetchAsksPreferredThenEnglish` | youtube.py:12-13 | The caption service is consulted only for the resolved id with the languages [language_code, "en"], in that order. |
| `Transcript.TranscriptFromEntries` | youtube.py:14 | The transcript is exactly the entry texts in received order joined with single spaces: its length is theirs plus the separators, it is "" only for no entries or one empty entry, and splitting it on spaces gives the entries back when none holds a space. |
| `Pipeline.Process` | youtube.py:86-128 | The handler's run produces exactly the events of `RunTrace`. |
| `Pipeline.TranslateAndSpeak` | youtube.py:114-128 | The steps after a non-empty transcript produce one event per chunk sent, the translation's outcome, and synthesis with offer and deletion of the file, exactly as `TranslationStage` says. |
| `Pipeline.RunStart` | youtube.py:87-102 | An empty URL produces only the rejection. Otherwise the run sweeps old audio, tries to show the video and starts the fetch, and everything after the display attempt is the same whether or not the video could be shown. |
| `Pipeline.RunTranslationGate` | youtube.py:102-114 | Translation starts exactly when the URL is non-empty and the fetched transcript is a non-empty string; it is asked for that transcript, in the chosen language, right after the transcript is shown. |
| `Pipeline.RunSentChunks` | youtube.py:102-114 | The chunks sent to the translation service during a run are those `translate_text` sends for the fetched transcript, in order; none are sent when translation does not start. |
| `Pipeline.RunAudioGate` | youtube.py:114-119 | Synthesis starts exactly when translation started and produced a non-empty text, and it is asked for that text in the chosen language. |
| `Pipeline.RunAudioFile` | youtube.py:119-128 | When synthesis produced a non-empty path, the run ends by offering that file and then deleting it; otherwise (an error, or an empty path) no file is offered or deleted; nothing is ever deleted before it was offered. |
| `Pipeline.RunInStageOrder` | youtube.py:86-128 | Events appear in stage order: sweep, display, fetch, transcript, translation start, chunks, translation outcome, synthesis start, offer, deletion; no run returns to an earlier stage. |

## Left out

- Presentation: every `st.*` call is left out. That covers titles, success and error messages, text areas, the player, the download button, the debug lines about the transcript's type and length, and the previews cut to 100 and 200 characters. Only the fact that a stage was reached or shown is kept, as an event.
- The wording of error messages: a failure kind stands for each message, and the exception text is kept as an opaque string.
- The file system: the sweep of `/tmp/*.mp3` before a run is recorded only as a `ScratchSwept` event, and which files it removes is not modelled. `os.unlink` of the audio file is an `AudioDeleted` event.
- `generate_audio`'s temporary file: creating the named temporary file and saving the speech into it are one speech service that returns a path or an error. An empty temporary file left behind when saving fails is not modelled.
- `Translator()` construction (youtube.py:41) sits outside the `try`. It is assumed to succeed; an exception there would escape `translate_text`.
- Caption entries keep only their text; start times and durations are left out. An entry without a `text` key would raise inside the `try` and be reported like any other error; the model's entries always have a text.
- The translation service's reply is assumed to be a string. A reply whose `.text` is not a string would make the join raise, which the model does not represent.
- Python's dynamic typing: a non-string argument to `translate_text` is reduced to its truthiness (`TextArg.NotStr`), which is all the function inspects.
- The fixed language list of the select box (youtube.py:80-84): the language code is a parameter of the run.
- Concurrency between sessions sharing `/tmp`, timeouts, and hanging services are left out. The model treats each service call as returning.
