# Audio transcription tool — verified model of its core

The tool turns a recording into text with a remote speech-to-text model. This
project models its core in Dafny:

- **Duration and splitting** (`src/audio.py`). A recording longer than one chunk
  (300 s by default) is cut into chunk files. Each cut falls at the middle of the
  silence nearest the chunk boundary, within a ±30 s window. When there is no
  silence there, the cut is made exactly at the boundary.
- **Retries and truncation** (`src/transcriber.py`). Each file is sent to the model
  up to three times, with exponential backoff between attempts. Answers that
  return nothing or are blank are not retried. Each chunk text is checked for
  signs of truncation: too few words for its duration, or no sentence-ending
  punctuation.
- **The pipeline** (`src/transcriber.py`). A short recording is transcribed in one
  call. A long one is split, its chunks are transcribed in order and joined with
  blank lines, and the chunk files are removed in a `finally`. Errors during that
  removal are swallowed.
- **The older script** (`transcribe.py`). Fixed ten-minute chunks, one call per
  file with no retry, and a `finally` whose `os.remove` errors propagate and
  replace the result.
- **Download file names** (`src/downloader.py`). The name a direct download is
  saved under, and the `.mp3` path of a YouTube download.

Modelling choices:

- The file system is a `FileStore` class: a map from paths to blobs, plus the set
  of paths whose removal the operating system refuses.
- Audio is known only by its length in whole milliseconds. `Storage.Decode`
  stands for pydub's decoder: it gives the length of a path that holds audio and
  nothing otherwise.
- `Service.Call` stands for one attempt of `_transcribe_file`: `open` raises
  for a missing file before the model is called; otherwise the model answers.
  The exception's text, `Service.NoSuchFile`, shows the path as Python's
  `repr` does (`Text.Repr`): the quote it chooses, and its escapes.
- The silence detector (pydub) is a function parameter, `Detector`.
- The remote model is a function parameter, `Remote`: given a path and an attempt
  number, it returns the tokens, nothing, or an exception.
- Sleeps are not performed. The methods return the delays they would have slept.
- Each imperative Python function is a Dafny method proved equal to a
  specification function: `Plan`, `Retry`, `Transcripts`, `Pipeline`, `Sweep`,
  `Collect`. The lemmas state what the source promises about those functions.

Between two equally near silences, the first one the detector reports wins:
the scan in `_find_silence_near` replaces its choice only with a strictly nearer
one. pydub reports silences in order of start, so the earliest silence wins
(`Audio.ClosestIsFirstNearest`).

## Model

| member | source | states |
|---|---|---|
| Wrappers.CollectOutcome | src/transcriber.py:107-113 | a loop that stops at the first exception succeeds iff every element succeeds, yields the values in order, and otherwise fails with the error of the first failing element |
| Wrappers.CollectStopsAtFailure | src/transcriber.py:107-113 | once the loop has failed, later elements do not change its result |
| Wrappers.CollectFirstFailure | transcribe.py:129-132 | when element j is the first to fail, the loop raises exactly j's error |
| Text.RStrip | src/transcriber.py:80 | `rstrip` keeps a prefix that does not end in white space and removes only white space |
| Text.RStripEmptyIffBlank | src/transcriber.py:80-81 | the stripped text is empty iff the text is blank, so `if stripped` skips exactly blank texts |
| Text.RStripIgnoresTrailingSpace | src/transcriber.py:80 | appending white space does not change what `rstrip` keeps |
| Text.WordCountZeroIffBlank | src/transcriber.py:68 | `len(text.split())` is zero iff the text is blank |
| Text.WordCountIgnoresTrailingSpace | src/transcriber.py:68 | trailing white space adds no word |
| Text.WordCountAppend | src/transcriber.py:68 | word counts add up across a white-space boundary |
| Text.WordCountExtendsWord | src/transcriber.py:68 | a non-space character after a word extends that word |
| Text.ConcatAppend | src/transcriber.py:39-40 | `"".join` of two token lists is the join of each, concatenated |
| Text.Decimal | src/transcriber.py:61-63 | `str(n)` is a non-empty numeral, one digit below 10, at most three below 1000 |
| Text.DecimalValue | src/transcriber.py:61-63 | the numeral reads back as the number |
| Text.Format03 | src/audio.py:106 | `{i:03d}` has at least three digits, exactly three below 1000 |
| Text.Format03Value | src/audio.py:106 | the padded numeral reads back as the index |
| Text.Format03Injective | src/audio.py:106 | different indices give different numerals |
| Text.QuoteFor | src/transcriber.py:30 | `repr` uses double quotes exactly when the string has a single quote and no double quote |
| Text.EscapeChar | src/transcriber.py:30 | a quote or backslash gets a backslash, tab, newline and return their short escapes, other ASCII controls `\xhh`; only an unescaped character stays one character long |
| Text.Repr | src/transcriber.py:30 | `repr(s)` starts and ends with the chosen quote and is at least two longer than `s` |
| Text.EscapeRoundTrip | src/transcriber.py:30 | the escaped characters read back as the original string |
| Text.EscapeAppend | src/transcriber.py:30 | escaping works character by character |
| Text.EscapePlain | src/transcriber.py:30 | characters other than the quote, the backslash and controls are written unchanged |
| Text.ReprPlain | src/transcriber.py:30 | a string without quotes, backslashes or controls is shown between single quotes as it is |
| Text.ReprSingleQuoted | src/transcriber.py:30 | a string with a single quote and nothing else to escape is shown between double quotes as it is |
| Text.ReprExample | src/transcriber.py:30 | `repr("talk")` is `'talk'` |
| Text.ReprApostropheExample | src/transcriber.py:30 | `repr("Don't")` is `"Don't"` |
| Text.ReprBackslashExample | src/transcriber.py:30 | a backslash is doubled |
| Text.ReprBothQuotesExample | src/transcriber.py:30 | with both quotes present, single quotes are used and the single quote is escaped |
| Paths.LastIndexOf | src/downloader.py:32 | `rfind`: the index of the last occurrence, with no occurrence after it, or -1 |
| Paths.Name | src/downloader.py:47-48 | `Path.name` contains no separator and is never `.` |
| Paths.NameOfChild | src/downloader.py:47-48 | the name of `dir/f` is `f` for a genuine component `f` |
| Paths.NameIgnoresTrailingSlash | src/downloader.py:47-48 | a trailing `/` does not change the name |
| Paths.NameOfPlain | src/downloader.py:47-48 | a single component other than empty and `.` is its own name |
| Paths.NameIgnoresTrailingDot | src/downloader.py:47-48 | a trailing `/.` does not change the name, since the `.` component is dropped |
| Paths.Stem | src/audio.py:78 | `Path.stem` is a prefix of the name |
| Paths.StemDropsSuffix | src/audio.py:78 | the stem of `s.ext` is `s` |
| Paths.StemOfPlain | src/audio.py:78 | a name without a dot is its own stem |
| Paths.StemOfHidden | src/audio.py:78 | a name whose only dot is its first character, such as `.mp3`, is its own stem |
| Paths.BaseNameExample | src/audio.py:78 | the stem of `downloads/talk.mp3` is `talk` |
| Paths.ChunkPathInjective | src/audio.py:106 | two chunk indices of one file never share a path |
| Paths.ChunkPathExample | src/audio.py:106 | chunk 7 of `talk` is `temp/talk_chunk_007.mp3` |
| Storage.FileStore.Export | src/audio.py:107 | exporting writes the chunk's audio at its path and changes nothing else |
| Storage.FileStore.Remove | src/audio.py:127-128 | `os.remove` succeeds iff the path exists and is not refused, and then removes only that path |
| Service.NoSuchFile | src/transcriber.py:30 | `str(e)` of the missing-file error is the fixed `[Errno 2]` text, then the path between the quotes `repr` chooses; the path reads back from what lies between them |
| Timeline.TilesTotalLength | src/audio.py:83-117 | chunks that tile a range add up to its length: no audio is lost or duplicated |
| Timeline.TilesOrdered | src/audio.py:83-117 | an earlier chunk ends no later than a later one starts |
| Timeline.TilesCoverOnce | src/audio.py:83-117 | every instant of the recording lies in exactly one chunk |
| Timeline.ExportedSnoc | src/audio.py:105-108 | exporting one more chunk writes its file on top of the earlier ones |
| Timeline.ExportChunk | src/audio.py:105-108 | one chunk's file is written on top of the earlier exports; `transcribe.py:80` calls it in the same way |
| Timeline.NamedDistinct | src/audio.py:106 | consecutively numbered chunks have distinct paths |
| Timeline.ExportedContents | src/audio.py:105-108 | after the exports, each chunk path holds audio of that chunk's length |
| Timeline.ExportedElsewhere | src/audio.py:105-108 | the exports add exactly the chunk paths and leave every other file unchanged |
| Audio.GetDurationMs | src/audio.py:19-25 | the duration is the decoded length; an undecodable or missing file raises `AudioProcessingError` |
| Audio.SearchWindow | src/audio.py:35-37 | the window is `[max(0, t - W), min(total, t + W)]` |
| Audio.ClosestIsFirstNearest | src/audio.py:51-60 | the chosen midpoint is a silence's, no midpoint is nearer the target, and every earlier silence is strictly farther |
| Audio.ClosestInSegment | src/audio.py:49-54 | silences inside the segment give a midpoint inside the segment |
| Audio.SilenceNear | src/audio.py:40-47 | no candidate iff the detector finds no silence in the window |
| Audio.SilenceNearInWindow | src/audio.py:35-54 | the chosen point lies inside the search window |
| Audio.FindSilenceNear | src/audio.py:28-60 | the scan returns the nearest-first midpoint of the window's silences, or None |
| Audio.CutAfter | src/audio.py:86-99 | every cut moves strictly forward and stays within the recording |
| Audio.ChooseCut | src/audio.py:86-99 | one loop step chooses the cut: the end, the nearest silence, or the hard target |
| Audio.PlanTiles | src/audio.py:83-117 | the chunks tile the recording from 0 to its end and are numbered and named consecutively |
| Audio.CutAfterRule | src/audio.py:86-99 | a cut at a silence or a hard cut keeps the chunk within the window of the target length; only the final chunk runs to the end |
| Audio.PlanCuts | src/audio.py:83-117 | every chunk of the split obeys that cut rule |
| Audio.ShortTrackPlan | src/audio.py:85-88 | a recording of at most one chunk length gives one chunk, or none when it is empty |
| Audio.SplitAudio | src/audio.py:63-120 | an undecodable file raises and writes nothing; otherwise the planned chunks are returned and exported |
| Audio.ExportChunks | src/audio.py:83-117 | the loop produces exactly the planned chunks and exports each one |
| Audio.CleanupFiles | src/audio.py:123-130 | every listed path is gone unless its removal is refused, unlisted files are untouched, and the call never fails |
| Transcriber.DelaysDouble | src/transcriber.py:51-52 | the delay after attempt n is `base * 2^(n-1)` |
| Transcriber.Answer | src/transcriber.py:36-45 | `None` and blank answers are `TranscriptionError`s; otherwise the joined tokens, never blank |
| Transcriber.RetryStopsAtFirstAnswer | src/transcriber.py:28-57 | the first attempt that does not raise decides the result, after that many attempts and the backoff delays before it |
| Transcriber.RetryExhausts | src/transcriber.py:28-63 | when every attempt raises, all attempts are made, all but the last are followed by a delay, and the error names the last exception |
| Transcriber.TranscribeFile | src/transcriber.py:20-63 | the loop yields the result, attempt count and sleeps of the retry policy |
| Transcriber.CheckTruncation | src/transcriber.py:66-85 | the word-count warning fires iff the ratio is below the threshold, the punctuation warning iff the stripped text ends open; at most one of each, word count first |
| Transcriber.DefaultLooksShort | src/transcriber.py:68-72 | with the shipped thresholds, the word-count warning fires iff there are fewer words than one per 800 ms |
| Transcriber.TruncationIgnoresTrailingSpace | src/transcriber.py:66-85 | trailing white space changes neither warning |
| Transcriber.ClosedTextNoPunctuationWarning | src/transcriber.py:79-85 | a text ending in `. ? ! " '` before trailing blanks draws no punctuation warning |
| Transcriber.MissingFileExhausts | src/transcriber.py:28-63 | a missing file fails every attempt at `open`, before any model call, and after all attempts ends in the exhaustion error naming that failure |
| Transcriber.HelloWorldExample | src/transcriber.py:36-45 | an immediate non-blank answer is returned after one attempt, with no sleep |
| Transcriber.BadAnswerExamples | src/transcriber.py:36-48 | blank and `None` answers fail after one attempt, without retrying |
| Transcriber.RecoversExample | src/transcriber.py:49-57 | a first-attempt exception is retried after 2 s, and the second answer is returned |
| Transcriber.ExhaustedMessage | src/transcriber.py:61-63 | the exhaustion message names three attempts and the last exception |
| Transcriber.DefaultDelays | src/transcriber.py:51-52 | the shipped waits are 2 s and then 4 s |
| Transcriber.PersistentFailureExample | src/transcriber.py:28-63 | a model that always raises is tried three times, with 2 s and 4 s waits between |
| Transcriber.OneWord | src/transcriber.py:68 | `word` and ` word` count one word |
| Transcriber.WordCountExamples | src/transcriber.py:66-77 | 750 words in 300 s draw no warning; 100 words draw the word-count warning |
| Transcriber.PunctuationExample | src/transcriber.py:79-85 | text that stops mid-sentence draws the punctuation warning |
| Transcriber.TranscriptsStopAtFailure | src/transcriber.py:107-113 | after the first failing chunk, no later chunk is read or transcribed |
| Transcriber.TranscriptsStep | src/transcriber.py:107-113 | one more chunk: an earlier failure stands; otherwise that chunk's result decides |
| Transcriber.TranscriptsResult | src/transcriber.py:107-113 | the chunk loop's result is the stop-at-first-failure loop over the chunks |
| Transcriber.ChunkedResult | src/transcriber.py:107-117 | the split branch succeeds iff every chunk does, joins the texts with blank lines, and otherwise raises the first failing chunk's error |
| Transcriber.ChunkDurations | src/transcriber.py:104-110 | chunk paths are distinct, and each chunk's duration reads back as its length, so reading it never fails |
| Transcriber.PipelineFiles | src/transcriber.py:93-117 | only refused chunk files survive, holding their chunk; every other file is as before; a short recording changes nothing |
| Transcriber.ChunkedTranscript | src/transcriber.py:107-117 | the split branch's result in terms of each chunk's retried transcription |
| Transcriber.PipelineTranscript | src/transcriber.py:88-117 | a long recording is transcribed iff every chunk is: the chunk texts in order, joined by blank lines, or else the first failing chunk's error |
| Transcriber.Transcribe | src/transcriber.py:88-117 | the method's result, warnings, sleeps and remaining files are those of the pipeline |
| Transcriber.TranscribeChunks | src/transcriber.py:107-113 | the chunk loop's texts, warnings and sleeps are those of the stop-at-first-failure specification |
| Legacy.CountBounds | transcribe.py:75 | the range visits index i iff `i * chunk_ms < len(audio)` |
| Legacy.FixedChunksTile | transcribe.py:66-86 | fixed chunks tile the recording, are non-empty, and are numbered and named consecutively |
| Legacy.FixedChunkPaths | transcribe.py:79 | chunk k goes to the k-th chunk path, and the paths are distinct |
| Legacy.FixedChunkLengths | transcribe.py:71-77 | every chunk is at most ten minutes, and every chunk but the last exactly ten |
| Legacy.TwentyFiveMinutesExample | transcribe.py:75-77 | 25 minutes give chunks of 10, 10 and 5 minutes |
| Legacy.SplitAudioFile | transcribe.py:66-86 | an undecodable file raises before anything is written; otherwise the fixed chunks are returned and exported |
| Legacy.ExportFixedChunks | transcribe.py:75-86 | the loop produces exactly the fixed chunks and exports each one |
| Legacy.TranscribeFile | transcribe.py:89-106 | one call: a missing file, `None` and exceptions raise; otherwise the joined tokens, blank or not |
| Legacy.AgreesWithRetryOnFirstAnswer | transcribe.py:89-106 | against the retrying version: the same text for a non-blank first answer; a blank first answer is accepted here and rejected there |
| Legacy.SweepOutcome | transcribe.py:136-140 | the `finally` raises iff some listed existing path is refused; it then raises for the first such path, having removed every listed path before it; it removes only listed paths, and all of them when it does not raise |
| Legacy.SweepFailure | transcribe.py:136-140 | a sweep that raises does so for the first listed existing refused path, with exactly the listed paths before it removed |
| Legacy.RemoveChunks | transcribe.py:136-140 | the method's error and remaining files are those of the sweep |
| Legacy.ChunkedOutcome | transcribe.py:125-140 | with no refused chunk, every chunk file is removed and the result is the chunk loop's texts joined with blank lines, or its error; with an existing refused chunk file the result is an `OSError` |
| Legacy.ChunkedTranscript | transcribe.py:127-134 | with no refused chunk, the branch succeeds iff every chunk's call does, joins the texts in order with blank lines, and otherwise raises the first failing chunk's error |
| Legacy.ChunkTexts | transcribe.py:127-134 | the same, stated chunk by chunk for exported chunks |
| Legacy.Transcribe | transcribe.py:109-140 | the method's result and remaining files are those of the pipeline |
| Legacy.TranscribeChunks | transcribe.py:129-132 | the chunk loop is the stop-at-first-failure loop over the chunk paths |
| Legacy.PipelineCleansUp | transcribe.py:109-140 | with no refused chunk, a long recording leaves exactly the original files minus the chunk paths |
| Legacy.PipelineTranscript | transcribe.py:109-134 | with no refused chunk, a long recording is transcribed iff every chunk's call succeeds: the chunk texts in order joined by blank lines, or else the first failing chunk's error |
| Legacy.PipelineRefusedRemoval | transcribe.py:136-140 | a refused chunk removal turns any outcome into an `OSError` for a refused path |
| Downloader.BeforeFirst | src/downloader.py:47 | `split(c)[0]` is the prefix before the first `c`, or everything when there is none |
| Downloader.BeforeFirstAppend | src/downloader.py:47 | text after the first separator does not matter |
| Downloader.UrlPath | src/downloader.py:47 | the URL path is a prefix of the URL, with no `?` or `#` |
| Downloader.UrlFilename | src/downloader.py:47-51 | the file name has a `.` and no `/`; it is the last path component, `.mp3` is added when that has no `.`, and the fallback name is used when there is no component |
| Downloader.DownloadDestination | src/downloader.py:53 | the destination lies directly in `temp/`: it starts with `temp/`, has no further separator, and its name is the derived file name |
| Downloader.QueryIgnored | src/downloader.py:47 | a query string does not change the file name |
| Downloader.FragmentIgnored | src/downloader.py:47 | a fragment does not change the file name |
| Downloader.LastComponentKept | src/downloader.py:47-51 | a URL ending in a genuine file name is saved under it, with `.mp3` added when it has no extension |
| Downloader.PodcastExample | src/downloader.py:47-53 | `https://example.com/podcast.mp3` goes to `temp/podcast.mp3` |
| Downloader.FallbackExample | src/downloader.py:48-51 | a URL whose path has no name once the query is removed (`/?…`) is saved as `audio_download.mp3` |
| Downloader.TrailingSlashIgnored | src/downloader.py:47-51 | a trailing `/` on a URL without query or fragment does not change the file name |
| Downloader.HostNameExample | src/downloader.py:47-51 | `https://example.com/` is saved as `example.com`: the host is the path's last component |
| Downloader.Mp3PathShape | src/downloader.py:32 | the result ends in `.mp3` and keeps everything before the last `.`, or the whole path when it has none |
| Downloader.Mp3PathIdempotent | src/downloader.py:32 | renaming an already renamed path changes nothing |
| Downloader.WebmExample | src/downloader.py:32 | `temp/Test Video.webm` becomes `temp/Test Video.mp3` |

## Left out

- Audio decoding, slicing and mp3 encoding (pydub and ffmpeg): a recording is its length in ms, and an exported chunk has exactly its nominal length.
- Audio.WellFormed: the silence detector is assumed to report only intervals inside the segment it was given. pydub guarantees this, and the split loop's termination needs it.
- Audio.SplitConfig.Valid: the split is modelled only when the silence window is narrower than a chunk. The shipped 30 s window and 300 s chunks satisfy this; with a wider window the Python loop could stop making progress.
- Service.NoSuchFile: a non-ASCII character that Python does not count as printable is shown as written; Python's `repr` would escape it. The Unicode printability table is not modelled. Every ASCII character is escaped as Python does.
- Paths.Stem: follows pathlib up to Python 3.13. From 3.14, a trailing dot counts as a suffix, so `Path("a.").stem` is `a` there.
- `MIN_SILENCE_MS` and `SILENCE_THRESH_DB` are the detector's business. They are not modelled.
- Floating-point durations: integer ms stands in for `len(audio) / 1000.0`. The comparison `duration <= MAX_CHUNK_SECONDS` is exact on whole milliseconds. The truncation ratio is computed over exact reals.
- The text of exceptions from the audio decoder (the `{e}` part of the messages) is left out: the model keeps only the error kind and the fixed message prefix.
- Legacy decode failures raise pydub's own exception. The model writes this as `DecodeFailure(path)`.
- The remote model: it is an oracle, a function of path and attempt number, so the model captures neither nondeterminism between calls nor the model identifier and temperature sent.
- `time.sleep`: not performed. The delays are returned in order instead.
- Logging (`logger.*`, `print`): not modelled, except the truncation warnings, which are returned as values.
- Failures of `chunk.export` (disk full, permissions): export always succeeds in the model.
- If `split_audio` raised partway, chunks already exported would be left on disk (the `try` starts after the split). Since the model's exports cannot fail, this case does not arise in it.
- `transcribe.py`: `setup`, `is_youtube_url`, `download_from_youtube` (its file-name step is modelled from the identical line of `src/downloader.py`), `save_transcript` and `main` do file, network or console I/O and are not part of this model.
- `src/downloader.py`: the network transfer, the HTTP status check, the content-type warning and the YouTube extraction are not modelled. Only the file-name derivations at lines 32 and 47-53 are.
- `src/cli.py`, `src/utils.py` and `src/config.py` are not part of this model, except the configuration constants the core reads: `DefaultSplit`, `DefaultRetry`, `DefaultTruncation`, `TempDir`.
- Concurrency: none in the source, none in the model.
