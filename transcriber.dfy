/**
 * Transcription with retries, truncation warnings, and the whole-file pipeline
 * that splits long recordings into chunks (src/transcriber.py).
 *
 * The remote model is an oracle parameter; `time.sleep` is not performed but
 * recorded: every method returns the delays it would have slept, in order.
 */
module Transcriber {
  import opened Wrappers
  import opened Errors
  import opened Text
  import opened Storage
  import opened Timeline
  import opened Audio
  import opened Service
  import opened Paths

  /** `MAX_RETRIES` and `RETRY_BASE_DELAY` (seconds). */
  datatype RetryConfig = RetryConfig(maxRetries: nat, baseDelaySeconds: nat)

  /** The shipped retry policy: three attempts, waiting 2 s and then 4 s between them. */
  const DefaultRetry: RetryConfig := RetryConfig(3, 2)

  /** `2 ** n`. */
  function Pow2(n: nat): (p: nat)
    ensures p >= 1
  {
    if n == 0 then 1 else 2 * Pow2(n - 1)
  }

  /** The delay after failed attempt `attempt`: `RETRY_BASE_DELAY * 2 ** (attempt - 1)`. */
  function Backoff(cfg: RetryConfig, attempt: nat): nat
    requires attempt >= 1
  {
    cfg.baseDelaySeconds * Pow2(attempt - 1)
  }

  /** The delays slept after the failed attempts `from`, `from + 1`, ..., `to - 1`. */
  function Delays(cfg: RetryConfig, from: nat, to: nat): (ds: seq<nat>)
    requires 1 <= from <= to
    ensures |ds| == to - from
    decreases (to as int) - (from as int)
  {
    if from == to then [] else [Backoff(cfg, from)] + Delays(cfg, from + 1, to)
  }

  /** The delays double from one failed attempt to the next, starting from the base delay. */
  lemma {:induction false} DelaysDouble(cfg: RetryConfig, from: nat, to: nat)
    requires 1 <= from <= to
    ensures forall k :: 0 <= k < to - from ==> (Delays(cfg, from, to)[k] == cfg.baseDelaySeconds * Pow2(from - 1 + k))
    decreases (to as int) - (from as int)
  {
    if from < to {
      DelaysDouble(cfg, from + 1, to);
      var ds := Delays(cfg, from, to);
      forall k | 0 <= k < to - from ensures ds[k] == cfg.baseDelaySeconds * Pow2(from - 1 + k) {
        if k > 0 {
          assert ds[k] == Delays(cfg, from + 1, to)[k - 1];
          assert from + 1 - 1 + (k - 1) == from - 1 + k;
        }
      }
    }
  }

  /**
   * The result of `_transcribe_file`, the number of attempts made and the delays
   * slept between them. An attempt opens the file and, when that succeeds, calls
   * the model; an attempt whose `open` raises counts although no call was made.
   */
  datatype Run = Run(result: Result<string, Error>, attempts: nat, sleeps: seq<nat>)

  /**
   * What an answer that is not an exception amounts to: `None` and a blank
   * transcription are errors that are not retried; anything else is the text.
   */
  function Answer(o: Outcome): (r: Result<string, Error>)
    requires !o.Threw?
    ensures o.NoOutput? ==> r == Failure(TranscriptionError("API returned no response"))
    ensures o.Tokens? && IsBlank(Concat(o.tokens)) ==> r == Failure(TranscriptionError("API returned empty transcription"))
    ensures o.Tokens? && !IsBlank(Concat(o.tokens)) ==> r == Success(Concat(o.tokens))
    ensures r.Success? ==> !IsBlank(r.value)
  {
    match o
    case NoOutput => Failure(TranscriptionError("API returned no response"))
    case Tokens(tokens) =>
      var text := Concat(tokens);
      if IsBlank(text) then Failure(TranscriptionError("API returned empty transcription")) else Success(text)
  }

  /** The error raised once every attempt has failed; `last` is the last exception, if any. */
  function Exhausted(maxRetries: nat, last: Option<string>): Error
  {
    TranscriptionError("Transcription failed after " + Decimal(maxRetries) + " attempts: " +
                       (match last case Some(cause) => cause case None => "None"))
  }

  /**
   * The retry loop of `_transcribe_file` from attempt `attempt` on, `last` being
   * the exception of the previous attempt.
   */
  function Retry(files: map<string, Blob>, remote: Remote, path: string, cfg: RetryConfig,
                 attempt: nat, last: Option<string>): Run
    requires attempt >= 1
    decreases cfg.maxRetries + 1 - attempt
  {
    if attempt > cfg.maxRetries then Run(Failure(Exhausted(cfg.maxRetries, last)), 0, [])
    else
      match Call(files, remote, path, attempt)
      case Threw(cause) =>
        var rest := Retry(files, remote, path, cfg, attempt + 1, Some(cause));
        var pause := if attempt < cfg.maxRetries then [Backoff(cfg, attempt)] else [];
        Run(rest.result, rest.attempts + 1, pause + rest.sleeps)
      case o => Run(Answer(o), 1, [])
  }

  /**
   * When attempt `j` is the first one from `attempt` on that does not raise, its
   * answer is the result, `j - attempt + 1` attempts were made, and the backoff
   * delays of the attempts before `j` were slept.
   */
  lemma {:induction false} RetryStopsAtFirstAnswer(files: map<string, Blob>, remote: Remote, path: string,
                                                   cfg: RetryConfig, attempt: nat, last: Option<string>, j: nat)
    requires 1 <= attempt <= j <= cfg.maxRetries
    requires forall k :: attempt <= k < j ==> Call(files, remote, path, k).Threw?
    requires !Call(files, remote, path, j).Threw?
    ensures var run := Retry(files, remote, path, cfg, attempt, last);
      && run.result == Answer(Call(files, remote, path, j))
      && run.attempts == j - attempt + 1
      && run.sleeps == Delays(cfg, attempt, j)
    decreases j - attempt
  {
    if attempt < j {
      var cause := Call(files, remote, path, attempt).cause;
      RetryStopsAtFirstAnswer(files, remote, path, cfg, attempt + 1, Some(cause), j);
    }
  }

  /**
   * When every attempt from `attempt` on raises, the result is the exhaustion
   * error carrying the last exception, every remaining attempt was made, and
   * the delays after all but the final attempt were slept.
   */
  lemma {:induction false} RetryExhausts(files: map<string, Blob>, remote: Remote, path: string,
                                         cfg: RetryConfig, attempt: nat, last: Option<string>)
    requires 1 <= attempt <= cfg.maxRetries + 1
    requires forall k :: attempt <= k <= cfg.maxRetries ==> Call(files, remote, path, k).Threw?
    ensures var run := Retry(files, remote, path, cfg, attempt, last);
      var lastCause := if attempt <= cfg.maxRetries then Some(Call(files, remote, path, cfg.maxRetries).cause) else last;
      && run.result == Failure(Exhausted(cfg.maxRetries, lastCause))
      && run.attempts == cfg.maxRetries + 1 - attempt
      && run.sleeps == (if attempt <= cfg.maxRetries then Delays(cfg, attempt, cfg.maxRetries) else [])
    decreases cfg.maxRetries + 1 - attempt
  {
    if attempt <= cfg.maxRetries {
      var cause := Call(files, remote, path, attempt).cause;
      RetryExhausts(files, remote, path, cfg, attempt + 1, Some(cause));
    }
  }

  /**
   * `_transcribe_file`: up to `MAX_RETRIES` attempts; `None` and blank answers
   * fail at once, exceptions are retried after an exponentially growing delay.
   */
  method TranscribeFile(disk: FileStore, path: string, remote: Remote, cfg: RetryConfig)
    returns (r: Result<string, Error>, attempts: nat, sleeps: seq<nat>)
    ensures Run(r, attempts, sleeps) == Retry(disk.files, remote, path, cfg, 1, None)
  {
    var lastErr: Option<string> := None;
    attempts, sleeps := 0, [];
    var attempt := 1;
    while attempt <= cfg.maxRetries
      invariant 1 <= attempt <= cfg.maxRetries + 1
      invariant var rest := Retry(disk.files, remote, path, cfg, attempt, lastErr);
        Retry(disk.files, remote, path, cfg, 1, None) == Run(rest.result, attempts + rest.attempts, sleeps + rest.sleeps)
      decreases cfg.maxRetries + 1 - attempt
    {
      var output := Call(disk.files, remote, path, attempt);
      attempts := attempts + 1;
      match output {
        case NoOutput =>
          return Failure(TranscriptionError("API returned no response")), attempts, sleeps;
        case Tokens(tokens) =>
          var text := Concat(tokens);
          if IsBlank(text) {
            return Failure(TranscriptionError("API returned empty transcription")), attempts, sleeps;
          }
          return Success(text), attempts, sleeps;
        case Threw(cause) =>
          ghost var rest := Retry(disk.files, remote, path, cfg, attempt + 1, Some(cause));
          lastErr := Some(cause);
          if attempt < cfg.maxRetries {
            assert sleeps + ([Backoff(cfg, attempt)] + rest.sleeps) == (sleeps + [Backoff(cfg, attempt)]) + rest.sleeps;
            sleeps := sleeps + [Backoff(cfg, attempt)];
          } else {
            assert sleeps + ([] + rest.sleeps) == sleeps + rest.sleeps;
          }
          attempt := attempt + 1;
      }
    }
    r := Failure(Exhausted(cfg.maxRetries, lastErr));
    assert sleeps + [] == sleeps;
  }

  /** `TRUNCATION_WARN_RATIO` and `EXPECTED_WORDS_PER_SECOND`. */
  datatype TruncationConfig = TruncationConfig(warnRatio: real, expectedWordsPerSecond: real)

  /** The shipped thresholds: warn below half of 2.5 words per second. */
  const DefaultTruncation: TruncationConfig := TruncationConfig(0.5, 2.5)

  /** A warning logged by `_check_truncation`; chunk indices are 0-based here, 1-based in the log. */
  datatype Warning =
    | LowWordCount(chunkIndex: nat, words: nat)
    | NoTerminalPunctuation(chunkIndex: nat)

  /** `word_count / expected_words`, or 1.0 when no words are expected. */
  function WordRatio(words: nat, durationMs: nat, cfg: TruncationConfig): real
  {
    var expected := durationMs as real / 1000.0 * cfg.expectedWordsPerSecond;
    if expected > 0.0 then words as real / expected else 1.0
  }

  /** The text has fewer words than the warn ratio of the words expected for its duration. */
  predicate LooksShort(text: string, durationMs: nat, cfg: TruncationConfig)
  {
    WordRatio(WordCount(text), durationMs, cfg) < cfg.warnRatio
  }

  /** The characters accepted as the end of a sentence. */
  const TerminalPunctuation: set<char> := {'.', '?', '!', '"', '\''}

  /** The text, trailing white space removed, is non-empty and does not end a sentence. */
  predicate EndsOpen(text: string)
  {
    var stripped := RStrip(text);
    stripped != [] && stripped[|stripped| - 1] !in TerminalPunctuation
  }

  /** `_check_truncation`: the two independent warnings, word count first. */
  function CheckTruncation(text: string, durationMs: nat, chunkIndex: nat, cfg: TruncationConfig): (ws: seq<Warning>)
    ensures LowWordCount(chunkIndex, WordCount(text)) in ws <==> LooksShort(text, durationMs, cfg)
    ensures NoTerminalPunctuation(chunkIndex) in ws <==> EndsOpen(text)
    ensures forall w :: w in ws ==> w.chunkIndex == chunkIndex
    ensures forall w :: w in ws && w.LowWordCount? ==> w.words == WordCount(text)
    ensures |ws| <= 2 && (|ws| == 2 ==> ws[0].LowWordCount? && ws[1].NoTerminalPunctuation?)
  {
    (if LooksShort(text, durationMs, cfg) then [LowWordCount(chunkIndex, WordCount(text))] else []) +
    (if EndsOpen(text) then [NoTerminalPunctuation(chunkIndex)] else [])
  }

  /** For a positive denominator, a quotient is below `r` exactly when the numerator is below `r` times it. */
  lemma RatioBelow(x: real, e: real, r: real)
    requires e > 0.0
    ensures x / e < r <==> x < r * e
  {
    var q := x / e;
    assert q * e == x;
    if q < r {
      assert q * e < r * e;
    } else {
      assert q * e >= r * e;
    }
  }

  /**
   * With the shipped thresholds the word-count warning fires exactly when the
   * text has fewer than one word per 800 ms of audio.
   */
  lemma DefaultLooksShort(text: string, durationMs: nat)
    ensures LooksShort(text, durationMs, DefaultTruncation) <==> 800 * WordCount(text) < durationMs
  {
    var words := WordCount(text) as real;
    var expected := durationMs as real / 1000.0 * 2.5;
    if durationMs > 0 {
      assert expected == durationMs as real / 400.0;
      RatioBelow(words, expected, 0.5);
    }
  }

  /** Trailing white space changes neither warning. */
  lemma TruncationIgnoresTrailingSpace(text: string, w: string, durationMs: nat, chunkIndex: nat, cfg: TruncationConfig)
    requires IsBlank(w)
    ensures CheckTruncation(text + w, durationMs, chunkIndex, cfg) == CheckTruncation(text, durationMs, chunkIndex, cfg)
  {
    WordCountIgnoresTrailingSpace(text, w);
    RStripIgnoresTrailingSpace(text, w);
  }

  /** A text whose last non-blank character ends a sentence never draws the punctuation warning. */
  lemma ClosedTextNoPunctuationWarning(text: string, c: char, w: string, durationMs: nat, chunkIndex: nat, cfg: TruncationConfig)
    requires c in TerminalPunctuation && IsBlank(w)
    ensures NoTerminalPunctuation(chunkIndex) !in CheckTruncation(text + [c] + w, durationMs, chunkIndex, cfg)
  {
    RStripIgnoresTrailingSpace(text + [c], w);
    assert !IsSpace(c);
  }

  /** A missing file fails every attempt at `open`, so the retries run out on that error. */
  lemma MissingFileExhausts(files: map<string, Blob>, remote: Remote, path: string, cfg: RetryConfig)
    requires path !in files && cfg.maxRetries >= 1
    ensures var run := Retry(files, remote, path, cfg, 1, None);
      && run.result == Failure(Exhausted(cfg.maxRetries, Some(NoSuchFile(path))))
      && run.attempts == cfg.maxRetries
  {
    RetryExhausts(files, remote, path, cfg, 1, None);
  }

  /** The model answers at once with the tokens "Hello " and "world.": the text is returned after one call. */
  lemma HelloWorldExample(files: map<string, Blob>, path: string)
    requires path in files
    ensures Retry(files, (p, n) => Tokens(["Hello ", "world."]), path, DefaultRetry, 1, None)
         == Run(Success("Hello world."), 1, [])
  {
    assert Concat(["Hello ", "world."]) == "Hello world.";
    assert !IsSpace("Hello world."[0]);
  }

  /** A blank answer and a missing answer are reported after a single call, without retrying. */
  lemma BadAnswerExamples(files: map<string, Blob>, path: string)
    requires path in files
    ensures Retry(files, (p, n) => Tokens([""]), path, DefaultRetry, 1, None)
         == Run(Failure(TranscriptionError("API returned empty transcription")), 1, [])
    ensures Retry(files, (p, n) => NoOutput, path, DefaultRetry, 1, None)
         == Run(Failure(TranscriptionError("API returned no response")), 1, [])
  {
    assert Concat([""]) == "";
  }

  /** A network error on the first attempt is retried after 2 s, and the second answer is returned. */
  lemma RecoversExample(files: map<string, Blob>, path: string)
    requires path in files
    ensures var remote: Remote := (p, n) => if n == 1 then Threw("network blip") else Tokens(["Recovered ", "text."]);
      Retry(files, remote, path, DefaultRetry, 1, None) == Run(Success("Recovered text."), 2, [2])
  {
    var remote: Remote := (p, n) => if n == 1 then Threw("network blip") else Tokens(["Recovered ", "text."]);
    assert Concat(["Recovered ", "text."]) == "Recovered text.";
    assert !IsSpace("Recovered text."[0]);
    RetryStopsAtFirstAnswer(files, remote, path, DefaultRetry, 1, None, 2);
    assert Delays(DefaultRetry, 1, 2) == [Backoff(DefaultRetry, 1)] + Delays(DefaultRetry, 2, 2);
  }

  /** With the shipped policy the exhaustion message names three attempts. */
  lemma ExhaustedMessage(cause: string)
    ensures Exhausted(3, Some(cause)) == TranscriptionError("Transcription failed after 3 attempts: " + cause)
  {
    assert Decimal(3) == "3";
    assert "Transcription failed after " + "3" + " attempts: " == "Transcription failed after 3 attempts: ";
  }

  /** With the shipped policy the waits after the first two failures are 2 s and 4 s. */
  lemma DefaultDelays()
    ensures Delays(DefaultRetry, 1, 3) == [2, 4]
  {
    assert Pow2(1) == 2;
    assert Delays(DefaultRetry, 2, 3) == [Backoff(DefaultRetry, 2)] + Delays(DefaultRetry, 3, 3);
  }

  /**
   * A persistent failure is tried three times, waiting 2 s and 4 s, and then
   * reported with its own message (see `ExhaustedMessage` for the text).
   */
  lemma PersistentFailureExample(files: map<string, Blob>, remote: Remote, path: string)
    requires path in files
    requires forall n :: remote(path, n) == Threw("persistent failure")
    ensures Retry(files, remote, path, DefaultRetry, 1, None)
         == Run(Failure(Exhausted(3, Some("persistent failure"))), 3, [2, 4])
  {
    RetryExhausts(files, remote, path, DefaultRetry, 1, None);
    DefaultDelays();
  }

  /** `" ".join(["word"] * n)`. */
  function Words(n: nat): string
  {
    Join(" ", seq(n, _ => "word"))
  }

  lemma {:induction false} WordsCount(n: nat)
    ensures WordCount(Words(n)) == n
    ensures n >= 1 ==> Words(n)[|Words(n)| - 1] == 'd'
  {
    if n == 1 {
      assert Words(1) == "word";
      OneWord();
    } else if n > 1 {
      var parts := seq(n, _ => "word");
      assert parts[..n - 1] == seq(n - 1, _ => "word");
      WordsCount(n - 1);
      assert Words(n) == Words(n - 1) + " word";
      WordCountAppend(Words(n - 1), " word");
      OneWord();
    }
  }

  lemma OneWord()
    ensures WordCount("word") == 1 && WordCount(" word") == 1
  {
    assert WordCount("w") == 1 by { assert "w"[..0] == ""; }
    WordCountExtendsWord("w", 'o');
    assert "w" + ['o'] == "wo";
    WordCountExtendsWord("wo", 'r');
    assert "wo" + ['r'] == "wor";
    WordCountExtendsWord("wor", 'd');
    assert "wor" + ['d'] == "word";
    assert WordCount(" ") == 0 by { assert " "[..0] == ""; }
    assert WordCount(" w") == 1 by { assert " w"[..1] == " "; }
    WordCountExtendsWord(" w", 'o');
    assert " w" + ['o'] == " wo";
    WordCountExtendsWord(" wo", 'r');
    assert " wo" + ['r'] == " wor";
    WordCountExtendsWord(" wor", 'd');
    assert " wor" + ['d'] == " word";
  }

  /** A 300 s chunk with 750 words ending in a full stop draws no warning; with 100 words it draws the word-count warning. */
  lemma WordCountExamples()
    ensures CheckTruncation(Words(750) + ".", 300_000, 0, DefaultTruncation) == []
    ensures CheckTruncation(Words(100) + ".", 300_000, 0, DefaultTruncation) == [LowWordCount(0, 100)]
  {
    WordsCount(750);
    WordCountExtendsWord(Words(750), '.');
    DefaultLooksShort(Words(750) + ".", 300_000);
    WordsCount(100);
    WordCountExtendsWord(Words(100), '.');
    DefaultLooksShort(Words(100) + ".", 300_000);
  }

  /** Text that stops mid-sentence draws the punctuation warning. */
  lemma PunctuationExample()
    ensures NoTerminalPunctuation(0) in CheckTruncation("This sentence has no ending", 60_000, 0, DefaultTruncation)
  {
    assert RStrip("This sentence has no ending") == "This sentence has no ending";
  }

  /** All settings of the pipeline: splitting, retrying and truncation warnings. */
  datatype Config = Config(split: SplitConfig, retry: RetryConfig, truncation: TruncationConfig)

  const DefaultConfig: Config := Config(DefaultSplit, DefaultRetry, DefaultTruncation)

  /** What the pipeline has produced so far: the texts or the error, the warnings, the delays slept. */
  datatype Progress = Progress(result: Result<seq<string>, Error>, warnings: seq<Warning>, sleeps: seq<nat>)

  /** One chunk file on its own: its duration is read, then it is transcribed. */
  function ChunkText(files: map<string, Blob>, remote: Remote, cfg: Config, path: string): Result<string, Error>
  {
    match GetDurationMs(files, path)
    case Failure(e) => Failure(e)
    case Success(_) => Retry(files, remote, path, cfg.retry, 1, None).result
  }

  /**
   * The chunk loop of `transcribe` over `paths`: each chunk's duration is read,
   * the chunk is transcribed and checked; the first error stops the loop.
   */
  function Transcripts(files: map<string, Blob>, remote: Remote, cfg: Config, paths: seq<string>): Progress
  {
    if paths == [] then Progress(Success([]), [], [])
    else
      var prev := Transcripts(files, remote, cfg, paths[..|paths| - 1]);
      var path := paths[|paths| - 1];
      if prev.result.Failure? then prev
      else match GetDurationMs(files, path)
        case Failure(e) => Progress(Failure(e), prev.warnings, prev.sleeps)
        case Success(ms) =>
          var run := Retry(files, remote, path, cfg.retry, 1, None);
          match run.result
          case Failure(e) => Progress(Failure(e), prev.warnings, prev.sleeps + run.sleeps)
          case Success(text) =>
            Progress(Success(prev.result.value + [text]),
                     prev.warnings + CheckTruncation(text, ms, |paths| - 1, cfg.truncation),
                     prev.sleeps + run.sleeps)
  }

  /** Once the chunk loop has failed, the chunks after the failing one are not touched. */
  lemma {:induction false} TranscriptsStopAtFailure(files: map<string, Blob>, remote: Remote, cfg: Config,
                                                    paths: seq<string>, i: nat)
    requires i <= |paths| && Transcripts(files, remote, cfg, paths[..i]).result.Failure?
    ensures Transcripts(files, remote, cfg, paths) == Transcripts(files, remote, cfg, paths[..i])
    decreases |paths| - i
  {
    if i < |paths| {
      var init := paths[..|paths| - 1];
      assert init[..i] == paths[..i];
      TranscriptsStopAtFailure(files, remote, cfg, init, i);
    } else {
      assert paths[..i] == paths;
    }
  }

  /** One more chunk: a failure so far stands; otherwise the chunk's own result decides. */
  lemma TranscriptsStep(files: map<string, Blob>, remote: Remote, cfg: Config, paths: seq<string>)
    requires paths != []
    ensures var prev := Transcripts(files, remote, cfg, paths[..|paths| - 1]).result;
      var last := ChunkText(files, remote, cfg, paths[|paths| - 1]);
      var r := Transcripts(files, remote, cfg, paths).result;
      && (prev.Failure? ==> r == prev)
      && (prev.Success? && last.Failure? ==> r == Failure(last.error))
      && (prev.Success? && last.Success? ==> r == Success(prev.value + [last.value]))
  {
  }

  /** A chunk's text as a function of its path, for a fixed file system, model and configuration. */
  function ChunkTextOn(files: map<string, Blob>, remote: Remote, cfg: Config): string -> Result<string, Error>
  {
    path => ChunkText(files, remote, cfg, path)
  }

  /**
   * The texts of the chunk loop are those of the chunks taken one by one, in
   * order, up to the first chunk that fails, whose error ends the loop.
   */
  lemma {:induction false} TranscriptsResult(files: map<string, Blob>, remote: Remote, cfg: Config, paths: seq<string>)
    ensures Transcripts(files, remote, cfg, paths).result == Collect(ChunkTextOn(files, remote, cfg), paths)
  {
    if paths != [] {
      var init := paths[..|paths| - 1];
      TranscriptsResult(files, remote, cfg, init);
      TranscriptsStep(files, remote, cfg, paths);
    }
  }

  /** What `transcribe` reports, and the files it leaves behind. */
  datatype Report = Report(result: Result<string, Error>, warnings: seq<Warning>, sleeps: seq<nat>,
                           files: map<string, Blob>)

  /** The paragraph separator of the joined transcript. */
  const Separator: string := "\n\n"

  /**
   * `transcribe`: a recording up to one chunk long is transcribed directly;
   * a longer one is split, its chunks are transcribed in order and joined with
   * blank lines, and the chunk files are removed whether or not that succeeded.
   */
  function Pipeline(files: map<string, Blob>, refused: set<string>, audioPath: string,
                    detect: Detector, remote: Remote, cfg: Config): Report
    requires cfg.split.Valid() && WellFormed(detect)
  {
    match GetDurationMs(files, audioPath)
    case Failure(e) => Report(Failure(e), [], [], files)
    case Success(ms) =>
      if ms <= cfg.split.ChunkTargetMs() then
        var run := Retry(files, remote, audioPath, cfg.retry, 1, None);
        match run.result
        case Failure(e) => Report(Failure(e), [], run.sleeps, files)
        case Success(text) => Report(Success(text), CheckTruncation(text, ms, 0, cfg.truncation), run.sleeps, files)
      else
        var cs := Plan(ms, 0, 0, BaseName(audioPath), cfg.split, detect);
        Chunked(Exported(files, cs), refused, remote, cfg, PathsOf(cs))
  }

  /**
   * The split branch of `transcribe` once the chunk files exist: the chunk loop,
   * the texts joined with blank lines, and `cleanup_files` in the `finally`.
   */
  function Chunked(exported: map<string, Blob>, refused: set<string>, remote: Remote, cfg: Config,
                   paths: seq<string>): Report
  {
    var progress := Transcripts(exported, remote, cfg, paths);
    var result := match progress.result
      case Failure(e) => Failure(e)
      case Success(texts) => Success(Join(Separator, texts));
    Report(result, progress.warnings, progress.sleeps, Removed(exported, paths, refused))
  }

  /**
   * The split branch succeeds exactly when every chunk does, with the chunk
   * texts joined in order; otherwise it fails with the first failing chunk's error.
   */
  lemma ChunkedResult(exported: map<string, Blob>, refused: set<string>, remote: Remote, cfg: Config, paths: seq<string>)
    ensures var r := Chunked(exported, refused, remote, cfg, paths).result;
      var f := ChunkTextOn(exported, remote, cfg);
      && (r.Success? <==> forall k :: 0 <= k < |paths| ==> f(paths[k]).Success?)
      && (r.Success? ==> exists texts: seq<string> ::
            && |texts| == |paths|
            && (forall k :: 0 <= k < |paths| ==> f(paths[k]) == Success(texts[k]))
            && r.value == Join(Separator, texts))
      && (forall j :: FirstFailure(f, paths, j) ==> r == Failure(f(paths[j]).error))
  {
    var f := ChunkTextOn(exported, remote, cfg);
    var r := Chunked(exported, refused, remote, cfg, paths).result;
    TranscriptsResult(exported, remote, cfg, paths);
    CollectOutcome(f, paths);
    if r.Success? {
      var texts := Collect(f, paths).value;
      assert forall k :: 0 <= k < |paths| ==> f(paths[k]) == Success(texts[k]);
    }
    forall j | FirstFailure(f, paths, j) ensures r == Failure(f(paths[j]).error) {
      CollectFirstFailure(f, paths, j);
    }
  }

  /** The recording is longer than one chunk, so `transcribe` splits it. */
  predicate IsLong(files: map<string, Blob>, audioPath: string, cfg: Config)
  {
    Decode(files, audioPath).Some? && Decode(files, audioPath).value > cfg.split.ChunkTargetMs()
  }

  /** The chunks `transcribe` cuts a long recording into. */
  function ChunksOf(files: map<string, Blob>, audioPath: string, detect: Detector, cfg: Config): seq<Chunk>
    requires IsLong(files, audioPath, cfg) && cfg.split.Valid() && WellFormed(detect)
  {
    Plan(Decode(files, audioPath).value, 0, 0, BaseName(audioPath), cfg.split, detect)
  }

  /**
   * The chunks of a long recording have distinct paths, and each one's duration
   * reads back from its exported file as the chunk's length: reading a chunk's
   * duration never fails.
   */
  lemma ChunkDurations(files: map<string, Blob>, audioPath: string, detect: Detector, cfg: Config)
    requires IsLong(files, audioPath, cfg) && cfg.split.Valid() && WellFormed(detect)
    ensures var cs := ChunksOf(files, audioPath, detect, cfg);
      && DistinctPaths(cs)
      && forall k :: 0 <= k < |cs| ==> GetDurationMs(Exported(files, cs), cs[k].path) == Success(Length(cs[k]))
  {
    var cs := ChunksOf(files, audioPath, detect, cfg);
    PlanTiles(Decode(files, audioPath).value, 0, 0, BaseName(audioPath), cfg.split, detect);
    NamedDistinct(cs, 0, BaseName(audioPath));
    ExportedContents(files, cs);
  }

  /**
   * The files `transcribe` leaves: nothing it created survives unless its removal
   * was refused, and every file that is not a chunk file is as it was. A chunk
   * file survives only when its removal is refused, and then holds its chunk.
   */
  lemma PipelineFiles(files: map<string, Blob>, refused: set<string>, audioPath: string,
                      detect: Detector, remote: Remote, cfg: Config)
    requires cfg.split.Valid() && WellFormed(detect)
    ensures var left := Pipeline(files, refused, audioPath, detect, remote, cfg).files;
      && (forall p :: p in left ==> p in files || p in refused)
      && (!IsLong(files, audioPath, cfg) ==> left == files)
    ensures IsLong(files, audioPath, cfg) ==>
      var cs := ChunksOf(files, audioPath, detect, cfg);
      var left := Pipeline(files, refused, audioPath, detect, remote, cfg).files;
      && (forall k :: 0 <= k < |cs| && cs[k].path !in refused ==> cs[k].path !in left)
      && (forall k :: 0 <= k < |cs| && cs[k].path in refused ==>
            cs[k].path in left && left[cs[k].path] == Audio(Length(cs[k])))
      && (forall p :: p !in PathSet(cs) ==> (p in left <==> p in files))
      && (forall p :: p !in PathSet(cs) && p in files ==> left[p] == files[p])
  {
    if IsLong(files, audioPath, cfg) {
      var cs := ChunksOf(files, audioPath, detect, cfg);
      ChunkDurations(files, audioPath, detect, cfg);
      ExportedContents(files, cs);
      var exported := Exported(files, cs);
      var left := Pipeline(files, refused, audioPath, detect, remote, cfg).files;
      assert left == Removed(exported, PathsOf(cs), refused);
      PathsOfSet(cs);
      ExportedElsewhere(files, cs);
    }
  }

  /**
   * For exported chunks with distinct paths, each chunk's duration reads back,
   * so the split branch succeeds exactly when every chunk's transcription does,
   * joins the texts in chunk order, and otherwise fails with the error of the
   * first chunk whose transcription fails.
   */
  lemma ChunkedTranscript(files: map<string, Blob>, refused: set<string>, remote: Remote, cfg: Config, cs: seq<Chunk>)
    requires DistinctPaths(cs)
    ensures var exported := Exported(files, cs);
      var r := Chunked(exported, refused, remote, cfg, PathsOf(cs)).result;
      && (r.Success? <==> forall k :: 0 <= k < |cs| ==> Retry(exported, remote, cs[k].path, cfg.retry, 1, None).result.Success?)
      && (r.Success? ==> exists texts: seq<string> ::
            && |texts| == |cs|
            && (forall k :: 0 <= k < |cs| ==> Retry(exported, remote, cs[k].path, cfg.retry, 1, None).result == Success(texts[k]))
            && r.value == Join(Separator, texts))
      && (forall j :: 0 <= j < |cs| && Retry(exported, remote, cs[j].path, cfg.retry, 1, None).result.Failure? &&
            (forall k :: 0 <= k < j ==> Retry(exported, remote, cs[k].path, cfg.retry, 1, None).result.Success?)
            ==> r == Failure(Retry(exported, remote, cs[j].path, cfg.retry, 1, None).result.error))
  {
    var exported := Exported(files, cs);
    var paths := PathsOf(cs);
    var f := ChunkTextOn(exported, remote, cfg);
    ExportedContents(files, cs);
    assert forall k :: 0 <= k < |cs| ==> f(paths[k]) == Retry(exported, remote, cs[k].path, cfg.retry, 1, None).result;
    ChunkedResult(exported, refused, remote, cfg, paths);
    var r := Chunked(exported, refused, remote, cfg, paths).result;
    if r.Success? {
      var texts: seq<string> :| |texts| == |paths| && (forall k :: 0 <= k < |paths| ==> f(paths[k]) == Success(texts[k]))
                                && r.value == Join(Separator, texts);
      assert forall k :: 0 <= k < |cs| ==> Retry(exported, remote, cs[k].path, cfg.retry, 1, None).result == Success(texts[k]);
    }
    forall j | 0 <= j < |cs| && Retry(exported, remote, cs[j].path, cfg.retry, 1, None).result.Failure? &&
        (forall k :: 0 <= k < j ==> Retry(exported, remote, cs[k].path, cfg.retry, 1, None).result.Success?)
      ensures r == Failure(Retry(exported, remote, cs[j].path, cfg.retry, 1, None).result.error)
    {
      assert FirstFailure(f, paths, j);
    }
  }

  /**
   * A long recording is transcribed exactly when every chunk is, and the
   * transcript is then the chunk texts, in chunk order, joined by blank lines.
   * Otherwise the error is that of the first chunk whose transcription fails.
   */
  lemma PipelineTranscript(files: map<string, Blob>, refused: set<string>, audioPath: string,
                           detect: Detector, remote: Remote, cfg: Config)
    requires IsLong(files, audioPath, cfg) && cfg.split.Valid() && WellFormed(detect)
    ensures var cs := ChunksOf(files, audioPath, detect, cfg);
      var exported := Exported(files, cs);
      var r := Pipeline(files, refused, audioPath, detect, remote, cfg).result;
      && (r.Success? <==> forall k :: 0 <= k < |cs| ==> Retry(exported, remote, cs[k].path, cfg.retry, 1, None).result.Success?)
      && (r.Success? ==> exists texts: seq<string> ::
            && |texts| == |cs|
            && (forall k :: 0 <= k < |cs| ==> Retry(exported, remote, cs[k].path, cfg.retry, 1, None).result == Success(texts[k]))
            && r.value == Join(Separator, texts))
      && (forall j :: 0 <= j < |cs| && Retry(exported, remote, cs[j].path, cfg.retry, 1, None).result.Failure? &&
            (forall k :: 0 <= k < j ==> Retry(exported, remote, cs[k].path, cfg.retry, 1, None).result.Success?)
            ==> r == Failure(Retry(exported, remote, cs[j].path, cfg.retry, 1, None).result.error))
  {
    var cs := ChunksOf(files, audioPath, detect, cfg);
    assert Pipeline(files, refused, audioPath, detect, remote, cfg) == Chunked(Exported(files, cs), refused, remote, cfg, PathsOf(cs));
    ChunkDurations(files, audioPath, detect, cfg);
    ChunkedTranscript(files, refused, remote, cfg, cs);
  }

  /**
   * `transcribe` on the file system: returns the transcript or the error, the
   * warnings logged and the delays slept, and leaves the files `Pipeline` describes.
   */
  method Transcribe(disk: FileStore, audioPath: string, detect: Detector, remote: Remote, cfg: Config)
    returns (r: Result<string, Error>, warnings: seq<Warning>, sleeps: seq<nat>)
    requires cfg.split.Valid() && WellFormed(detect)
    modifies disk
    ensures Report(r, warnings, sleeps, disk.files) == Pipeline(old(disk.files), disk.refused, audioPath, detect, remote, cfg)
  {
    var duration := GetDurationMs(disk.files, audioPath);
    if duration.Failure? {
      return Failure(duration.error), [], [];
    }
    var ms := duration.value;
    if ms <= cfg.split.ChunkTargetMs() {
      var text, attempts;
      text, attempts, sleeps := TranscribeFile(disk, audioPath, remote, cfg.retry);
      if text.Failure? {
        return Failure(text.error), [], sleeps;
      }
      warnings := CheckTruncation(text.value, ms, 0, cfg.truncation);
      return Success(text.value), warnings, sleeps;
    }
    // The recording decoded a moment ago, so splitting it succeeds.
    var split := SplitAudio(disk, audioPath, cfg.split, detect);
    var chunkPaths := PathsOf(split.value);
    var transcriptions;
    transcriptions, warnings, sleeps := TranscribeChunks(disk, remote, cfg, chunkPaths);
    CleanupFiles(disk, chunkPaths);
    if transcriptions.Failure? {
      return Failure(transcriptions.error), warnings, sleeps;
    }
    return Success(Join(Separator, transcriptions.value)), warnings, sleeps;
  }

  /**
   * The `try` of the split branch of `transcribe`: for each chunk in order, read
   * its duration, transcribe it and check it, stopping at the first error.
   */
  method TranscribeChunks(disk: FileStore, remote: Remote, cfg: Config, chunkPaths: seq<string>)
    returns (transcriptions: Result<seq<string>, Error>, warnings: seq<Warning>, sleeps: seq<nat>)
    ensures Progress(transcriptions, warnings, sleeps) == Transcripts(disk.files, remote, cfg, chunkPaths)
  {
    var texts: seq<string> := [];
    warnings, sleeps := [], [];
    var i := 0;
    while i < |chunkPaths|
      invariant i <= |chunkPaths|
      invariant Transcripts(disk.files, remote, cfg, chunkPaths[..i]) == Progress(Success(texts), warnings, sleeps)
    {
      var chunkPath := chunkPaths[i];
      assert chunkPaths[..i + 1][..i] == chunkPaths[..i];
      var chunkDuration := GetDurationMs(disk.files, chunkPath);
      if chunkDuration.Failure? {
        transcriptions := Failure(chunkDuration.error);
        TranscriptsStopAtFailure(disk.files, remote, cfg, chunkPaths, i + 1);
        return;
      }
      var text, attempts, chunkSleeps := TranscribeFile(disk, chunkPath, remote, cfg.retry);
      sleeps := sleeps + chunkSleeps;
      if text.Failure? {
        transcriptions := Failure(text.error);
        TranscriptsStopAtFailure(disk.files, remote, cfg, chunkPaths, i + 1);
        return;
      }
      warnings := warnings + CheckTruncation(text.value, chunkDuration.value, i, cfg.truncation);
      texts := texts + [text.value];
      i := i + 1;
    }
    assert chunkPaths[..i] == chunkPaths;
    transcriptions := Success(texts);
  }
}
