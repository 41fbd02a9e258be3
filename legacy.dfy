/**
 * The original single-file tool: it cuts a long recording at fixed ten-minute
 * marks, calls the model once per file with no retry, accepts whatever text
 * comes back, and removes the chunk files in a `finally` whose own errors
 * propagate.
 */
module Legacy {
  import opened Wrappers
  import opened Errors
  import opened Text
  import opened Paths
  import opened Storage
  import opened Timeline
  import opened Service
  import Transcriber

  /** `MAX_CHUNK_SECONDS`: the longest file sent to the model in one call. */
  const MaxChunkSeconds: nat := 600

  /** `chunk_ms`, that is `MAX_CHUNK_SECONDS * 1000`: the fixed chunk length, in ms. */
  const ChunkMs: nat := 600_000

  /** `len(range(0, totalMs, chunk_ms))`: how many chunks a recording is cut into. */
  function ChunkCount(totalMs: nat): nat
  {
    (totalMs + ChunkMs - 1) / ChunkMs
  }

  /** Chunk `i` starts at a multiple of the chunk length and ends one chunk length later or at the end. */
  function FixedChunk(totalMs: nat, base: string, i: nat): Chunk
  {
    var start := i * ChunkMs;
    var end := if start + ChunkMs < totalMs then start + ChunkMs else totalMs;
    Chunk(i, start, end, ChunkPath(base, i))
  }

  /** The chunks `split_audio_file` exports for a recording of `totalMs` whose stem is `base`. */
  function FixedChunks(totalMs: nat, base: string): seq<Chunk>
  {
    seq(ChunkCount(totalMs), i requires 0 <= i => FixedChunk(totalMs, base, i))
  }

  /** The range visits index `i` exactly when `i` chunk lengths fall short of the recording. */
  lemma CountBounds(totalMs: nat, i: nat)
    ensures i < ChunkCount(totalMs) <==> i * ChunkMs < totalMs
  {
    var n := ChunkCount(totalMs);
    assert n * ChunkMs <= totalMs + ChunkMs - 1 < (n + 1) * ChunkMs;
    if i < n {
      assert i * ChunkMs <= (n - 1) * ChunkMs;
    } else {
      assert i * ChunkMs >= n * ChunkMs;
    }
  }

  /**
   * The fixed chunks cover the recording exactly, in order, with no empty chunk,
   * and are named `temp/<stem>_chunk_000.mp3`, `..._001.mp3`, ...
   */
  lemma FixedChunksTile(totalMs: nat, base: string)
    ensures Tiles(FixedChunks(totalMs, base), 0, totalMs)
    ensures Named(FixedChunks(totalMs, base), 0, base)
  {
    var cs := FixedChunks(totalMs, base);
    var n := |cs|;
    forall k | 0 <= k < n ensures cs[k].startMs < cs[k].endMs {
      CountBounds(totalMs, k);
    }
    forall k | 0 <= k < n - 1 ensures cs[k].endMs == cs[k + 1].startMs {
      CountBounds(totalMs, k + 1);
      assert (k + 1) * ChunkMs == k * ChunkMs + ChunkMs;
    }
    CountBounds(totalMs, 0);
    if n > 0 {
      CountBounds(totalMs, n);
      assert n * ChunkMs == (n - 1) * ChunkMs + ChunkMs;
    }
  }

  /** Chunk `k` is exported to the `k`-th chunk path, and no two chunks share a path. */
  lemma FixedChunkPaths(totalMs: nat, base: string)
    ensures var cs := FixedChunks(totalMs, base);
      && (forall k :: 0 <= k < |cs| ==> PathsOf(cs)[k] == ChunkPath(base, k))
      && DistinctPaths(cs)
  {
    FixedChunksTile(totalMs, base);
    NamedDistinct(FixedChunks(totalMs, base), 0, base);
  }

  /** Every chunk is at most ten minutes long, and every chunk but the last exactly ten minutes. */
  lemma FixedChunkLengths(totalMs: nat, base: string)
    ensures var cs := FixedChunks(totalMs, base);
      && (forall k :: 0 <= k < |cs| ==> Length(cs[k]) <= ChunkMs)
      && (forall k :: 0 <= k < |cs| - 1 ==> Length(cs[k]) == ChunkMs)
  {
    var cs := FixedChunks(totalMs, base);
    forall k | 0 <= k < |cs| ensures Length(cs[k]) <= ChunkMs {
      CountBounds(totalMs, k);
    }
    forall k | 0 <= k < |cs| - 1 ensures Length(cs[k]) == ChunkMs {
      CountBounds(totalMs, k + 1);
      assert (k + 1) * ChunkMs == k * ChunkMs + ChunkMs;
    }
  }

  /** A recording of 25 minutes is cut into two ten-minute chunks and a five-minute one. */
  lemma TwentyFiveMinutesExample(base: string)
    ensures var cs := FixedChunks(1500000, base);
      && |cs| == 3
      && cs[0].startMs == 0 && cs[0].endMs == 600000
      && cs[1].startMs == 600000 && cs[1].endMs == 1200000
      && cs[2].startMs == 1200000 && cs[2].endMs == 1500000
  {
  }

  /**
   * `split_audio_file`: decode the recording and export each fixed chunk to its
   * own file; a recording that does not decode raises before anything is written.
   */
  method SplitAudioFile(disk: FileStore, path: string) returns (r: Result<seq<Chunk>, Error>)
    modifies disk
    ensures match Decode(old(disk.files), path)
      case None => r == Failure(DecodeFailure(path)) && disk.files == old(disk.files)
      case Some(totalMs) =>
        && r == Success(FixedChunks(totalMs, BaseName(path)))
        && disk.files == Exported(old(disk.files), r.value)
  {
    var decoded := Decode(disk.files, path);
    if decoded.None? {
      return Failure(DecodeFailure(path));
    }
    var chunks := ExportFixedChunks(disk, decoded.value, BaseName(path));
    return Success(chunks);
  }

  /** The loop of `split_audio_file`: one chunk per step of the range, each exported in turn. */
  method ExportFixedChunks(disk: FileStore, totalMs: nat, base: string) returns (chunks: seq<Chunk>)
    modifies disk
    ensures chunks == FixedChunks(totalMs, base)
    ensures disk.files == Exported(old(disk.files), chunks)
  {
    ghost var before := disk.files;
    chunks := [];
    var start, i := 0, 0;
    while start < totalMs
      invariant start == i * ChunkMs && i <= ChunkCount(totalMs)
      invariant chunks == FixedChunks(totalMs, base)[..i]
      invariant disk.files == Exported(before, chunks)
      decreases totalMs - start
    {
      var end := if start + ChunkMs < totalMs then start + ChunkMs else totalMs;
      var chunk := Chunk(i, start, end, ChunkPath(base, i));
      assert chunk == FixedChunk(totalMs, base, i);
      CountBounds(totalMs, i);
      NextFixedChunk(totalMs, base, i);
      ExportChunk(disk, before, chunks, chunk);
      chunks := chunks + [chunk];
      start, i := start + ChunkMs, i + 1;
    }
    CountBounds(totalMs, i);
    assert FixedChunks(totalMs, base)[..i] == FixedChunks(totalMs, base);
  }

  /** One pass of the loop in `split_audio_file` takes the next fixed chunk after those taken so far. */
  lemma NextFixedChunk(totalMs: nat, base: string, i: nat)
    requires i < ChunkCount(totalMs)
    ensures FixedChunks(totalMs, base)[..i + 1] == FixedChunks(totalMs, base)[..i] + [FixedChunk(totalMs, base, i)]
  {
    var cs := FixedChunks(totalMs, base);
    PrefixSnoc(cs, i);
    assert cs[i] == FixedChunk(totalMs, base, i);
  }

  /** Taking one more element of a sequence appends that element to the prefix. */
  lemma PrefixSnoc<T>(s: seq<T>, i: nat)
    requires i < |s|
    ensures s[..i + 1] == s[..i] + [s[i]]
  {
    assert (s[..i] + [s[i]])[i] == s[i];
  }

  /**
   * `transcribe_file`: one call of the model, with no retry. A missing file,
   * a `None` response and any exception of the call all become an error; the
   * tokens are concatenated and returned as they are, blank or not.
   */
  function TranscribeFile(files: map<string, Blob>, remote: Remote, path: string): (r: Result<string, Error>)
    ensures path !in files ==> r == Failure(Exception(NoSuchFile(path)))
    ensures path in files ==> (r.Success? <==> remote(path, 1).Tokens?)
    ensures r.Success? ==> r.value == Concat(remote(path, 1).tokens)
    ensures path in files && remote(path, 1).NoOutput? ==> r == Failure(Exception("No response from API"))
    ensures path in files && remote(path, 1).Threw? ==> r == Failure(Exception(remote(path, 1).cause))
  {
    match Call(files, remote, path, 1)
    case NoOutput => Failure(Exception("No response from API"))
    case Threw(cause) => Failure(Exception(cause))
    case Tokens(tokens) => Success(Concat(tokens))
  }

  /**
   * Against the retrying transcriber: when the first call returns text that is
   * not blank, both give that text; when it returns blank text, this one accepts
   * it where the retrying one reports an empty transcription.
   */
  lemma AgreesWithRetryOnFirstAnswer(files: map<string, Blob>, remote: Remote, path: string, cfg: Transcriber.RetryConfig)
    requires cfg.maxRetries >= 1 && path in files && remote(path, 1).Tokens?
    ensures var retried := Transcriber.Retry(files, remote, path, cfg, 1, None).result;
      var text := Concat(remote(path, 1).tokens);
      && TranscribeFile(files, remote, path) == Success(text)
      && (!IsBlank(text) ==> retried == Success(text))
      && (IsBlank(text) ==> retried == Failure(TranscriptionError("API returned empty transcription")))
  {
    Transcriber.RetryStopsAtFirstAnswer(files, remote, path, cfg, 1, None, 1);
  }

  /** `transcribe_file` as a function of the file's path, for a fixed file system and model. */
  function TranscribeOn(files: map<string, Blob>, remote: Remote): string -> Result<string, Error>
  {
    path => TranscribeFile(files, remote, path)
  }

  /** What the `finally` of `transcribe` gives: the error it raised, if any, and the files left. */
  datatype Swept = Swept(failure: Option<Error>, files: map<string, Blob>)

  /**
   * The `finally` loop of `transcribe`: each listed path that exists is removed;
   * the first removal the system refuses raises, and the remaining paths are
   * left as they are.
   */
  function Sweep(files: map<string, Blob>, refused: set<string>, paths: seq<string>): Swept
  {
    if paths == [] then Swept(None, files)
    else if paths[0] in files then
      if paths[0] in refused then Swept(Some(OSError(paths[0])), files)
      else Sweep(files - {paths[0]}, refused, paths[1..])
    else Sweep(files, refused, paths[1..])
  }

  /** `paths[k]` is the first listed path that exists and whose removal is refused. */
  predicate FirstRefused(files: map<string, Blob>, refused: set<string>, paths: seq<string>, k: int)
  {
    && 0 <= k < |paths|
    && paths[k] in files && paths[k] in refused
    && forall i :: 0 <= i < k ==> !(paths[i] in files && paths[i] in refused)
  }

  /**
   * The sweep raises exactly when some listed path exists and its removal is
   * refused; it then raises for the first such path, after removing every listed
   * path before it. It only ever removes listed paths, and when it does not
   * raise, none of them is left.
   */
  lemma {:induction false} SweepOutcome(files: map<string, Blob>, refused: set<string>, paths: seq<string>)
    ensures var s := Sweep(files, refused, paths);
      && (s.failure.Some? <==> exists k :: 0 <= k < |paths| && paths[k] in files && paths[k] in refused)
      && (s.failure.Some? ==>
            exists k :: && FirstRefused(files, refused, paths, k)
                        && s.failure == Some(OSError(paths[k]))
                        && s.files == files - Listed(paths[..k]))
      && (s.failure.None? ==> s.files == files - Listed(paths))
      && s.files.Keys <= files.Keys
      && (forall p :: p in s.files ==> s.files[p] == files[p])
      && (forall p :: p in files && p !in paths ==> p in s.files)
  {
    if paths != [] {
      var p, rest := paths[0], paths[1..];
      assert forall k :: 0 < k < |paths| ==> paths[k] == rest[k - 1];
      if p in files && p !in refused {
        SweepOutcome(files - {p}, refused, rest);
        var s := Sweep(files, refused, paths);
        if s.failure.Some? {
          var k :| 0 <= k < |rest| && rest[k] in files - {p} && rest[k] in refused;
          assert paths[k + 1] == rest[k];
        } else {
          assert Listed(paths) == {p} + Listed(rest);
        }
      } else if p !in files {
        SweepOutcome(files, refused, rest);
        var s := Sweep(files, refused, paths);
        if s.failure.Some? {
          var k :| 0 <= k < |rest| && rest[k] in files && rest[k] in refused;
          assert paths[k + 1] == rest[k];
        } else {
          assert files - Listed(paths) == files - Listed(rest);
        }
      } else {
        assert FirstRefused(files, refused, paths, 0);
      }
    }
    SweepFailure(files, refused, paths);
  }

  /**
   * A sweep that raises does so for the first listed path that exists and whose
   * removal is refused, every listed path before it having been removed.
   */
  lemma {:induction false} SweepFailure(files: map<string, Blob>, refused: set<string>, paths: seq<string>)
    ensures var s := Sweep(files, refused, paths);
      s.failure.Some? ==>
        exists k :: && FirstRefused(files, refused, paths, k)
                    && s.failure == Some(OSError(paths[k]))
                    && s.files == files - Listed(paths[..k])
  {
    if paths != [] {
      var p, rest := paths[0], paths[1..];
      var s := Sweep(files, refused, paths);
      if p in files && p in refused {
        assert Listed(paths[..0]) == {};
        assert FirstRefused(files, refused, paths, 0);
      } else {
        var after := if p in files then files - {p} else files;
        assert s == Sweep(after, refused, rest);
        SweepFailure(after, refused, rest);
        if s.failure.Some? {
          var k :| && FirstRefused(after, refused, rest, k)
                   && s.failure == Some(OSError(rest[k]))
                   && s.files == after - Listed(rest[..k]);
          assert paths[k + 1] == rest[k];
          assert paths[..k + 1] == [p] + rest[..k];
          assert Listed(paths[..k + 1]) == {p} + Listed(rest[..k]);
          forall i | 0 <= i < k + 1 ensures !(paths[i] in files && paths[i] in refused) {
            if i > 0 { assert paths[i] == rest[i - 1]; }
          }
          assert after - Listed(rest[..k]) == files - Listed(paths[..k + 1]);
          assert FirstRefused(files, refused, paths, k + 1);
        }
      }
    }
  }

  /** The `finally` loop of `transcribe`, on the file system. */
  method RemoveChunks(disk: FileStore, paths: seq<string>) returns (failure: Option<Error>)
    modifies disk
    ensures Swept(failure, disk.files) == Sweep(old(disk.files), disk.refused, paths)
  {
    var i := 0;
    while i < |paths|
      invariant i <= |paths|
      invariant Sweep(old(disk.files), disk.refused, paths) == Sweep(disk.files, disk.refused, paths[i..])
    {
      assert paths[i..][1..] == paths[i + 1..];
      if disk.Exists(paths[i]) {
        var removed := disk.Remove(paths[i]);
        if !removed {
          return Some(OSError(paths[i]));
        }
      }
      i := i + 1;
    }
    return None;
  }

  /** What `transcribe` returns or raises, and the files it leaves behind. */
  datatype Report = Report(result: Result<string, Error>, files: map<string, Blob>)

  /**
   * `transcribe`: a recording that does not decode raises before anything else;
   * one of at most ten minutes is transcribed directly; a longer one is cut into
   * fixed chunks, transcribed chunk by chunk up to the first failure, and the
   * texts are joined with blank lines. The chunk files are then removed; an
   * error while removing them replaces the transcript or the transcription error.
   */
  function Pipeline(files: map<string, Blob>, refused: set<string>, audioPath: string, remote: Remote): Report
  {
    match Decode(files, audioPath)
    case None => Report(Failure(DecodeFailure(audioPath)), files)
    case Some(ms) =>
      if ms <= ChunkMs then Report(TranscribeFile(files, remote, audioPath), files)
      else
        var cs := FixedChunks(ms, BaseName(audioPath));
        Chunked(Exported(files, cs), refused, remote, PathsOf(cs))
  }

  /**
   * The long-recording branch of `transcribe` once the chunk files exist: the
   * chunks are transcribed up to the first failure and the texts joined with
   * blank lines, then the `finally` sweep runs, and an error it raises wins.
   */
  function Chunked(exported: map<string, Blob>, refused: set<string>, remote: Remote, paths: seq<string>): Report
  {
    var body := match Collect(TranscribeOn(exported, remote), paths)
      case Failure(e) => Failure(e)
      case Success(texts) => Success(Join("\n\n", texts));
    var swept := Sweep(exported, refused, paths);
    Report(if swept.failure.Some? then Failure(swept.failure.value) else body, swept.files)
  }

  /**
   * When no chunk path is refused, the sweep removes every chunk file and the
   * result is the chunk loop's: its texts joined with blank lines, or its error.
   * When an existing chunk file's removal is refused, the result is an `OSError`
   * for a refused path.
   */
  lemma ChunkedOutcome(exported: map<string, Blob>, refused: set<string>, remote: Remote, paths: seq<string>)
    ensures var report := Chunked(exported, refused, remote, paths);
      (forall k :: 0 <= k < |paths| ==> paths[k] !in refused) ==>
        && report.files == exported - Listed(paths)
        && report.result == match Collect(TranscribeOn(exported, remote), paths)
             case Failure(e) => Failure(e)
             case Success(texts) => Success(Join("\n\n", texts))
    ensures var report := Chunked(exported, refused, remote, paths);
      (exists k :: 0 <= k < |paths| && paths[k] in exported && paths[k] in refused) ==>
        report.result.Failure? && report.result.error.OSError? && report.result.error.path in refused
  {
    SweepOutcome(exported, refused, paths);
  }

  /**
   * With no chunk path refused, the long-recording branch succeeds exactly when
   * every chunk's call does, and then joins the chunk texts, in order, with blank
   * lines; otherwise it raises the error of the first chunk whose call fails.
   */
  lemma ChunkedTranscript(exported: map<string, Blob>, refused: set<string>, remote: Remote, paths: seq<string>)
    requires forall k :: 0 <= k < |paths| ==> paths[k] !in refused
    ensures var r := Chunked(exported, refused, remote, paths).result;
      var f := TranscribeOn(exported, remote);
      && (r.Success? <==> forall k :: 0 <= k < |paths| ==> f(paths[k]).Success?)
      && (r.Success? ==> exists texts: seq<string> ::
            && |texts| == |paths|
            && (forall k :: 0 <= k < |paths| ==> f(paths[k]) == Success(texts[k]))
            && r.value == Join("\n\n", texts))
      && (forall j :: FirstFailure(f, paths, j) ==> r == Failure(f(paths[j]).error))
  {
    var f := TranscribeOn(exported, remote);
    var r := Chunked(exported, refused, remote, paths).result;
    ChunkedOutcome(exported, refused, remote, paths);
    CollectOutcome(f, paths);
    if r.Success? {
      var texts := Collect(f, paths).value;
      assert forall k :: 0 <= k < |paths| ==> f(paths[k]) == Success(texts[k]);
    }
    forall j | FirstFailure(f, paths, j) ensures r == Failure(f(paths[j]).error) {
      CollectFirstFailure(f, paths, j);
    }
  }

  /** `transcribe` on the file system. */
  method Transcribe(disk: FileStore, audioPath: string, remote: Remote) returns (r: Result<string, Error>)
    modifies disk
    ensures Report(r, disk.files) == Pipeline(old(disk.files), disk.refused, audioPath, remote)
  {
    var decoded := Decode(disk.files, audioPath);
    if decoded.None? {
      return Failure(DecodeFailure(audioPath));
    }
    if decoded.value <= ChunkMs {
      return TranscribeFile(disk.files, remote, audioPath);
    }
    // The recording decoded a moment ago, so splitting it succeeds.
    var split := SplitAudioFile(disk, audioPath);
    var chunksToCleanup := PathsOf(split.value);
    var transcriptions := TranscribeChunks(disk, remote, chunksToCleanup);
    var removeFailure := RemoveChunks(disk, chunksToCleanup);
    if removeFailure.Some? {
      return Failure(removeFailure.value);
    }
    if transcriptions.Failure? {
      return Failure(transcriptions.error);
    }
    return Success(Join("\n\n", transcriptions.value));
  }

  /** The chunk loop of `transcribe`: each chunk in order, until the first one that fails. */
  method TranscribeChunks(disk: FileStore, remote: Remote, paths: seq<string>) returns (r: Result<seq<string>, Error>)
    ensures r == Collect(TranscribeOn(disk.files, remote), paths)
  {
    var texts: seq<string> := [];
    var i := 0;
    while i < |paths|
      invariant i <= |paths|
      invariant Collect(TranscribeOn(disk.files, remote), paths[..i]) == Success(texts)
    {
      assert paths[..i + 1][..i] == paths[..i];
      var text := TranscribeFile(disk.files, remote, paths[i]);
      if text.Failure? {
        CollectStopsAtFailure(TranscribeOn(disk.files, remote), paths, i + 1);
        return Failure(text.error);
      }
      texts := texts + [text.value];
      i := i + 1;
    }
    assert paths[..i] == paths;
    return Success(texts);
  }

  /**
   * When no chunk file's removal is refused, a long recording leaves the file
   * system as it was apart from its chunk paths, which are all gone.
   */
  lemma PipelineCleansUp(files: map<string, Blob>, refused: set<string>, audioPath: string, remote: Remote)
    requires Decode(files, audioPath).Some? && Decode(files, audioPath).value > ChunkMs
    requires forall i :: 0 <= i < ChunkCount(Decode(files, audioPath).value) ==>
      ChunkPath(BaseName(audioPath), i) !in refused
    ensures var cs := FixedChunks(Decode(files, audioPath).value, BaseName(audioPath));
      Pipeline(files, refused, audioPath, remote).files == files - PathSet(cs)
  {
    var ms, base := Decode(files, audioPath).value, BaseName(audioPath);
    var cs := FixedChunks(ms, base);
    var paths := PathsOf(cs);
    var exported := Exported(files, cs);
    var report := Chunked(exported, refused, remote, paths);
    assert Pipeline(files, refused, audioPath, remote) == report;
    assert forall k :: 0 <= k < |paths| ==> paths[k] !in refused by {
      FixedChunkPaths(ms, base);
    }
    assert report.files == exported - Listed(paths) by {
      ChunkedOutcome(exported, refused, remote, paths);
    }
    assert exported - Listed(paths) == files - PathSet(cs) by {
      ExportedApartFromChunks(files, cs);
      PathsOfSet(cs);
    }
  }

  /**
   * When no chunk file's removal is refused, a long recording is transcribed
   * exactly when every chunk's call succeeds, and the transcript is then the
   * chunk texts, in chunk order, joined by blank lines; otherwise the error is
   * that of the first chunk whose call fails.
   */
  lemma PipelineTranscript(files: map<string, Blob>, refused: set<string>, audioPath: string, remote: Remote)
    requires Decode(files, audioPath).Some? && Decode(files, audioPath).value > ChunkMs
    requires forall i :: 0 <= i < ChunkCount(Decode(files, audioPath).value) ==>
      ChunkPath(BaseName(audioPath), i) !in refused
    ensures var cs := FixedChunks(Decode(files, audioPath).value, BaseName(audioPath));
      var exported := Exported(files, cs);
      var r := Pipeline(files, refused, audioPath, remote).result;
      && (r.Success? <==> forall k :: 0 <= k < |cs| ==> TranscribeFile(exported, remote, cs[k].path).Success?)
      && (r.Success? ==> exists texts: seq<string> ::
            && |texts| == |cs|
            && (forall k :: 0 <= k < |cs| ==> TranscribeFile(exported, remote, cs[k].path) == Success(texts[k]))
            && r.value == Join("\n\n", texts))
      && (forall j :: 0 <= j < |cs| && TranscribeFile(exported, remote, cs[j].path).Failure? &&
            (forall k :: 0 <= k < j ==> TranscribeFile(exported, remote, cs[k].path).Success?)
            ==> r == Failure(TranscribeFile(exported, remote, cs[j].path).error))
  {
    var ms, base := Decode(files, audioPath).value, BaseName(audioPath);
    var cs := FixedChunks(ms, base);
    assert Pipeline(files, refused, audioPath, remote) == Chunked(Exported(files, cs), refused, remote, PathsOf(cs));
    assert forall k :: 0 <= k < |cs| ==> cs[k].path !in refused by {
      FixedChunkPaths(ms, base);
    }
    ChunkTexts(Exported(files, cs), refused, remote, cs);
  }

  /**
   * The long-recording branch over exported chunks none of whose paths is
   * refused, stated chunk by chunk: it succeeds exactly when every chunk's call
   * does, joining the texts in chunk order, and otherwise raises the error of the
   * first chunk whose call fails.
   */
  lemma ChunkTexts(exported: map<string, Blob>, refused: set<string>, remote: Remote, cs: seq<Chunk>)
    requires forall k :: 0 <= k < |cs| ==> cs[k].path !in refused
    ensures var r := Chunked(exported, refused, remote, PathsOf(cs)).result;
      && (r.Success? <==> forall k :: 0 <= k < |cs| ==> TranscribeFile(exported, remote, cs[k].path).Success?)
      && (r.Success? ==> exists texts: seq<string> ::
            && |texts| == |cs|
            && (forall k :: 0 <= k < |cs| ==> TranscribeFile(exported, remote, cs[k].path) == Success(texts[k]))
            && r.value == Join("\n\n", texts))
      && (forall j :: 0 <= j < |cs| && TranscribeFile(exported, remote, cs[j].path).Failure? &&
            (forall k :: 0 <= k < j ==> TranscribeFile(exported, remote, cs[k].path).Success?)
            ==> r == Failure(TranscribeFile(exported, remote, cs[j].path).error))
  {
    var paths := PathsOf(cs);
    ChunkedTranscript(exported, refused, remote, paths);
    var f := TranscribeOn(exported, remote);
    assert forall k :: 0 <= k < |cs| ==> f(paths[k]) == TranscribeFile(exported, remote, cs[k].path);
    var r := Chunked(exported, refused, remote, paths).result;
    if r.Success? {
      var texts: seq<string> :| |texts| == |paths| && (forall k :: 0 <= k < |paths| ==> f(paths[k]) == Success(texts[k]))
                                && r.value == Join("\n\n", texts);
      assert forall k :: 0 <= k < |cs| ==> TranscribeFile(exported, remote, cs[k].path) == Success(texts[k]);
    }
    forall j | 0 <= j < |cs| && TranscribeFile(exported, remote, cs[j].path).Failure? &&
        (forall k :: 0 <= k < j ==> TranscribeFile(exported, remote, cs[k].path).Success?)
      ensures r == Failure(TranscribeFile(exported, remote, cs[j].path).error)
    {
      assert FirstFailure(f, paths, j);
    }
  }

  /**
   * When the removal of some chunk file is refused, a long recording always ends
   * in an `OSError` for a refused path, whatever the transcription gave.
   */
  lemma PipelineRefusedRemoval(files: map<string, Blob>, refused: set<string>, audioPath: string, remote: Remote, j: nat)
    requires Decode(files, audioPath).Some? && Decode(files, audioPath).value > ChunkMs
    requires j < ChunkCount(Decode(files, audioPath).value) && ChunkPath(BaseName(audioPath), j) in refused
    ensures var r := Pipeline(files, refused, audioPath, remote).result;
      r.Failure? && r.error.OSError? && r.error.path in refused
  {
    var ms, base := Decode(files, audioPath).value, BaseName(audioPath);
    var cs := FixedChunks(ms, base);
    var paths := PathsOf(cs);
    var exported := Exported(files, cs);
    assert Pipeline(files, refused, audioPath, remote) == Chunked(exported, refused, remote, paths);
    FixedChunkPaths(ms, base);
    ExportedContents(files, cs);
    assert paths[j] in exported && paths[j] in refused;
    ChunkedOutcome(exported, refused, remote, paths);
  }
}
