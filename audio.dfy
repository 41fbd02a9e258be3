/**
 * Duration measurement, silence search and silence-aware splitting of a recording
 * into chunk files, and removal of those files (src/audio.py).
 *
 * A recording is known by its length in ms; the silences inside it are reported
 * by a detector (pydub's `detect_silence`), which is a parameter here.
 */
module Audio {
  import opened Wrappers
  import opened Errors
  import opened Paths
  import opened Storage
  import opened Timeline

  /** `MAX_CHUNK_SECONDS` and `SPLIT_WINDOW_SECONDS`. */
  datatype SplitConfig = SplitConfig(maxChunkSeconds: nat, splitWindowSeconds: nat)
  {
    /** The silence window is narrower than a chunk, so every cut moves forward. */
    predicate Valid()
    {
      splitWindowSeconds < maxChunkSeconds
    }

    function ChunkTargetMs(): nat
    {
      maxChunkSeconds * 1000
    }

    function WindowMs(): nat
    {
      splitWindowSeconds * 1000
    }
  }

  /** The shipped configuration: 300 s chunks, silence searched within 30 s of the target. */
  const DefaultSplit: SplitConfig := SplitConfig(300, 30)

  /** A silent stretch `[start, end]` in ms, relative to the start of the searched segment. */
  datatype Silence = Silence(start: int, end: int)

  /** `detect_silence(audio[from:to], ...)`: the silences of that segment, in the order reported. */
  type Detector = (nat, nat) -> seq<Silence>

  /** Every silence lies inside a segment `width` ms long. */
  predicate InSegment(ss: seq<Silence>, width: int)
  {
    forall k :: 0 <= k < |ss| ==> 0 <= ss[k].start <= ss[k].end <= width
  }

  /** The detector only reports silences inside the segment it was given. */
  ghost predicate WellFormed(detect: Detector)
  {
    forall from: nat, to: nat :: InSegment(detect(from, to), to - from)
  }

  /** `get_duration_seconds`, in ms: decoding failures become an `AudioProcessingError`. */
  function GetDurationMs(files: map<string, Blob>, path: string): (r: Result<nat, Error>)
    ensures r.Success? <==> path in files && files[path].Audio?
    ensures r.Success? ==> r.value == files[path].lengthMs
    ensures r.Failure? ==> r.error == AudioProcessingError("Failed to read audio file")
  {
    match Decode(files, path)
    case Some(ms) => Success(ms)
    case None => Failure(AudioProcessingError("Failed to read audio file"))
  }

  /** The segment searched for silence: `[max(0, target - W), min(total, target + W)]`. */
  function SearchWindow(totalMs: nat, targetMs: nat, windowMs: nat): (w: (nat, nat))
    ensures w.0 >= targetMs - windowMs && (w.0 == 0 || w.0 == targetMs - windowMs)
    ensures w.1 <= totalMs && w.1 <= targetMs + windowMs
    ensures w.1 == totalMs || w.1 == targetMs + windowMs
  {
    (if targetMs >= windowMs then targetMs - windowMs else 0,
     if totalMs <= targetMs + windowMs then totalMs else targetMs + windowMs)
  }

  /** The absolute position of the middle of a silence found in a segment starting at `from`. */
  function Midpoint(from: nat, s: Silence): int
  {
    from + (s.start + s.end) / 2
  }

  function Distance(a: int, b: int): nat
  {
    if a <= b then b - a else a - b
  }

  /**
   * The midpoint kept after scanning `ss` in order, replacing the current choice
   * only by a strictly closer one; None for no silences.
   */
  function Closest(ss: seq<Silence>, from: nat, targetMs: nat): (best: Option<int>)
    ensures best.None? <==> ss == []
  {
    if ss == [] then None
    else
      var prev := Closest(ss[..|ss| - 1], from, targetMs);
      var m := Midpoint(from, ss[|ss| - 1]);
      if prev.None? || Distance(m, targetMs) < Distance(prev.value, targetMs) then Some(m) else prev
  }

  /**
   * The chosen midpoint belongs to some silence `j`, no midpoint is closer to the
   * target, and every silence listed before `j` is strictly farther: ties go to
   * the first one reported.
   */
  lemma {:induction false} ClosestIsFirstNearest(ss: seq<Silence>, from: nat, targetMs: nat)
    requires ss != []
    ensures var best := Closest(ss, from, targetMs).value;
      exists j :: 0 <= j < |ss| && best == Midpoint(from, ss[j]) &&
        (forall k :: 0 <= k < |ss| ==> Distance(Midpoint(from, ss[k]), targetMs) >= Distance(best, targetMs)) &&
        (forall k :: 0 <= k < j ==> Distance(Midpoint(from, ss[k]), targetMs) > Distance(best, targetMs))
  {
    var init := ss[..|ss| - 1];
    var m := Midpoint(from, ss[|ss| - 1]);
    var best := Closest(ss, from, targetMs).value;
    if init == [] {
      assert best == Midpoint(from, ss[0]);
    } else {
      ClosestIsFirstNearest(init, from, targetMs);
      var prev := Closest(init, from, targetMs).value;
      var j :| 0 <= j < |init| && prev == Midpoint(from, init[j]) &&
        (forall k :: 0 <= k < |init| ==> Distance(Midpoint(from, init[k]), targetMs) >= Distance(prev, targetMs)) &&
        (forall k :: 0 <= k < j ==> Distance(Midpoint(from, init[k]), targetMs) > Distance(prev, targetMs));
      assert forall k :: 0 <= k < |init| ==> init[k] == ss[k];
      if Distance(m, targetMs) < Distance(prev, targetMs) {
        assert best == Midpoint(from, ss[|ss| - 1]);
      } else {
        assert best == Midpoint(from, ss[j]);
      }
    }
  }

  /** When the silences lie inside the segment `[from, to]`, so does the chosen midpoint. */
  lemma {:induction false} ClosestInSegment(ss: seq<Silence>, from: nat, to: nat, targetMs: nat)
    requires InSegment(ss, to - from) && ss != []
    ensures from <= Closest(ss, from, targetMs).value <= to
  {
    var init := ss[..|ss| - 1];
    if init != [] {
      assert InSegment(init, to - from) by {
        forall k | 0 <= k < |init| ensures 0 <= init[k].start <= init[k].end <= to - from {
          assert init[k] == ss[k];
        }
      }
      ClosestInSegment(init, from, to, targetMs);
    }
  }

  /** `_find_silence_near` as a value: search the window around the target and pick the closest silence. */
  function SilenceNear(totalMs: nat, targetMs: nat, windowMs: nat, detect: Detector): (r: Option<int>)
    ensures var w := SearchWindow(totalMs, targetMs, windowMs);
      r.None? <==> detect(w.0, w.1) == []
  {
    var w := SearchWindow(totalMs, targetMs, windowMs);
    Closest(detect(w.0, w.1), w.0, targetMs)
  }

  /** With a well-formed detector the chosen point lies inside the search window. */
  lemma SilenceNearInWindow(totalMs: nat, targetMs: nat, windowMs: nat, detect: Detector)
    requires WellFormed(detect)
    ensures var w := SearchWindow(totalMs, targetMs, windowMs);
      var r := SilenceNear(totalMs, targetMs, windowMs, detect);
      r.Some? ==> w.0 <= r.value <= w.1
  {
    var w := SearchWindow(totalMs, targetMs, windowMs);
    var ss := detect(w.0, w.1);
    if ss != [] {
      assert InSegment(ss, w.1 as int - w.0 as int);
      ClosestInSegment(ss, w.0, w.1, targetMs);
    }
  }

  /** `_find_silence_near`: the scan over the detected silences, keeping the best so far. */
  method FindSilenceNear(totalMs: nat, targetMs: nat, windowMs: nat, detect: Detector) returns (best: Option<int>)
    ensures best == SilenceNear(totalMs, targetMs, windowMs, detect)
  {
    var w := SearchWindow(totalMs, targetMs, windowMs);
    var searchStart, searchEnd := w.0, w.1;
    var silences := detect(searchStart, searchEnd);
    if silences == [] {
      return None;
    }
    best := None;
    var bestDist := 0;
    for i := 0 to |silences|
      invariant best == Closest(silences[..i], searchStart, targetMs)
      invariant best.Some? ==> bestDist == Distance(best.value, targetMs)
    {
      assert silences[..i + 1][..i] == silences[..i];
      var midpoint := Midpoint(searchStart, silences[i]);
      var dist := Distance(midpoint, targetMs);
      if best.None? || dist < bestDist {
        bestDist := dist;
        best := Some(midpoint);
      }
    }
    assert silences[..|silences|] == silences;
  }

  /** Where the chunk starting at `pos` ends: the rest of the track, a silence, or a hard cut. */
  function CutAfter(totalMs: nat, pos: nat, cfg: SplitConfig, detect: Detector): (end: nat)
    requires pos < totalMs && cfg.Valid() && WellFormed(detect)
    ensures pos < end <= totalMs
  {
    if totalMs - pos <= cfg.ChunkTargetMs() then totalMs
    else
      var target := pos + cfg.ChunkTargetMs();
      SilenceNearInWindow(totalMs, target, cfg.WindowMs(), detect);
      match SilenceNear(totalMs, target, cfg.WindowMs(), detect)
      case None => target
      case Some(p) => p
  }

  /** The chunks `split_audio` produces from position `pos` on, the next one numbered `index`. */
  function Plan(totalMs: nat, pos: nat, index: nat, base: string, cfg: SplitConfig, detect: Detector): seq<Chunk>
    requires pos <= totalMs && cfg.Valid() && WellFormed(detect)
    decreases totalMs - pos
  {
    if pos == totalMs then []
    else
      var end := CutAfter(totalMs, pos, cfg, detect);
      [Chunk(index, pos, end, ChunkPath(base, index))] + Plan(totalMs, end, index + 1, base, cfg, detect)
  }

  /** One unfolding of the plan: the first chunk, then the plan from its end. */
  lemma PlanStep(totalMs: nat, pos: nat, index: nat, base: string, cfg: SplitConfig, detect: Detector)
    requires pos < totalMs && cfg.Valid() && WellFormed(detect)
    ensures var end := CutAfter(totalMs, pos, cfg, detect);
      Plan(totalMs, pos, index, base, cfg, detect)
        == [Chunk(index, pos, end, ChunkPath(base, index))] + Plan(totalMs, end, index + 1, base, cfg, detect)
  {
  }

  /** After the chunks taken so far, the next chunk of the plan starts at `pos` and ends at the next cut. */
  lemma PlanAdvance(totalMs: nat, pos: nat, index: nat, base: string, cfg: SplitConfig, detect: Detector,
                    taken: seq<Chunk>, whole: seq<Chunk>)
    requires pos < totalMs && cfg.Valid() && WellFormed(detect)
    requires taken + Plan(totalMs, pos, index, base, cfg, detect) == whole
    ensures var end := CutAfter(totalMs, pos, cfg, detect);
      (taken + [Chunk(index, pos, end, ChunkPath(base, index))]) + Plan(totalMs, end, index + 1, base, cfg, detect) == whole
  {
    var end := CutAfter(totalMs, pos, cfg, detect);
    var c := Chunk(index, pos, end, ChunkPath(base, index));
    var rest := Plan(totalMs, end, index + 1, base, cfg, detect);
    PlanStep(totalMs, pos, index, base, cfg, detect);
    assert (taken + [c]) + rest == taken + ([c] + rest);
  }

  /**
   * The chunks cover `[pos, total)` exactly, contiguously and in order, and are
   * numbered and named consecutively from `index`.
   */
  lemma {:induction false} PlanTiles(totalMs: nat, pos: nat, index: nat, base: string, cfg: SplitConfig, detect: Detector)
    requires pos <= totalMs && cfg.Valid() && WellFormed(detect)
    ensures Tiles(Plan(totalMs, pos, index, base, cfg, detect), pos, totalMs)
    ensures Named(Plan(totalMs, pos, index, base, cfg, detect), index, base)
    decreases totalMs - pos
  {
    if pos < totalMs {
      var end := CutAfter(totalMs, pos, cfg, detect);
      PlanTiles(totalMs, end, index + 1, base, cfg, detect);
      var c := Chunk(index, pos, end, ChunkPath(base, index));
      var rest := Plan(totalMs, end, index + 1, base, cfg, detect);
      TilesCons(c, rest, totalMs);
      NamedCons(c, rest, index, base);
    }
  }

  /**
   * Where a chunk's cut falls. A chunk that starts within one chunk length of the
   * end is the last one and runs to the end. Any other chunk ends at the silence
   * chosen near its target, so its length is within the window of the target
   * length, or, when no silence was found, exactly at the target.
   */
  predicate CutRule(totalMs: nat, cfg: SplitConfig, detect: Detector, ch: Chunk, isLast: bool)
  {
    var c, w := cfg.ChunkTargetMs(), cfg.WindowMs();
    if totalMs - ch.startMs <= c then isLast && ch.endMs == totalMs
    else
      var near := SilenceNear(totalMs, ch.startMs + c, w, detect);
      && (near.None? ==> ch.endMs == ch.startMs + c)
      && (near.Some? ==> ch.endMs == near.value)
      && c - w <= Length(ch) <= c + w
  }

  /** Every chunk obeys the cut rule, and only the final chunk may be the one that fits. */
  predicate CutsFollowRule(totalMs: nat, cfg: SplitConfig, detect: Detector, cs: seq<Chunk>)
  {
    forall k :: 0 <= k < |cs| ==> CutRule(totalMs, cfg, detect, cs[k], k == |cs| - 1)
  }

  /** The cut chosen by one step obeys the cut rule; it is the last cut exactly when it reaches the end. */
  lemma CutAfterRule(totalMs: nat, cfg: SplitConfig, detect: Detector, ch: Chunk)
    requires ch.startMs < totalMs && cfg.Valid() && WellFormed(detect)
    requires ch.endMs == CutAfter(totalMs, ch.startMs, cfg, detect)
    ensures CutRule(totalMs, cfg, detect, ch, ch.endMs == totalMs)
  {
    var c, w := cfg.ChunkTargetMs(), cfg.WindowMs();
    if totalMs - ch.startMs > c {
      var window := SearchWindow(totalMs, ch.startMs + c, w);
      assert window.0 == ch.startMs + c - w;
      SilenceNearInWindow(totalMs, ch.startMs + c, w, detect);
    }
  }

  /** The cut rule holds for every chunk of the plan. */
  lemma {:induction false} PlanCuts(totalMs: nat, pos: nat, index: nat, base: string, cfg: SplitConfig, detect: Detector)
    requires pos <= totalMs && cfg.Valid() && WellFormed(detect)
    ensures CutsFollowRule(totalMs, cfg, detect, Plan(totalMs, pos, index, base, cfg, detect))
    decreases totalMs - pos
  {
    if pos < totalMs {
      var end := CutAfter(totalMs, pos, cfg, detect);
      var ch := Chunk(index, pos, end, ChunkPath(base, index));
      var rest := Plan(totalMs, end, index + 1, base, cfg, detect);
      PlanCuts(totalMs, end, index + 1, base, cfg, detect);
      CutAfterRule(totalMs, cfg, detect, ch);
      assert rest == [] <==> end == totalMs;
      CutsCons(totalMs, cfg, detect, ch, rest);
    }
  }

  lemma CutsCons(totalMs: nat, cfg: SplitConfig, detect: Detector, ch: Chunk, rest: seq<Chunk>)
    requires CutRule(totalMs, cfg, detect, ch, rest == [])
    requires CutsFollowRule(totalMs, cfg, detect, rest)
    ensures CutsFollowRule(totalMs, cfg, detect, [ch] + rest)
  {
    var cs := [ch] + rest;
    forall k | 0 <= k < |cs| ensures CutRule(totalMs, cfg, detect, cs[k], k == |cs| - 1) {
      if k == 0 {
        assert cs[k] == ch && (k == |cs| - 1) == (rest == []);
      } else {
        assert cs[k] == rest[k - 1] && (k == |cs| - 1) == (k - 1 == |rest| - 1);
      }
    }
  }

  /** A track no longer than one chunk stays whole; an empty track yields no chunk. */
  lemma ShortTrackPlan(totalMs: nat, base: string, cfg: SplitConfig, detect: Detector)
    requires totalMs <= cfg.ChunkTargetMs() && cfg.Valid() && WellFormed(detect)
    ensures totalMs == 0 ==> Plan(totalMs, 0, 0, base, cfg, detect) == []
    ensures totalMs > 0 ==> Plan(totalMs, 0, 0, base, cfg, detect) == [Chunk(0, 0, totalMs, ChunkPath(base, 0))]
  {
    if totalMs > 0 {
      assert Plan(totalMs, totalMs, 1, base, cfg, detect) == [];
    }
  }

  /**
   * One step of `split_audio`: take the rest of the track if it fits in a chunk,
   * otherwise cut at the silence nearest the target, or exactly at the target.
   */
  method ChooseCut(totalMs: nat, pos: nat, cfg: SplitConfig, detect: Detector) returns (end: nat)
    requires pos < totalMs && cfg.Valid() && WellFormed(detect)
    ensures end == CutAfter(totalMs, pos, cfg, detect)
  {
    var chunkTargetMs := cfg.ChunkTargetMs();
    if totalMs - pos <= chunkTargetMs {
      end := totalMs;
    } else {
      var target := pos + chunkTargetMs;
      var silencePoint := FindSilenceNear(totalMs, target, cfg.WindowMs(), detect);
      SilenceNearInWindow(totalMs, target, cfg.WindowMs(), detect);
      if silencePoint.Some? {
        end := silencePoint.value;
      } else {
        end := target;
      }
    }
  }

  /**
   * `split_audio`: decode the track, walk it cutting chunk after chunk, and export
   * every chunk to its own file.
   */
  method SplitAudio(disk: FileStore, path: string, cfg: SplitConfig, detect: Detector) returns (r: Result<seq<Chunk>, Error>)
    requires cfg.Valid() && WellFormed(detect)
    modifies disk
    ensures match Decode(old(disk.files), path)
      case None =>
        r == Failure(AudioProcessingError("Failed to load audio for splitting")) && disk.files == old(disk.files)
      case Some(totalMs) =>
        && r == Success(Plan(totalMs, 0, 0, BaseName(path), cfg, detect))
        && disk.files == Exported(old(disk.files), r.value)
  {
    var decoded := Decode(disk.files, path);
    if decoded.None? {
      return Failure(AudioProcessingError("Failed to load audio for splitting"));
    }
    var chunks := ExportChunks(disk, decoded.value, BaseName(path), cfg, detect);
    return Success(chunks);
  }

  /** The loop of `split_audio`: cut the decoded track chunk after chunk, exporting each one. */
  method ExportChunks(disk: FileStore, totalMs: nat, baseName: string, cfg: SplitConfig, detect: Detector)
    returns (chunks: seq<Chunk>)
    requires cfg.Valid() && WellFormed(detect)
    modifies disk
    ensures chunks == Plan(totalMs, 0, 0, baseName, cfg, detect)
    ensures disk.files == Exported(old(disk.files), chunks)
  {
    ghost var before := disk.files;
    ghost var whole := Plan(totalMs, 0, 0, baseName, cfg, detect);
    chunks := [];
    var pos, i := 0, 0;
    while pos < totalMs
      invariant pos <= totalMs && i == |chunks|
      invariant chunks + Plan(totalMs, pos, i, baseName, cfg, detect) == whole
      invariant disk.files == Exported(before, chunks)
      decreases totalMs - pos
    {
      var end := ChooseCut(totalMs, pos, cfg, detect);
      var chunkPath := ChunkPath(baseName, i);
      var chunk := Chunk(i, pos, end, chunkPath);
      PlanAdvance(totalMs, pos, i, baseName, cfg, detect, chunks, whole);
      ExportChunk(disk, before, chunks, chunk);
      chunks := chunks + [chunk];
      pos, i := end, i + 1;
    }
    assert chunks + [] == chunks;
  }

  /** The files left after removing `paths`: a path is gone unless the system refused to remove it. */
  function Removed(files: map<string, Blob>, paths: seq<string>, refused: set<string>): map<string, Blob>
  {
    files - (set p | p in paths && p !in refused)
  }

  /**
   * `cleanup_files`: remove every listed file that exists, swallowing `OSError`.
   * Afterwards no listed path remains unless its removal was refused, and files
   * not listed are untouched; the call never fails.
   */
  method CleanupFiles(disk: FileStore, paths: seq<string>)
    modifies disk
    ensures disk.files == Removed(old(disk.files), paths, disk.refused)
    ensures forall p :: p in paths && p !in disk.refused ==> p !in disk.files
    ensures forall p :: p in old(disk.files) && p !in paths ==> p in disk.files && disk.files[p] == old(disk.files)[p]
  {
    for i := 0 to |paths|
      invariant disk.files == Removed(old(disk.files), paths[..i], disk.refused)
    {
      assert paths[..i + 1] == paths[..i] + [paths[i]];
      if disk.Exists(paths[i]) {
        var removed := disk.Remove(paths[i]);
      }
      assert disk.files == Removed(old(disk.files), paths[..i + 1], disk.refused);
    }
    assert paths[..|paths|] == paths;
  }
}
