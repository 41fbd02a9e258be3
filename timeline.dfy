/**
 * Chunks of a recording: consecutive millisecond ranges, each exported to its own
 * file, and what it means for a list of chunks to cover a recording exactly.
 */
module Timeline {
  import opened Paths
  import opened Storage

  /** Chunk `index` holds the audio of `[startMs, endMs)` and was exported to `path`. */
  datatype Chunk = Chunk(index: nat, startMs: nat, endMs: nat, path: string)

  /** The length of `audio[startMs:endMs]`: slicing a reversed range gives empty audio. */
  function Length(c: Chunk): nat
  {
    if c.startMs <= c.endMs then c.endMs - c.startMs else 0
  }

  /**
   * `cs` cuts `[from, to)` into non-empty pieces, in order, each starting where
   * the previous one ended; no chunks at all exactly when the range is empty.
   */
  predicate Tiles(cs: seq<Chunk>, from: nat, to: nat)
  {
    && (forall k :: 0 <= k < |cs| ==> cs[k].startMs < cs[k].endMs)
    && (forall k :: 0 <= k < |cs| - 1 ==> cs[k].endMs == cs[k + 1].startMs)
    && (if cs == [] then from == to else cs[0].startMs == from && cs[|cs| - 1].endMs == to)
  }

  /** Chunk `k` of `cs` carries index `first + k` and the chunk path of that index. */
  predicate Named(cs: seq<Chunk>, first: nat, base: string)
  {
    forall k :: 0 <= k < |cs| ==> cs[k].index == first + k && cs[k].path == ChunkPath(base, cs[k].index)
  }

  /** Putting a chunk that ends where `rest` starts in front of `rest` extends the tiling to the left. */
  lemma TilesCons(c: Chunk, rest: seq<Chunk>, to: nat)
    requires c.startMs < c.endMs && Tiles(rest, c.endMs, to)
    ensures Tiles([c] + rest, c.startMs, to)
  {
    var cs := [c] + rest;
    assert cs[1..] == rest;
    if rest != [] {
      assert cs[|cs| - 1] == rest[|rest| - 1];
    }
  }

  /** Putting chunk `first`, named accordingly, in front of chunks named from `first + 1` on. */
  lemma NamedCons(c: Chunk, rest: seq<Chunk>, first: nat, base: string)
    requires c.index == first && c.path == ChunkPath(base, first) && Named(rest, first + 1, base)
    ensures Named([c] + rest, first, base)
  {
    var cs := [c] + rest;
    forall k | 0 <= k < |cs| ensures cs[k].index == first + k && cs[k].path == ChunkPath(base, cs[k].index) {
      if k > 0 {
        assert cs[k] == rest[k - 1];
      }
    }
  }

  /** The summed length of the chunks. */
  function TotalLength(cs: seq<Chunk>): nat
  {
    if cs == [] then 0 else Length(cs[0]) + TotalLength(cs[1..])
  }

  /** No sample is lost or duplicated: the chunk lengths add up to the length of the range. */
  lemma {:induction false} TilesTotalLength(cs: seq<Chunk>, from: nat, to: nat)
    requires Tiles(cs, from, to)
    ensures TotalLength(cs) == to - from
  {
    if cs != [] {
      assert Tiles(cs[1..], cs[0].endMs, to);
      TilesTotalLength(cs[1..], cs[0].endMs, to);
    }
  }

  /** Chunks are ordered: an earlier chunk ends no later than a later one starts. */
  lemma {:induction false} TilesOrdered(cs: seq<Chunk>, from: nat, to: nat, i: nat, j: nat)
    requires Tiles(cs, from, to)
    requires i < j < |cs|
    ensures cs[i].endMs <= cs[j].startMs
    decreases j - i
  {
    if i + 1 < j {
      TilesOrdered(cs, from, to, i + 1, j);
    }
  }

  /** Every instant of the range lies in exactly one chunk. */
  lemma {:induction false} TilesCoverOnce(cs: seq<Chunk>, from: nat, to: nat, t: nat)
    requires Tiles(cs, from, to)
    requires from <= t < to
    ensures exists k :: 0 <= k < |cs| && cs[k].startMs <= t < cs[k].endMs
    ensures forall i, j ::
              (0 <= i < |cs| && 0 <= j < |cs| &&
               cs[i].startMs <= t < cs[i].endMs && cs[j].startMs <= t < cs[j].endMs) ==> i == j
  {
    if t < cs[0].endMs {
      assert cs[0].startMs <= t < cs[0].endMs;
    } else {
      var rest := cs[1..];
      assert Tiles(rest, cs[0].endMs, to);
      TilesCoverOnce(rest, cs[0].endMs, to, t);
      var k :| 0 <= k < |rest| && rest[k].startMs <= t < rest[k].endMs;
      assert cs[k + 1] == rest[k];
    }
    forall i, j | 0 <= i < |cs| && 0 <= j < |cs| &&
        cs[i].startMs <= t < cs[i].endMs && cs[j].startMs <= t < cs[j].endMs
      ensures i == j
    {
      if i < j {
        TilesOrdered(cs, from, to, i, j);
      } else if j < i {
        TilesOrdered(cs, from, to, j, i);
      }
    }
  }

  /** The paths of the chunks, in order. */
  function PathsOf(cs: seq<Chunk>): (ps: seq<string>)
    ensures |ps| == |cs| && forall k :: 0 <= k < |cs| ==> ps[k] == cs[k].path
  {
    seq(|cs|, k requires 0 <= k < |cs| => cs[k].path)
  }

  /** The files after each chunk of `cs` has been exported, in order, onto `files`. */
  function Exported(files: map<string, Blob>, cs: seq<Chunk>): map<string, Blob>
  {
    if cs == [] then files
    else Exported(files, cs[..|cs| - 1])[cs[|cs| - 1].path := Audio(Length(cs[|cs| - 1]))]
  }

  /** Exporting one more chunk writes its file on top of what was there. */
  lemma ExportedSnoc(files: map<string, Blob>, cs: seq<Chunk>, c: Chunk)
    ensures Exported(files, cs + [c]) == Exported(files, cs)[c.path := Audio(Length(c))]
  {
    assert (cs + [c])[..|cs|] == cs;
  }

  /**
   * `chunk.export(path)`, as both split loops call it: the chunk's audio is
   * written to its path, on top of the chunks exported before it.
   */
  method ExportChunk(disk: FileStore, ghost before: map<string, Blob>, ghost done: seq<Chunk>, c: Chunk)
    requires disk.files == Exported(before, done)
    modifies disk
    ensures disk.files == Exported(before, done + [c])
  {
    disk.Export(c.path, Length(c));
    ExportedSnoc(before, done, c);
  }

  /** The set of chunk paths. */
  function PathSet(cs: seq<Chunk>): set<string>
  {
    set k | 0 <= k < |cs| :: cs[k].path
  }

  /** The paths occurring in a list. */
  function Listed(paths: seq<string>): set<string>
  {
    set p | p in paths
  }

  /** The paths listed by `PathsOf` are exactly the chunk paths. */
  lemma PathsOfSet(cs: seq<Chunk>)
    ensures Listed(PathsOf(cs)) == PathSet(cs)
    ensures forall p :: p in PathsOf(cs) <==> p in PathSet(cs)
  {
    var ps := PathsOf(cs);
    forall p | p in PathSet(cs) ensures p in ps {
      var k :| 0 <= k < |cs| && cs[k].path == p;
      assert ps[k] == p;
    }
  }

  /** No two chunks share a path. */
  predicate DistinctPaths(cs: seq<Chunk>)
  {
    forall i, j :: 0 <= i < j < |cs| ==> cs[i].path != cs[j].path
  }

  /** Chunks named by consecutive indices have distinct paths. */
  lemma NamedDistinct(cs: seq<Chunk>, first: nat, base: string)
    requires Named(cs, first, base)
    ensures DistinctPaths(cs)
  {
    forall i, j | 0 <= i < j < |cs| ensures cs[i].path != cs[j].path {
      if cs[i].path == cs[j].path {
        ChunkPathInjective(base, cs[i].index, cs[j].index);
      }
    }
  }

  /**
   * Exporting chunks with distinct paths: each chunk path then holds audio of
   * its chunk's length.
   */
  lemma {:induction false} ExportedContents(files: map<string, Blob>, cs: seq<Chunk>)
    requires DistinctPaths(cs)
    ensures forall k :: 0 <= k < |cs| ==>
              cs[k].path in Exported(files, cs) && Exported(files, cs)[cs[k].path] == Audio(Length(cs[k]))
  {
    if cs != [] {
      var init, last := cs[..|cs| - 1], cs[|cs| - 1];
      assert DistinctPaths(init) by {
        forall i, j | 0 <= i < j < |init| ensures init[i].path != init[j].path {
          assert init[i] == cs[i] && init[j] == cs[j];
        }
      }
      ExportedContents(files, init);
      forall k | 0 <= k < |cs|
        ensures cs[k].path in Exported(files, cs) && Exported(files, cs)[cs[k].path] == Audio(Length(cs[k]))
      {
        if k < |init| {
          assert cs[k] == init[k];
          assert cs[k].path != last.path;
        }
      }
    }
  }

  /**
   * Exporting chunks adds exactly the chunk paths to the files, and leaves every
   * other file as it was.
   */
  lemma {:induction false} ExportedElsewhere(files: map<string, Blob>, cs: seq<Chunk>)
    ensures Exported(files, cs).Keys == files.Keys + PathSet(cs)
    ensures forall p :: p in files && p !in PathSet(cs) ==> Exported(files, cs)[p] == files[p]
  {
    if cs != [] {
      var init, last := cs[..|cs| - 1], cs[|cs| - 1];
      ExportedElsewhere(files, init);
      assert PathSet(cs) == PathSet(init) + {last.path} by {
        forall p | p in PathSet(cs) ensures p in PathSet(init) + {last.path} {
          var k :| 0 <= k < |cs| && cs[k].path == p;
          if k < |init| { assert init[k] == cs[k]; }
        }
        forall p | p in PathSet(init) ensures p in PathSet(cs) {
          var k :| 0 <= k < |init| && init[k].path == p;
          assert cs[k] == init[k];
        }
      }
    }
  }

  /** Apart from the chunk paths, exporting leaves the files exactly as they were. */
  lemma ExportedApartFromChunks(files: map<string, Blob>, cs: seq<Chunk>)
    ensures Exported(files, cs) - PathSet(cs) == files - PathSet(cs)
  {
    ExportedElsewhere(files, cs);
    var e := Exported(files, cs);
    assert (e - PathSet(cs)).Keys == (files - PathSet(cs)).Keys;
    forall p | p in (e - PathSet(cs)).Keys ensures (e - PathSet(cs))[p] == (files - PathSet(cs))[p] {
    }
  }
}
