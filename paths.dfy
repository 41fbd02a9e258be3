/**
 * The parts of POSIX `pathlib` the pipeline uses: `Path(s).name`, `Path(s).stem`,
 * joining a name onto the temporary directory, and the names given to chunk files.
 */
module Paths {
  import opened Text

  /** The directory that receives downloads and chunk files (`TEMP_DIR`). */
  const TempDir: string := "temp"

  /** `str(TEMP_DIR / name)` for a single path component `name`. */
  function InTemp(name: string): string
  {
    TempDir + "/" + name
  }

  /** `s.rfind(c)`: the index of the last occurrence of `c` in `s`, or -1. */
  function LastIndexOf(s: string, c: char): (k: int)
    ensures -1 <= k < |s|
    ensures k >= 0 ==> s[k] == c
    ensures forall i :: k < i < |s| ==> s[i] != c
  {
    if s == [] then -1
    else if s[|s| - 1] == c then |s| - 1
    else LastIndexOf(s[..|s| - 1], c)
  }

  /**
   * `Path(s).name`: the last component of `s` that is neither empty nor `.`
   * (pathlib drops empty and `.` components), or "" when there is none.
   */
  function Name(s: string): (n: string)
    ensures '/' !in n && n != "."
    decreases |s|
  {
    var k := LastIndexOf(s, '/');
    var tail := s[k + 1..];
    if tail != "" && tail != "." then tail
    else if k < 0 then ""
    else Name(s[..k])
  }

  /** The name of `dir/f` is `f` whenever `f` is a genuine component. */
  lemma NameOfChild(dir: string, f: string)
    requires '/' !in f && f != "" && f != "."
    ensures Name(dir + "/" + f) == f
  {
    var s := dir + "/" + f;
    assert s[|dir|] == '/';
    assert forall i :: |dir| < i < |s| ==> s[i] == f[i - |dir| - 1];
    var k := LastIndexOf(s, '/');
    assert k == |dir|;
    assert s[k + 1..] == f;
  }

  /** A single genuine component is its own name. */
  lemma NameOfPlain(s: string)
    requires '/' !in s && s != "" && s != "."
    ensures Name(s) == s
  {
    assert LastIndexOf(s, '/') == -1;
  }

  /** A trailing `/.` does not change the name: pathlib drops the `.` component. */
  lemma NameIgnoresTrailingDot(s: string)
    ensures Name(s + "/.") == Name(s)
  {
    var t := s + "/.";
    assert t[..|t| - 1] == s + "/";
    assert LastIndexOf(s + "/", '/') == |s|;
    assert LastIndexOf(t, '/') == |s|;
    assert t[|s| + 1..] == ".";
    assert t[..|s|] == s;
  }

  /** A trailing separator does not change the name. */
  lemma NameIgnoresTrailingSlash(s: string)
    ensures Name(s + "/") == Name(s)
  {
    var t := s + "/";
    assert LastIndexOf(t, '/') == |s|;
    assert t[..|s|] == s;
  }

  /**
   * `Path(name).stem`: `name` without its last suffix, as pathlib defines the
   * suffix up to Python 3.13: the last dot starts a suffix only when it is
   * neither the first nor the last character (from 3.14 a trailing dot is a
   * suffix too).
   */
  function Stem(name: string): (stem: string)
    ensures stem <= name
  {
    var i := LastIndexOf(name, '.');
    if 0 < i < |name| - 1 then name[..i] else name
  }

  /** A name without a dot is its own stem. */
  lemma StemOfPlain(name: string)
    requires '.' !in name
    ensures Stem(name) == name
  {
    assert LastIndexOf(name, '.') == -1;
  }

  /** A name whose only dot is its first character, like `.mp3`, is its own stem. */
  lemma StemOfHidden(name: string)
    requires |name| >= 1 && name[0] == '.' && '.' !in name[1..]
    ensures Stem(name) == name
  {
    forall k | 0 < k < |name|
      ensures name[k] != '.'
    {
      assert name[k] == name[1..][k - 1];
    }
  }

  /** The stem of `stem.ext` is `stem` when `ext` is a real suffix. */
  lemma StemDropsSuffix(stem: string, ext: string)
    requires stem != [] && ext != [] && '.' !in ext
    ensures Stem(stem + "." + ext) == stem
  {
    var s := stem + "." + ext;
    assert s[|stem|] == '.';
    assert forall k :: |stem| < k < |s| ==> s[k] == ext[k - |stem| - 1];
    var i := LastIndexOf(s, '.');
    assert i == |stem|;
    assert s[..i] == stem;
  }

  /** `Path(path).stem`, the base of the chunk file names. */
  function BaseName(path: string): string
  {
    Stem(Name(path))
  }

  /** `TEMP_DIR / f"{base}_chunk_{i:03d}.mp3"`: where chunk `i` of a file with stem `base` is exported. */
  function ChunkPath(base: string, i: nat): string
  {
    InTemp(base + "_chunk_" + Format03(i) + ".mp3")
  }

  lemma MiddleEqual(pre: string, x: string, y: string, suf: string)
    requires pre + x + suf == pre + y + suf
    ensures x == y
  {
    var s, t := pre + x + suf, pre + y + suf;
    assert |x| == |y|;
    assert x == s[|pre|..|pre| + |x|];
    assert y == t[|pre|..|pre| + |y|];
  }

  /** Chunks of one file never share a path, so no export overwrites an earlier chunk. */
  lemma ChunkPathInjective(base: string, i: nat, j: nat)
    requires ChunkPath(base, i) == ChunkPath(base, j)
    ensures i == j
  {
    var pre := TempDir + "/" + base + "_chunk_";
    var fi, fj := Format03(i), Format03(j);
    assert ChunkPath(base, i) == pre + fi + ".mp3";
    assert ChunkPath(base, j) == pre + fj + ".mp3";
    MiddleEqual(pre, fi, fj, ".mp3");
    Format03Injective(i, j);
  }

  /** The chunk files of `downloads/talk.mp3` are named after its stem `talk`. */
  lemma BaseNameExample()
    ensures BaseName("downloads/talk.mp3") == "talk"
  {
    assert "downloads/talk.mp3" == "downloads" + "/" + "talk.mp3";
    NameOfChild("downloads", "talk.mp3");
    assert "talk.mp3" == "talk" + "." + "mp3";
    StemDropsSuffix("talk", "mp3");
  }

  /** Chunk 7 of `talk` goes to `temp/talk_chunk_007.mp3`. */
  lemma ChunkPathExample()
    ensures ChunkPath("talk", 7) == InTemp("talk" + "_chunk_" + "007" + ".mp3")
  {
    assert Decimal(7) == "7";
    assert Zeros(2) == "00";
  }

}
