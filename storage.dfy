/**
 * The part of the file system the pipeline touches: audio files it decodes,
 * chunk files it exports, and the removal of those chunk files.
 */
module Storage {
  import opened Wrappers

  /** What a path holds: audio of a known length, or bytes no decoder accepts. */
  datatype Blob = Audio(lengthMs: nat) | Undecodable

  /** `len(AudioSegment.from_file(path))`: the length in ms, or None when decoding fails. */
  function Decode(files: map<string, Blob>, path: string): (d: Option<nat>)
    ensures d.Some? <==> path in files && files[path].Audio?
    ensures d.Some? ==> d.value == files[path].lengthMs
  {
    if path in files && files[path].Audio? then Some(files[path].lengthMs) else None
  }

  /**
   * A file system: the files present, and the paths whose removal the operating
   * system refuses with an `OSError` (permissions, a directory, ...).
   */
  class FileStore {
    var files: map<string, Blob>
    const refused: set<string>

    constructor (files: map<string, Blob>, refused: set<string>)
      ensures this.files == files && this.refused == refused
    {
      this.files := files;
      this.refused := refused;
    }

    /** `os.path.exists(path)`. */
    predicate Exists(path: string)
      reads this
    {
      path in files
    }

    /** `segment.export(path)`: creates or overwrites `path` with audio of the given length. */
    method Export(path: string, lengthMs: nat)
      modifies this
      ensures files == old(files)[path := Audio(lengthMs)]
    {
      files := files[path := Audio(lengthMs)];
    }

    /** `os.remove(path)`; `ok` is false where Python raises `OSError` (missing or refused path). */
    method Remove(path: string) returns (ok: bool)
      modifies this
      ensures ok <==> path in old(files) && path !in refused
      ensures files == if ok then old(files) - {path} else old(files)
    {
      ok := path in files && path !in refused;
      if ok {
        files := files - {path};
      }
    }
  }
}
