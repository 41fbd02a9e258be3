/**
 * The remote transcription model, seen from the caller: a file is opened and
 * sent, and the call returns a stream of text tokens, nothing, or raises.
 */
module Service {
  import opened Storage
  import opened Text

  /** What one call of `replicate.run` gives back. */
  datatype Outcome =
      /** The call returned `None`. */
    | NoOutput
      /** The streamed text tokens, in order. */
    | Tokens(tokens: seq<string>)
      /** The call raised an exception other than `TranscriptionError`; `cause` is `str(e)`. */
    | Threw(cause: string)

  /**
   * The remote model, as an oracle: what the call for the file at `path` gives on
   * attempt `n` (numbered from 1).
   */
  type Remote = (string, nat) -> Outcome

  /** What `str(e)` of a `FileNotFoundError` shows before the file name. */
  const NoSuchFilePrefix := "[Errno 2] No such file or directory: "

  /**
   * `str(e)` of the `FileNotFoundError` raised by `open(path, "rb")` for a
   * missing file: the fixed text, then `repr(path)`, from which the path can be
   * read back.
   */
  function NoSuchFile(path: string): (m: string)
    ensures |m| >= |NoSuchFilePrefix| + |path| + 2 && m[..|NoSuchFilePrefix|] == NoSuchFilePrefix
    ensures m[|NoSuchFilePrefix|] == m[|m| - 1] == QuoteFor(path)
    ensures Unescape(m[|NoSuchFilePrefix| + 1..|m| - 1]) == path
  {
    var q := QuoteFor(path);
    var m := NoSuchFilePrefix + Repr(path);
    assert m[|NoSuchFilePrefix| + 1..|m| - 1] == Escape(path, q);
    EscapeRoundTrip(path, q);
    m
  }

  /**
   * One attempt: open the file, then call the model with it. A missing file
   * raises before the model is called.
   */
  function Call(files: map<string, Blob>, remote: Remote, path: string, attempt: nat): (o: Outcome)
    ensures path !in files ==> o == Threw(NoSuchFile(path))
    ensures path in files ==> o == remote(path, attempt)
  {
    if path in files then remote(path, attempt) else Threw(NoSuchFile(path))
  }
}
