/**
 * The names downloads are saved under: the file name taken from a direct URL,
 * and the `.mp3` path of a YouTube download after audio extraction. The network
 * transfers themselves are not part of this model.
 */
module Downloader {
  import opened Paths

  /** `s.split(c)[0]`: everything before the first `c`, or all of `s` when there is none. */
  function BeforeFirst(s: string, c: char): (r: string)
    ensures r <= s && c !in r
    ensures c in s ==> |r| < |s| && s[|r|] == c
    ensures c !in s ==> r == s
  {
    if s == [] then []
    else if s[0] == c then []
    else [s[0]] + BeforeFirst(s[1..], c)
  }

  /** Text after the first separator does not matter; text before it is kept whole. */
  lemma {:induction false} BeforeFirstAppend(u: string, t: string, c: char)
    ensures c in u ==> BeforeFirst(u + t, c) == BeforeFirst(u, c)
    ensures c !in u ==> BeforeFirst(u + t, c) == u + BeforeFirst(t, c)
  {
    if u != [] {
      assert (u + t)[0] == u[0] && (u + t)[1..] == u[1..] + t;
      BeforeFirstAppend(u[1..], t, c);
      if u[0] != c {
        assert c in u ==> c in u[1..];
      }
    } else {
      assert u + t == t;
    }
  }

  /** `url.split("?")[0].split("#")[0]`: the URL without its query and fragment. */
  function UrlPath(url: string): (p: string)
    ensures p <= url && '?' !in p && '#' !in p
  {
    BeforeFirst(BeforeFirst(url, '?'), '#')
  }

  /** The name used when the URL path has no last component. */
  const FallbackName: string := "audio_download"

  /**
   * The file name of a direct download: the last component of the URL path,
   * or the fallback name, with `.mp3` appended when it has no `.` at all.
   */
  function UrlFilename(url: string): (f: string)
    ensures '.' in f && '/' !in f && f != "" && f != "."
    ensures '.' in Name(UrlPath(url)) ==> f == Name(UrlPath(url))
    ensures Name(UrlPath(url)) == "" ==> f == FallbackName + ".mp3"
    ensures Name(UrlPath(url)) != "" && '.' !in Name(UrlPath(url)) ==> f == Name(UrlPath(url)) + ".mp3"
  {
    var name := Name(UrlPath(url));
    var filename := if name == "" then FallbackName else name;
    if '.' !in filename then filename + ".mp3" else filename
  }

  /** `TEMP_DIR / filename`: where a direct download is written. */
  function DownloadDestination(url: string): (dest: string)
    ensures |dest| > |TempDir| + 1 && dest[..|TempDir| + 1] == TempDir + "/"
    ensures '/' !in dest[|TempDir| + 1..]
    ensures Name(dest) == UrlFilename(url)
  {
    var f := UrlFilename(url);
    NameOfChild(TempDir, f);
    assert InTemp(f)[|TempDir| + 1..] == f;
    InTemp(f)
  }

  /** A query string does not change the file name. */
  lemma QueryIgnored(url: string, query: string)
    requires '?' !in url
    ensures UrlPath(url + "?" + query) == UrlPath(url)
    ensures UrlFilename(url + "?" + query) == UrlFilename(url)
  {
    var t := "?" + query;
    assert url + "?" + query == url + t;
    assert BeforeFirst(t, '?') == [];
    BeforeFirstAppend(url, t, '?');
    assert BeforeFirst(url + t, '?') == url;
  }

  /** A fragment does not change the file name. */
  lemma FragmentIgnored(url: string, fragment: string)
    requires '#' !in url
    ensures UrlPath(url + "#" + fragment) == UrlPath(url)
    ensures UrlFilename(url + "#" + fragment) == UrlFilename(url)
  {
    var t := "#" + fragment;
    assert url + "#" + fragment == url + t;
    BeforeFirstAppend(url, t, '?');
    if '?' in url {
      var q := BeforeFirst(url, '?');
      assert BeforeFirst(url + t, '?') == q;
      assert '#' !in q;
    } else {
      var rest := BeforeFirst(t, '?');
      assert rest != [] && rest[0] == '#';
      assert BeforeFirst(rest, '#') == [];
      BeforeFirstAppend(url, rest, '#');
      assert BeforeFirst(url + rest, '#') == url;
      assert BeforeFirst(url, '?') == url;
    }
  }

  /**
   * A URL whose path ends in a genuine file name is saved under that name, with
   * `.mp3` added when the name has no extension.
   */
  lemma LastComponentKept(dir: string, f: string)
    requires '/' !in f && f != "" && f != "."
    requires '?' !in dir && '#' !in dir && '?' !in f && '#' !in f
    ensures UrlFilename(dir + "/" + f) == if '.' in f then f else f + ".mp3"
  {
    var url := dir + "/" + f;
    assert '?' !in url && '#' !in url;
    NameOfChild(dir, f);
  }

  /** `https://example.com/podcast.mp3` is saved as `temp/podcast.mp3`. */
  lemma PodcastExample()
    ensures DownloadDestination("https://example.com" + "/" + "podcast.mp3") == InTemp("podcast.mp3")
  {
    LastComponentKept("https://example.com", "podcast.mp3");
  }

  /**
   * A URL whose path has no name once the query and fragment are removed (here
   * `/` followed by a query) is saved under the fallback name.
   */
  lemma FallbackExample(query: string)
    ensures UrlFilename("/?" + query) == FallbackName + ".mp3"
  {
    assert "/?" + query == "/" + "?" + query;
    QueryIgnored("/", query);
    assert LastIndexOf("/", '/') == 0;
    assert Name("/") == "";
  }

  /** A trailing `/` on a URL without query or fragment does not change the file name. */
  lemma TrailingSlashIgnored(url: string)
    requires '?' !in url && '#' !in url
    ensures UrlFilename(url + "/") == UrlFilename(url)
  {
    assert '?' !in url + "/" && '#' !in url + "/";
    NameIgnoresTrailingSlash(url);
  }

  /**
   * A URL that is just a host and a slash is named after the host: the name of
   * the path `https://example.com/` is `example.com`, which already has a `.`.
   */
  lemma HostNameExample()
    ensures UrlFilename("https://" + "example.com" + "/") == "example.com"
  {
    var dir, host := "https:/", "example.com";
    assert "https://" + host == dir + "/" + host;
    LastComponentKept(dir, host);
    TrailingSlashIgnored(dir + "/" + host);
  }

  /**
   * `path.rsplit(".", 1)[0] + ".mp3"`: the file yt-dlp wrote, renamed to the
   * `.mp3` the audio extraction produces.
   */
  function Mp3Path(path: string): (p: string)
  {
    var k := LastIndexOf(path, '.');
    if k < 0 then path + ".mp3" else path[..k] + ".mp3"
  }

  /**
   * The result ends in `.mp3` and keeps everything before the last `.` of the
   * original path, or all of it when it has no `.`.
   */
  lemma Mp3PathShape(path: string)
    ensures var p := Mp3Path(path);
      && |p| >= 4 && p[|p| - 4..] == ".mp3"
      && (('.' !in path) ==> p == path + ".mp3")
      && ('.' in path ==> p[..|p| - 4] + path[|p| - 4..] == path && path[|p| - 4] == '.' && '.' !in path[|p| - 3..])
  {
    var k := LastIndexOf(path, '.');
    if '.' in path {
      var i :| 0 <= i < |path| && path[i] == '.';
      assert k >= 0;
      assert path[..k] + path[k..] == path;
    }
  }

  /** Renaming an `.mp3` path again changes nothing. */
  lemma Mp3PathIdempotent(path: string)
    ensures Mp3Path(Mp3Path(path)) == Mp3Path(path)
  {
    var p := Mp3Path(path);
    Mp3PathShape(path);
    var k := LastIndexOf(p, '.');
    assert p[|p| - 4] == '.';
    assert k == |p| - 4;
    assert p[..k] + ".mp3" == p;
  }

  /** `temp/Test Video.webm` becomes `temp/Test Video.mp3`. */
  lemma WebmExample()
    ensures Mp3Path("temp/Test Video.webm") == "temp/Test Video.mp3"
  {
    var s := "temp/Test Video.webm";
    assert s[15] == '.';
    assert LastIndexOf(s, '.') == 15;
  }
}
