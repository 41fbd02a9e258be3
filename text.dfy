/**
 * The handful of Python string operations the pipeline relies on:
 * `str.isspace`, `str.rstrip()`, `str.strip() == ""`, `len(str.split())`,
 * `"".join`, `sep.join`, the `{i:03d}` format of chunk indices and `repr` of a
 * string, as an exception message shows a file name.
 */
module Text {

  /** Python's `str.isspace`: the Unicode white-space code points. */
  predicate IsSpace(c: char)
  {
    ('\t' <= c <= '\r') || ('\U{1C}' <= c <= ' ') || c == '\U{85}' || c == '\U{A0}' ||
    c == '\U{1680}' || ('\U{2000}' <= c <= '\U{200A}') || c == '\U{2028}' || c == '\U{2029}' ||
    c == '\U{202F}' || c == '\U{205F}' || c == '\U{3000}'
  }

  /** `s.strip() == ""`: every character is white space. */
  predicate IsBlank(s: string)
  {
    forall i :: 0 <= i < |s| ==> IsSpace(s[i])
  }

  /** `s.rstrip()`: the longest prefix of `s` that does not end in white space. */
  function RStrip(s: string): (r: string)
    ensures r <= s
    ensures r == [] || !IsSpace(r[|r| - 1])
    ensures IsBlank(s[|r|..])
  {
    if s == [] || !IsSpace(s[|s| - 1]) then s
    else
      var r := RStrip(s[..|s| - 1]);
      assert s[|r|..] == s[..|s| - 1][|r|..] + [s[|s| - 1]];
      r
  }

  /** Stripping trailing white space leaves nothing exactly when the text is blank. */
  lemma {:induction false} RStripEmptyIffBlank(s: string)
    ensures RStrip(s) == [] <==> IsBlank(s)
  {
    if s != [] && IsSpace(s[|s| - 1]) {
      RStripEmptyIffBlank(s[..|s| - 1]);
      assert IsBlank(s) <==> IsBlank(s[..|s| - 1]) by {
        if IsBlank(s[..|s| - 1]) {
          forall i | 0 <= i < |s| ensures IsSpace(s[i]) {
            if i < |s| - 1 { assert s[i] == s[..|s| - 1][i]; }
          }
        }
        if IsBlank(s) {
          var p := s[..|s| - 1];
          forall i | 0 <= i < |p| ensures IsSpace(p[i]) {
            assert p[i] == s[i];
          }
        }
      }
    }
  }

  /** Trailing white space never changes what `rstrip` keeps. */
  lemma {:induction false} RStripIgnoresTrailingSpace(s: string, w: string)
    requires IsBlank(w)
    ensures RStrip(s + w) == RStrip(s)
    decreases |w|
  {
    if w != [] {
      var w' := w[..|w| - 1];
      assert (s + w)[..|s + w| - 1] == s + w';
      assert (s + w)[|s + w| - 1] == w[|w| - 1];
      assert IsSpace(w[|w| - 1]);
      assert IsBlank(w') by {
        forall i | 0 <= i < |w'| ensures IsSpace(w'[i]) { assert w'[i] == w[i]; }
      }
      RStripIgnoresTrailingSpace(s, w');
    } else {
      assert s + w == s;
    }
  }

  /** A word starts at index `i` of `s`: a non-space character after a space or the start. */
  predicate WordStart(s: string, i: nat)
    requires i < |s|
  {
    !IsSpace(s[i]) && (i == 0 || IsSpace(s[i - 1]))
  }

  /** `len(s.split())`: the number of maximal runs of non-space characters. */
  function WordCount(s: string): nat
  {
    if s == [] then 0
    else WordCount(s[..|s| - 1]) + (if WordStart(s, |s| - 1) then 1 else 0)
  }

  /** `s.split()` is empty exactly when `s` is blank. */
  lemma {:induction false} WordCountZeroIffBlank(s: string)
    ensures WordCount(s) == 0 <==> IsBlank(s)
  {
    if s != [] {
      var p := s[..|s| - 1];
      WordCountZeroIffBlank(p);
      assert forall i :: 0 <= i < |p| ==> p[i] == s[i];
      if !IsBlank(p) {
        var j :| 0 <= j < |p| && !IsSpace(p[j]);
        assert !IsSpace(s[j]);
      } else if !IsSpace(s[|s| - 1]) {
        assert WordStart(s, |s| - 1);
      }
    }
  }

  /** Appending white space adds no word. */
  lemma {:induction false} WordCountIgnoresTrailingSpace(s: string, w: string)
    requires IsBlank(w)
    ensures WordCount(s + w) == WordCount(s)
    decreases |w|
  {
    if w != [] {
      var w' := w[..|w| - 1];
      assert (s + w)[..|s + w| - 1] == s + w';
      assert (s + w)[|s + w| - 1] == w[|w| - 1];
      assert IsSpace(w[|w| - 1]);
      assert IsBlank(w') by {
        forall i | 0 <= i < |w'| ensures IsSpace(w'[i]) { assert w'[i] == w[i]; }
      }
      WordCountIgnoresTrailingSpace(s, w');
    } else {
      assert s + w == s;
    }
  }

  /** Word counts add up across a boundary that falls on white space. */
  lemma {:induction false} WordCountAppend(s: string, t: string)
    requires t != [] && IsSpace(t[0])
    ensures WordCount(s + t) == WordCount(s) + WordCount(t)
    decreases |t|
  {
    var st := s + t;
    var last := |st| - 1;
    assert st[..last] == s + t[..|t| - 1];
    if |t| == 1 {
      assert s + t[..0] == s;
      assert !WordStart(st, last) && !WordStart(t, 0);
      assert WordCount(t) == WordCount(t[..0]);
    } else {
      WordCountAppend(s, t[..|t| - 1]);
      assert st[last] == t[|t| - 1] && st[last - 1] == t[|t| - 2];
      assert WordStart(st, last) == WordStart(t, |t| - 1);
    }
  }

  /** Appending a non-space character to a text ending in a word extends that word. */
  lemma WordCountExtendsWord(s: string, c: char)
    requires s != [] && !IsSpace(s[|s| - 1]) && !IsSpace(c)
    ensures WordCount(s + [c]) == WordCount(s)
  {
    assert (s + [c])[..|s|] == s;
  }

  /** `"".join(parts)`: the parts one after another, in order. */
  function Concat(parts: seq<string>): string
  {
    if parts == [] then "" else parts[0] + Concat(parts[1..])
  }

  /** Joining is compatible with splitting the list of parts anywhere. */
  lemma {:induction false} ConcatAppend(a: seq<string>, b: seq<string>)
    ensures Concat(a + b) == Concat(a) + Concat(b)
  {
    if a != [] {
      assert (a + b)[1..] == a[1..] + b;
      ConcatAppend(a[1..], b);
    } else {
      assert a + b == b;
    }
  }

  /** `sep.join(parts)`: the parts in order, with `sep` between neighbours. */
  function Join(sep: string, parts: seq<string>): string
  {
    if parts == [] then ""
    else if |parts| == 1 then parts[0]
    else Join(sep, parts[..|parts| - 1]) + sep + parts[|parts| - 1]
  }

  /** The decimal digit of a value below ten. */
  function Digit(d: nat): (c: char)
    requires d < 10
    ensures '0' <= c <= '9'
  {
    "0123456789"[d]
  }

  predicate IsDigits(s: string)
  {
    forall i :: 0 <= i < |s| ==> '0' <= s[i] <= '9'
  }

  /** `str(n)`: the decimal numeral of `n`, without leading zeros. */
  function Decimal(n: nat): (s: string)
    ensures |s| >= 1 && IsDigits(s)
    ensures n < 10 ==> |s| == 1
    ensures n < 100 ==> |s| <= 2
    ensures n < 1000 ==> |s| <= 3
  {
    if n < 10 then [Digit(n)] else Decimal(n / 10) + [Digit(n % 10)]
  }

  /** The value of a string of decimal digits; leading zeros are allowed. */
  function DigitsValue(s: string): nat
    requires IsDigits(s)
  {
    if s == [] then 0
    else 10 * DigitsValue(s[..|s| - 1]) + (s[|s| - 1] as int - '0' as int)
  }

  /** `{n:03d}`: the decimal numeral of `n`, padded with zeros to at least three digits. */
  function Format03(n: nat): (s: string)
    ensures |s| >= 3 && IsDigits(s)
    ensures n < 1000 ==> |s| == 3
  {
    var d := Decimal(n);
    if |d| < 3 then Zeros(3 - |d|) + d else d
  }

  function Zeros(k: nat): (z: string)
    ensures |z| == k && IsDigits(z)
  {
    if k == 0 then "" else "0" + Zeros(k - 1)
  }

  lemma {:induction false} DecimalValue(n: nat)
    ensures DigitsValue(Decimal(n)) == n
  {
    if n < 10 {
      assert "0123456789"[n] as int - '0' as int == n;
    } else {
      var d := Decimal(n);
      assert d[..|d| - 1] == Decimal(n / 10);
      DecimalValue(n / 10);
      assert "0123456789"[n % 10] as int - '0' as int == n % 10;
    }
  }

  lemma {:induction false} ZerosValue(k: nat)
    ensures DigitsValue(Zeros(k)) == 0
  {
    if k > 0 {
      ZerosSnoc(k - 1);
      var z := Zeros(k);
      assert z[..k - 1] == Zeros(k - 1) && z[k - 1] == '0';
      ZerosValue(k - 1);
    }
  }

  lemma {:induction false} LeadingZerosValue(k: nat, s: string)
    requires IsDigits(s)
    ensures DigitsValue(Zeros(k) + s) == DigitsValue(s)
    decreases |s|
  {
    if s == [] {
      assert Zeros(k) + s == Zeros(k);
      ZerosValue(k);
    } else {
      var p := s[..|s| - 1];
      var zs := Zeros(k) + s;
      assert zs[..|zs| - 1] == Zeros(k) + p;
      assert zs[|zs| - 1] == s[|s| - 1];
      assert IsDigits(p) by {
        forall i | 0 <= i < |p| ensures '0' <= p[i] <= '9' { assert p[i] == s[i]; }
      }
      LeadingZerosValue(k, p);
    }
  }

  lemma {:induction false} ZerosSnoc(k: nat)
    ensures Zeros(k + 1) == Zeros(k) + "0"
  {
    if k > 0 {
      ZerosSnoc(k - 1);
    }
  }

  /** The three-digit index format reads back as the index: it loses nothing. */
  lemma Format03Value(n: nat)
    ensures DigitsValue(Format03(n)) == n
  {
    DecimalValue(n);
    var d := Decimal(n);
    if |d| < 3 {
      LeadingZerosValue(3 - |d|, d);
    }
  }

  /** Different indices are formatted differently. */
  lemma Format03Injective(m: nat, n: nat)
    requires Format03(m) == Format03(n)
    ensures m == n
  {
    Format03Value(m);
    Format03Value(n);
  }

  /** The quote `repr` puts around `s`: double quotes only when `s` has a single quote and no double quote. */
  function QuoteFor(s: string): (q: char)
    ensures q == '\'' || q == '"'
    ensures q == '"' <==> '\'' in s && '"' !in s
  {
    if '\'' in s && '"' !in s then '"' else '\''
  }

  /** The lower-case hexadecimal digit of a value below sixteen. */
  function HexDigit(d: nat): (c: char)
    requires d < 16
  {
    "0123456789abcdef"[d]
  }

  /** The value of a lower-case hexadecimal digit. */
  function HexValue(c: char): (d: nat)
    ensures d < 16
  {
    if '0' <= c <= '9' then c as int - '0' as int
    else if 'a' <= c <= 'f' then c as int - 'a' as int + 10
    else 0
  }

  /**
   * How `repr` writes one character inside quotes `q`: the quote and the
   * backslash get a backslash, tab, newline and carriage return their short
   * escapes, other ASCII control characters `\xhh`, and the rest stays as is.
   */
  function EscapeChar(c: char, q: char): (e: string)
    ensures 1 <= |e| <= 4
    ensures |e| == 1 <==> e == [c]
  {
    if c == q || c == '\\' then ['\\', c]
    else if c == '\t' then ['\\', 't']
    else if c == '\n' then ['\\', 'n']
    else if c == '\r' then ['\\', 'r']
    else if c < ' ' || c as int == 0x7F then ['\\', 'x', HexDigit(c as int / 16), HexDigit(c as int % 16)]
    else [c]
  }

  /** The characters of `s` as `repr` writes them inside quotes `q`. */
  function Escape(s: string, q: char): (e: string)
    ensures |e| >= |s|
  {
    if s == [] then [] else EscapeChar(s[0], q) + Escape(s[1..], q)
  }

  /** `repr(s)`: the escaped characters of `s` between the quotes `repr` chooses. */
  function Repr(s: string): (r: string)
    ensures |r| >= |s| + 2
    ensures r[0] == QuoteFor(s) && r[|r| - 1] == QuoteFor(s)
  {
    var q := QuoteFor(s);
    [q] + Escape(s, q) + [q]
  }

  /** Reads the inside of a string literal back, for the escapes `repr` writes. */
  function Unescape(e: string): string
    decreases |e|
  {
    if e == [] then []
    else if e[0] == '\\' && |e| >= 2 then
      if e[1] == 't' then ['\t'] + Unescape(e[2..])
      else if e[1] == 'n' then ['\n'] + Unescape(e[2..])
      else if e[1] == 'r' then ['\r'] + Unescape(e[2..])
      else if e[1] == 'x' && |e| >= 4 then [(16 * HexValue(e[2]) + HexValue(e[3])) as char] + Unescape(e[4..])
      else [e[1]] + Unescape(e[2..])
    else [e[0]] + Unescape(e[1..])
  }

  lemma HexRoundTrip(d: nat)
    requires d < 16
    ensures HexValue(HexDigit(d)) == d
  {
  }

  /** One escaped character reads back as itself, whatever follows it. */
  lemma UnescapeChar(c: char, q: char, rest: string)
    requires q == '\'' || q == '"'
    ensures Unescape(EscapeChar(c, q) + rest) == [c] + Unescape(rest)
  {
    var e := EscapeChar(c, q) + rest;
    if |EscapeChar(c, q)| == 4 {
      HexRoundTrip(c as int / 16);
      HexRoundTrip(c as int % 16);
      assert e[4..] == rest;
    } else if |EscapeChar(c, q)| == 2 {
      assert e[2..] == rest;
    } else {
      assert e[1..] == rest;
    }
  }

  /** The characters `repr` writes between the quotes read back as the original string. */
  lemma {:induction false} EscapeRoundTrip(s: string, q: char)
    requires q == '\'' || q == '"'
    ensures Unescape(Escape(s, q)) == s
  {
    if s != [] {
      UnescapeChar(s[0], q, Escape(s[1..], q));
      EscapeRoundTrip(s[1..], q);
    }
  }

  /** Escaping works character by character, so it distributes over concatenation. */
  lemma {:induction false} EscapeAppend(a: string, b: string, q: char)
    ensures Escape(a + b, q) == Escape(a, q) + Escape(b, q)
  {
    if a == [] {
      assert a + b == b;
    } else {
      assert (a + b)[1..] == a[1..] + b;
      EscapeAppend(a[1..], b, q);
    }
  }

  /** A character `repr` writes as it is inside quotes `q`. */
  predicate Plain(c: char, q: char)
  {
    c != q && c != '\\' && ' ' <= c && c as int != 0x7F
  }

  /** A string of plain characters is written unchanged. */
  lemma {:induction false} EscapePlain(s: string, q: char)
    requires forall i :: 0 <= i < |s| ==> Plain(s[i], q)
    ensures Escape(s, q) == s
  {
    if s != [] {
      EscapePlain(s[1..], q);
    }
  }

  /** Without quotes, backslashes or control characters, `repr` puts `s` between single quotes. */
  lemma ReprPlain(s: string)
    requires forall i :: 0 <= i < |s| ==> Plain(s[i], '\'') && s[i] != '"'
    ensures Repr(s) == "'" + s + "'"
  {
    assert '\'' !in s;
    EscapePlain(s, '\'');
  }

  /** A string with a single quote and no double quote goes between double quotes, unescaped. */
  lemma ReprSingleQuoted(s: string)
    requires '\'' in s
    requires forall i :: 0 <= i < |s| ==> Plain(s[i], '"')
    ensures Repr(s) == "\"" + s + "\""
  {
    assert '"' !in s;
    EscapePlain(s, '"');
  }


  /** A plain name goes between single quotes. */
  lemma ReprExample()
    ensures Repr("talk") == "'talk'"
  {
    ReprPlain("talk");
  }

  /** A name with an apostrophe goes between double quotes, unescaped. */
  lemma ReprApostropheExample()
    ensures Repr("Don't") == "\"Don't\""
  {
    ReprSingleQuoted("Don't");
  }

  /** A backslash is doubled. */
  lemma ReprBackslashExample()
    ensures Repr("a\\b") == "'a\\\\b'"
  {
  }

  /** With both kinds of quote, single quotes are kept and the single quote is escaped. */
  lemma ReprBothQuotesExample()
    ensures Repr("'\"") == "'\\'\"'"
  {
  }
}
