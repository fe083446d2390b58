/**
 * Text helpers shared by the client and the servers: prefix tests, whitespace trimming
 * (JavaScript `String.prototype.trim` and Python `str.strip()` differ only in which code
 * points count as whitespace, so trimming is parameterised by that set) and hex tokens.
 */
module Text {

  /** `s` begins with `prefix` (`startsWith` in JavaScript, `str.startswith` in Python). */
  predicate StartsWith(s: string, prefix: string)
  {
    |prefix| <= |s| && s[..|prefix|] == prefix
  }

  /** `s` starts with `prefix` exactly when it is `prefix` followed by something. */
  lemma StartsWithIff(s: string, prefix: string)
    ensures StartsWith(s, prefix) <==> exists rest :: s == prefix + rest
  {
    if StartsWith(s, prefix) {
      assert s == prefix + s[|prefix|..];
    }
    forall rest | s == prefix + rest
      ensures StartsWith(s, prefix)
    {
      assert s[..|prefix|] == prefix;
    }
  }

  /**
   * The code points JavaScript's `trim()` removes: WhiteSpace (tab, vertical tab, form feed,
   * U+FEFF and the Zs space separators) and LineTerminator (LF, CR, U+2028, U+2029).
   */
  predicate JsWhitespace(c: char)
  {
    c == '\t' || c == '\n' || c == '\U{000B}' || c == '\U{000C}' || c == '\r' || c == ' '
    || c == '\U{00A0}' || c == '\U{1680}' || ('\U{2000}' <= c <= '\U{200A}')
    || c == '\U{2028}' || c == '\U{2029}' || c == '\U{202F}' || c == '\U{205F}'
    || c == '\U{3000}' || c == '\U{FEFF}'
  }

  /**
   * The code points Python's `str.strip()` removes, those for which `str.isspace()` holds:
   * U+0009..U+000D, U+001C..U+001F, space, U+0085, U+00A0 and the Unicode separators.
   * Unlike JavaScript it keeps U+FEFF and removes U+001C..U+001F and U+0085.
   */
  predicate PyWhitespace(c: char)
  {
    ('\t' <= c <= '\r') || ('\U{001C}' <= c <= '\U{001F}') || c == ' '
    || c == '\U{0085}' || c == '\U{00A0}' || c == '\U{1680}' || ('\U{2000}' <= c <= '\U{200A}')
    || c == '\U{2028}' || c == '\U{2029}' || c == '\U{202F}' || c == '\U{205F}'
    || c == '\U{3000}'
  }

  /**
   * The two whitespace sets differ only in U+001C..U+001F and U+0085, which only Python strips,
   * and U+FEFF, which only JavaScript strips.
   */
  lemma WhitespaceSetsDiffer(c: char)
    ensures JsWhitespace(c) && !PyWhitespace(c) <==> c == '\U{FEFF}'
    ensures PyWhitespace(c) && !JsWhitespace(c) <==> '\U{001C}' <= c <= '\U{001F}' || c == '\U{0085}'
  {
  }

  /** Every character of `s` is whitespace. */
  predicate AllWhitespace(s: string, ws: char -> bool)
  {
    forall i :: 0 <= i < |s| ==> ws(s[i])
  }

  /** `s` is whitespace, then `r` starting at index `k`, then whitespace. */
  predicate Surrounds(s: string, k: int, r: string, ws: char -> bool)
  {
    0 <= k && k + |r| <= |s| && r == s[k..k + |r|]
    && AllWhitespace(s[..k], ws) && AllWhitespace(s[k + |r|..], ws)
  }

  /** Neither the first nor the last character of `s` is whitespace. */
  predicate Trimmed(s: string, ws: char -> bool)
  {
    s == [] || (!ws(s[0]) && !ws(s[|s| - 1]))
  }

  /** `s` without its leading whitespace: the longest suffix that does not start with whitespace. */
  function TrimStart(s: string, ws: char -> bool): (r: string)
    ensures |r| <= |s| && r == s[|s| - |r|..]
    ensures AllWhitespace(s[..|s| - |r|], ws)
    ensures r == [] || !ws(r[0])
  {
    if s != [] && ws(s[0]) then TrimStart(s[1..], ws) else s
  }

  /** `s` without its trailing whitespace: the longest prefix that does not end with whitespace. */
  function TrimEnd(s: string, ws: char -> bool): (r: string)
    ensures |r| <= |s| && r == s[..|r|]
    ensures AllWhitespace(s[|r|..], ws)
    ensures r == [] || !ws(r[|r| - 1])
  {
    if s != [] && ws(s[|s| - 1]) then TrimEnd(s[..|s| - 1], ws) else s
  }

  /**
   * `s` with whitespace removed from both ends (`trim()` / `strip()`): the input is leading
   * whitespace, the trimmed text, then trailing whitespace, and the trimmed text has no
   * whitespace at either end.
   */
  function Trim(s: string, ws: char -> bool): (r: string)
    ensures Surrounds(s, |s| - |TrimStart(s, ws)|, r, ws)
    ensures Trimmed(r, ws)
  {
    TrimPartsInfix(s, ws);
    TrimPartsTrimmed(s, ws);
    TrimEnd(TrimStart(s, ws), ws)
  }

  /** The composition `Trim` returns is the input minus leading and trailing whitespace. */
  lemma TrimPartsInfix(s: string, ws: char -> bool)
    ensures Surrounds(s, |s| - |TrimStart(s, ws)|, TrimEnd(TrimStart(s, ws), ws), ws)
  {
    var t := TrimStart(s, ws);
    InfixOfTail(s, t, TrimEnd(t, ws), ws);
  }

  /**
   * A prefix `r` of a tail `t` of `s`, where whitespace is all that lies before `t` and after
   * `r`, is a piece of `s` with whitespace on both sides.
   */
  lemma InfixOfTail(s: string, t: string, r: string, ws: char -> bool)
    requires |t| <= |s| && t == s[|s| - |t|..] && AllWhitespace(s[..|s| - |t|], ws)
    requires |r| <= |t| && r == t[..|r|] && AllWhitespace(t[|r|..], ws)
    ensures Surrounds(s, |s| - |t|, r, ws)
  {
    SliceOfTail(s, |s| - |t|, |r|);
  }

  /** Cutting a tail of `s` at `n` cuts `s` itself at `k + n`. */
  lemma SliceOfTail(s: string, k: nat, n: nat)
    requires k + n <= |s|
    ensures s[k..][..n] == s[k..k + n] && s[k..][n..] == s[k + n..]
  {
  }

  /** The composition `Trim` returns has no whitespace at either end. */
  lemma TrimPartsTrimmed(s: string, ws: char -> bool)
    ensures Trimmed(TrimEnd(TrimStart(s, ws), ws), ws)
  {
    var t := TrimStart(s, ws);
    var r := TrimEnd(t, ws);
    if r != [] {
      assert r[0] == t[0];
    }
  }

  /** Removing leading whitespace commutes with removing trailing whitespace. */
  lemma TrimOrder(s: string, ws: char -> bool)
    ensures Trim(s, ws) == TrimStart(TrimEnd(s, ws), ws)
  {
    TrimStartEndCommute(s, ws);
  }

  /** `TrimOrder` on the composition `Trim` returns, by induction on the leading whitespace. */
  lemma {:induction false} TrimStartEndCommute(s: string, ws: char -> bool)
    ensures TrimEnd(TrimStart(s, ws), ws) == TrimStart(TrimEnd(s, ws), ws)
    decreases |s|
  {
    if s != [] && ws(s[0]) {
      // the leading whitespace character goes first on the left; on the right it either
      // survives TrimEnd and is then stripped, or TrimEnd consumes everything
      TrimStartEndCommute(s[1..], ws);
      TrimEndDropFirst(s, ws);
    } else if s != [] {
      TrimStartKeeps(TrimEnd(s, ws), ws, s[0]);
    }
  }

  /** When `s` starts with whitespace, trimming its end and then its start ignores that character. */
  lemma {:induction false} TrimEndDropFirst(s: string, ws: char -> bool)
    requires s != [] && ws(s[0])
    ensures TrimStart(TrimEnd(s, ws), ws) == TrimStart(TrimEnd(s[1..], ws), ws)
    decreases |s|
  {
    var e := TrimEnd(s, ws);
    if e == [] {
      assert AllWhitespace(s, ws);
      assert AllWhitespace(s[1..], ws) by {
        forall i | 0 <= i < |s| - 1 ensures ws(s[1..][i]) {
          assert s[1..][i] == s[i + 1];
        }
      }
      assert TrimEnd(s[1..], ws) == [] by {
        AllWhitespaceTrimEnd(s[1..], ws);
      }
    } else {
      TrimEndTail(s, ws);
      assert e[0] == s[0];
      assert e[1..] == TrimEnd(s[1..], ws);
    }
  }

  /** A text made only of whitespace loses all of it to `TrimEnd`. */
  lemma {:induction false} AllWhitespaceTrimEnd(s: string, ws: char -> bool)
    requires AllWhitespace(s, ws)
    ensures TrimEnd(s, ws) == []
    decreases |s|
  {
    if s != [] {
      var init := s[..|s| - 1];
      assert AllWhitespace(init, ws) by {
        forall i | 0 <= i < |init| ensures ws(init[i]) {
          assert init[i] == s[i];
        }
      }
      AllWhitespaceTrimEnd(init, ws);
    }
  }

  /** When `TrimEnd` keeps the first character, it trims the rest the same way. */
  lemma {:induction false} TrimEndTail(s: string, ws: char -> bool)
    requires s != [] && TrimEnd(s, ws) != []
    ensures TrimEnd(s, ws)[1..] == TrimEnd(s[1..], ws)
    decreases |s|
  {
    if ws(s[|s| - 1]) {
      var init := s[..|s| - 1];
      assert init != [] by { assert TrimEnd(s, ws) == TrimEnd(init, ws); }
      TrimEndTail(init, ws);
      assert init[1..] == s[1..][..|s[1..]| - 1];
      assert s[1..][|s[1..]| - 1] == s[|s| - 1];
    }
  }

  /** A text that starts with a non-whitespace character `c` keeps it under `TrimStart`. */
  lemma TrimStartKeeps(s: string, ws: char -> bool, c: char)
    requires s != [] ==> s[0] == c
    requires !ws(c)
    ensures TrimStart(s, ws) == s
  {
  }

  /** The trimmed text is empty: JavaScript's `!s.trim()` and Python's `not s.strip()`. */
  predicate Blank(s: string, ws: char -> bool)
  {
    Trim(s, ws) == []
  }

  /** A text made only of whitespace trims to nothing. */
  lemma {:induction false} AllWhitespaceIsBlank(s: string, ws: char -> bool)
    requires AllWhitespace(s, ws)
    ensures Blank(s, ws)
  {
    if s != [] {
      assert AllWhitespace(s[1..], ws);
      AllWhitespaceIsBlank(s[1..], ws);
    }
  }

  /** A text holding a non-whitespace character keeps it after trimming. */
  lemma {:induction false} TextIsNotBlank(s: string, ws: char -> bool, i: nat)
    requires i < |s| && !ws(s[i])
    ensures !Blank(s, ws)
  {
    var t := TrimStart(s, ws);
    var k := |s| - |t|;
    assert forall j :: 0 <= j < k ==> ws(s[j]) by {
      forall j | 0 <= j < k ensures ws(s[j]) {
        assert s[..k][j] == s[j];
      }
    }
    assert t[i - k] == s[i];
    var r := TrimEnd(t, ws);
    assert forall m :: |r| <= m < |t| ==> ws(t[m]) by {
      forall m | |r| <= m < |t| ensures ws(t[m]) {
        assert t[|r|..][m - |r|] == t[m];
      }
    }
  }

  /** A text is blank exactly when all of it is whitespace. */
  lemma BlankIff(s: string, ws: char -> bool)
    ensures Blank(s, ws) <==> AllWhitespace(s, ws)
  {
    if AllWhitespace(s, ws) {
      AllWhitespaceIsBlank(s, ws);
    } else {
      var i :| 0 <= i < |s| && !ws(s[i]);
      TextIsNotBlank(s, ws, i);
    }
  }

  /** A text with no whitespace at either end is its own trim. */
  lemma TrimOfTrimmed(s: string, ws: char -> bool)
    requires Trimmed(s, ws)
    ensures Trim(s, ws) == s
  {
  }

  /** Trimming twice is trimming once. */
  lemma TrimIdempotent(s: string, ws: char -> bool)
    ensures Trim(Trim(s, ws), ws) == Trim(s, ws)
  {
    TrimOfTrimmed(Trim(s, ws), ws);
  }

  /** `s` ends with `suffix` (`endswith`). */
  predicate EndsWith(s: string, suffix: string)
  {
    |suffix| <= |s| && s[|s| - |suffix|..] == suffix
  }

  /** The first index of `c` in `s`, or -1 (`indexOf` / `str.find`). */
  function IndexOf(s: string, c: char): (i: int)
    ensures -1 <= i < |s|
    ensures i >= 0 ==> s[i] == c
    ensures forall j :: 0 <= j < |s| && (i < 0 || j < i) ==> s[j] != c
  {
    if s == [] then -1
    else if s[0] == c then 0
    else var k := IndexOf(s[1..], c); if k < 0 then -1 else k + 1
  }

  /** The last index of `c` in `s`, or -1 (`str.rfind`). */
  function LastIndexOf(s: string, c: char): (i: int)
    ensures -1 <= i < |s|
    ensures i >= 0 ==> s[i] == c
    ensures forall j :: i < j < |s| ==> s[j] != c
  {
    if s == [] then -1
    else if s[|s| - 1] == c then |s| - 1
    else LastIndexOf(s[..|s| - 1], c)
  }

  /** `s` is a token of exactly `n` lower-case hexadecimal digits (`token_hex`, `uuid4().hex`). */
  predicate IsLowerHex(s: string, n: nat)
  {
    |s| == n && forall i :: 0 <= i < |s| ==> s[i] in "0123456789abcdef"
  }

  /** A hex token holds neither a '/' nor a '.'. */
  lemma HexHasNoSeparator(s: string, n: nat)
    requires IsLowerHex(s, n)
    ensures '/' !in s && '.' !in s
  {
    forall i | 0 <= i < |s|
      ensures s[i] != '/' && s[i] != '.'
    {
      assert s[i] in "0123456789abcdef";
    }
  }
}
