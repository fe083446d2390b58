/**
 * The two path operations the servers apply to client-supplied file names, on POSIX:
 * `os.path.basename` and `pathlib.PurePath`'s `name` and `suffix`.
 */
module Paths {
  import opened Text

  /** `os.path.basename`: the longest tail of `p` that holds no '/'. */
  function Basename(p: string): (r: string)
    ensures '/' !in r
    ensures |r| <= |p| && r == p[|p| - |r|..]
    ensures |r| < |p| ==> p[|p| - |r| - 1] == '/'
  {
    if p == [] || p[|p| - 1] == '/' then [] else Basename(p[..|p| - 1]) + [p[|p| - 1]]
  }

  /** A text without '/' is its own basename. */
  lemma {:induction false} BasenameOfName(s: string)
    requires '/' !in s
    ensures Basename(s) == s
  {
    if s != [] {
      assert s[|s| - 1] in s;
      assert '/' !in s[..|s| - 1];
      BasenameOfName(s[..|s| - 1]);
      assert s[..|s| - 1] + [s[|s| - 1]] == s;
    }
  }

  /** The basename of `a/b`, where `b` holds no '/', is `b`. */
  lemma {:induction false} BasenameOfJoin(a: string, b: string)
    requires '/' !in b
    ensures Basename(a + "/" + b) == b
  {
    var p := a + "/" + b;
    if b != [] {
      assert b[|b| - 1] in b;
      assert '/' !in b[..|b| - 1];
      BasenameOfJoin(a, b[..|b| - 1]);
      assert p[..|p| - 1] == a + "/" + b[..|b| - 1];
      assert b[..|b| - 1] + [b[|b| - 1]] == b;
    }
  }

  /** Taking the basename twice changes nothing. */
  lemma BasenameIdempotent(p: string)
    ensures Basename(Basename(p)) == Basename(p)
  {
    BasenameOfName(Basename(p));
  }

  /**
   * `PurePosixPath(p).name`: the last component once the empty components (repeated or
   * trailing slashes) and the `.` components are dropped; the empty string if none is left.
   */
  function PathName(p: string): (r: string)
    ensures '/' !in r && r != "."
    // a plain name is its own name
    ensures '/' !in p && p != "." ==> r == p
    ensures p == "." ==> r == ""
    decreases |p|
  {
    assert '/' !in p ==> Basename(p) == p by {
      if '/' !in p {
        BasenameOfName(p);
      }
    }
    var last := Basename(p);
    if |last| == |p| then
      (if last == "." then "" else last)
    else if last == "" || last == "." then
      PathName(p[..|p| - |last| - 1])
    else
      last
  }

  /** The name of `a/b` is `b` when `b` is a real component: not empty and not `.`. */
  lemma PathNameOfJoin(a: string, b: string)
    requires b != "" && b != "." && '/' !in b
    ensures PathName(a + "/" + b) == b
  {
    BasenameOfJoin(a, b);
  }

  /** An empty component at the end is skipped: `p/` has the name of `p`. */
  lemma PathNameSkipsEmpty(p: string)
    ensures PathName(p + "/") == PathName(p)
  {
    var q := p + "/";
    assert q == p + "/" + "";
    BasenameOfJoin(p, "");
    assert q[..|q| - 1] == p;
  }

  /** A `.` component at the end is skipped: `p/.` has the name of `p`. */
  lemma PathNameSkipsDot(p: string)
    ensures PathName(p + "/.") == PathName(p)
  {
    var q := p + "/.";
    assert q == p + "/" + ".";
    BasenameOfJoin(p, ".");
    var last := Basename(q);
    assert last == "." && |last| < |q|;
    assert q[..|q| - |last| - 1] == p;
  }

  /**
   * The suffix of a single name: from its last dot on, unless that dot is the first or the
   * last character, in which case there is none.
   */
  function NameSuffix(name: string): (r: string)
    ensures r == "" || (|r| >= 2 && r[0] == '.' && forall j :: 1 <= j < |r| ==> r[j] != '.')
    ensures |r| < |name| || r == ""
    ensures r == name[|name| - |r|..]
    // there is a suffix exactly when the last dot is neither the first nor the last character
    ensures r != "" <==> exists i :: 0 < i < |name| - 1 && name[i] == '.'
                                     && forall j :: i < j < |name| ==> name[j] != '.'
  {
    var i := LastIndexOf(name, '.');
    if 0 < i < |name| - 1 then name[i..] else ""
  }

  /** A tail of a text without `c` holds no `c` either. */
  lemma TailLacks(s: string, k: nat, c: char)
    requires k <= |s| && c !in s
    ensures c !in s[k..]
  {
    assert forall j :: 0 <= j < |s| - k ==> s[k..][j] == s[k + j];
  }

  /** `PurePath(p).suffix`: the suffix of the path's name. */
  function Suffix(p: string): (r: string)
    ensures r == "" || (|r| >= 2 && r[0] == '.' && forall j :: 1 <= j < |r| ==> r[j] != '.')
    ensures '/' !in r
    ensures r == NameSuffix(PathName(p))
  {
    var name := PathName(p);
    TailLacks(name, |name| - |NameSuffix(name)|, '/');
    NameSuffix(name)
  }

  /** The last `c` in `a + [c] + b`, where `b` holds no `c`, is the one after `a`. */
  lemma {:induction false} LastIndexOfSplit(a: string, c: char, b: string)
    requires c !in b
    ensures LastIndexOf(a + [c] + b, c) == |a|
  {
    var p := a + [c] + b;
    if b != [] {
      assert p[|p| - 1] == b[|b| - 1];
      assert b[|b| - 1] in b;
      assert c !in b[..|b| - 1];
      LastIndexOfSplit(a, c, b[..|b| - 1]);
      assert p[..|p| - 1] == a + [c] + b[..|b| - 1];
    }
  }

  /** A plain file name `stem.ext` has the suffix `.ext`. */
  lemma {:induction false} SuffixOfPlainName(stem: string, ext: string)
    requires stem != "" && '/' !in stem && ext != "" && '.' !in ext && '/' !in ext
    ensures Suffix(stem + "." + ext) == "." + ext
  {
    var p := stem + ['.'] + ext;
    assert stem + "." + ext == p;
    assert '/' !in p;
    BasenameOfName(p);
    assert |p| >= 3;
    assert PathName(p) == p;
    LastIndexOfSplit(stem, '.', ext);
    assert 0 < |stem| < |p| - 1;
    assert Suffix(p) == p[|stem|..];
    assert p[|stem|..] == ['.'] + ext;
  }
}
