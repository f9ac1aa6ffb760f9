/**
  The parts of Python's `os.path` (POSIX flavour) that the path mapper relies on:
  splitting a path into components, `relpath`, `join`, and the final separator
  rewrite `str.replace(os.sep, "/")`. The native separator `sep` is a parameter,
  so the same definitions describe a host whose `os.sep` is a backslash.
*/
module OsPath {

  /** The values `os.sep` takes: '/' on POSIX hosts, '\\' on Windows. */
  predicate IsSep(sep: char)
  {
    sep == '/' || sep == '\\'
  }

  /** A path component: non-empty and free of separators. */
  predicate IsName(c: string, sep: char)
  {
    c != [] && sep !in c
  }

  /** A component that normalisation keeps: neither "." nor "..". */
  predicate IsPlainName(c: string, sep: char)
  {
    IsName(c, sep) && c != "." && c != ".."
  }

  /** Index of the first separator in `s`, or `|s|` when there is none. */
  function SepIndex(s: string, sep: char): (n: nat)
    ensures n <= |s|
    ensures forall i :: 0 <= i < n ==> s[i] != sep
    ensures n < |s| ==> s[n] == sep
  {
    if s == [] || s[0] == sep then 0 else 1 + SepIndex(s[1..], sep)
  }

  /**
    The components of `s`: the pieces between separators with the empty ones
    dropped, as `[x for x in s.split(sep) if x]` computes them inside `relpath`.
  */
  function Components(s: string, sep: char): (cs: seq<string>)
    ensures forall c :: c in cs ==> IsName(c, sep)
    decreases |s|
  {
    if s == [] then []
    else if s[0] == sep then Components(s[1..], sep)
    else
      var n := SepIndex(s, sep);
      assert n > 0;
      [s[..n]] + Components(s[n..], sep)
  }

  /** `sep c1 sep c2 ... sep cn`: every component preceded by one separator. */
  function Rooted(cs: seq<string>, sep: char): string
  {
    if cs == [] then [] else [sep] + cs[0] + Rooted(cs[1..], sep)
  }

  /** `sep.join(cs)`: the components with a single separator between neighbours. */
  function JoinAll(cs: seq<string>, sep: char): string
  {
    if cs == [] then []
    else if |cs| == 1 then cs[0]
    else cs[0] + [sep] + JoinAll(cs[1..], sep)
  }

  /** The absolute path with the given components; the root when there are none. */
  function AbsPath(cs: seq<string>, sep: char): string
  {
    if cs == [] then [sep] else Rooted(cs, sep)
  }

  /**
    A path that `os.path.abspath` leaves unchanged: absolute, built from its own
    components with single separators and no trailing one, and with no "." or
    ".." component.
  */
  predicate Normalized(p: string, sep: char)
  {
    var cs := Components(p, sep);
    p == AbsPath(cs, sep) && forall c :: c in cs ==> c != "." && c != ".."
  }

  /** Length of the longest common prefix of two component lists (`os.path.commonprefix`). */
  function CommonPrefixLength(a: seq<string>, b: seq<string>): (n: nat)
    ensures n <= |a| && n <= |b|
    ensures a[..n] == b[..n]
    ensures n < |a| && n < |b| ==> a[n] != b[n]
  {
    if a == [] || b == [] || a[0] != b[0] then 0
    else 1 + CommonPrefixLength(a[1..], b[1..])
  }

  /** The component list `relpath` joins: one ".." per unshared component of `start`, then the rest of `path`. */
  function RelComponents(path: string, start: string, sep: char): seq<string>
  {
    var pl := Components(path, sep);
    var sl := Components(start, sep);
    var i := CommonPrefixLength(sl, pl);
    seq(|sl| - i, _ => "..") + pl[i..]
  }

  /**
    `os.path.relpath(path, start)` for absolute, normalised arguments: the
    components joined by the separator, or "." when there are none. The result
    is never empty and never begins with a separator.
  */
  function RelPath(path: string, start: string, sep: char): (r: string)
    requires IsSep(sep)
    ensures r != [] && r[0] != sep
  {
    var rel := RelComponents(path, start, sep);
    if rel == [] then "."
    else
      assert IsName(rel[0], sep) by {
        var pl := Components(path, sep);
        var sl := Components(start, sep);
        var i := CommonPrefixLength(sl, pl);
        if |sl| - i == 0 { assert rel[0] == pl[i] && pl[i] in pl; }
      }
      JoinAllStart(rel, sep);
      JoinAll(rel, sep)
  }

  /**
    `os.path.join(a, b)`: an absolute `b` replaces `a`; otherwise the result
    extends `a` by `b`, with a separator added only when `a` is non-empty and
    does not end with one. `JoinComponents` states what the result means.
  */
  function Join(a: string, b: string, sep: char): (r: string)
    ensures b != [] && b[0] == sep ==> r == b
    ensures (b == [] || b[0] != sep) ==> a <= r
  {
    if b != [] && b[0] == sep then b
    else if a == [] || a[|a| - 1] == sep then a + b
    else a + [sep] + b
  }

  /** `s.replace(sep, "/")`: every native separator becomes '/', every other character is kept in place. */
  function ToPosix(s: string, sep: char): (r: string)
    ensures |r| == |s|
    ensures forall i :: 0 <= i < |s| && s[i] != sep ==> r[i] == s[i]
    ensures forall i :: 0 <= i < |s| && s[i] == sep ==> r[i] == '/'
    ensures sep != '/' ==> sep !in r
  {
    if s == [] then [] else [if s[0] == sep then '/' else s[0]] + ToPosix(s[1..], sep)
  }

  // ----- lemmas -----

  lemma JoinAllStart(cs: seq<string>, sep: char)
    requires cs != [] && cs[0] != []
    ensures JoinAll(cs, sep) != [] && JoinAll(cs, sep)[0] == cs[0][0]
  {
  }

  /** `SepIndex` stops at the end of a separator-free prefix that is followed by a separator or by nothing. */
  lemma SepIndexAfterName(c: string, t: string, sep: char)
    requires sep !in c
    requires t == [] || t[0] == sep
    ensures SepIndex(c + t, sep) == |c|
  {
    assert forall i :: 0 <= i < |c| ==> (c + t)[i] == c[i];
    assert t != [] ==> (c + t)[|c|] == t[0];
  }

  /** Appending to a string that already holds a separator does not move its first separator. */
  lemma {:induction false} SepIndexAppend(a: string, b: string, sep: char)
    requires sep in a
    ensures SepIndex(a + b, sep) == SepIndex(a, sep)
  {
    assert (a + b)[0] == a[0];
    if a[0] != sep {
      assert (a + b)[1..] == a[1..] + b;
      SepIndexAppend(a[1..], b, sep);
    }
  }

  /** Splitting is compositional at a separator: the pieces of `a` and then those of `b`. */
  lemma {:induction false} ComponentsAppend(a: string, b: string, sep: char)
    requires a == [] || a[|a| - 1] == sep
    ensures Components(a + b, sep) == Components(a, sep) + Components(b, sep)
    decreases |a|
  {
    if a == [] {
      assert a + b == b;
    } else if a[0] == sep {
      assert (a + b)[0] == sep;
      assert (a + b)[1..] == a[1..] + b;
      ComponentsAppend(a[1..], b, sep);
    } else {
      var ab, n := a + b, SepIndex(a, sep);
      assert n < |a| by { assert a[|a| - 1] == sep; }
      assert a[n] in a;
      SepIndexAppend(a, b, sep);
      assert ab[0] == a[0];
      assert Components(ab, sep) == [ab[..n]] + Components(ab[n..], sep);
      assert ab[..n] == a[..n];
      var t := a[n..];
      assert ab[n..] == t + b;
      assert t[|t| - 1] == sep;
      ComponentsAppend(t, b, sep);
    }
  }

  /** A trailing separator adds no component. */
  lemma {:induction false} ComponentsTrailingSep(a: string, sep: char)
    ensures Components(a + [sep], sep) == Components(a, sep)
    decreases |a|
  {
    var s := a + [sep];
    if a == [] {
      assert s[1..] == [];
    } else if a[0] == sep {
      assert s[0] == sep;
      assert s[1..] == a[1..] + [sep];
      ComponentsTrailingSep(a[1..], sep);
    } else {
      assert s[0] == a[0];
      var n := SepIndex(a, sep);
      if n == |a| {
        SepIndexAfterName(a, [sep], sep);
        assert s[..n] == a && s[n..] == [sep];
        assert [sep][1..] == [];
        assert a[..n] == a && a[n..] == [];
      } else {
        assert a[n] in a;
        SepIndexAppend(a, [sep], sep);
        assert s[..n] == a[..n];
        assert s[n..] == a[n..] + [sep];
        ComponentsTrailingSep(a[n..], sep);
      }
    }
  }

  /**
    Joining a relative `b` onto `a` gives the components of `a` followed by
    those of `b`, whether or not a separator had to be added.
  */
  lemma JoinComponents(a: string, b: string, sep: char)
    requires b == [] || b[0] != sep
    ensures Components(Join(a, b, sep), sep) == Components(a, sep) + Components(b, sep)
  {
    if a == [] || a[|a| - 1] == sep {
      ComponentsAppend(a, b, sep);
    } else {
      ComponentsTrailingSep(a, sep);
      ComponentsAppend(a + [sep], b, sep);
    }
  }

  /** Splitting a rooted path gives back its components. */
  lemma {:induction false} ComponentsOfRooted(cs: seq<string>, sep: char)
    requires forall c :: c in cs ==> IsName(c, sep)
    ensures Components(Rooted(cs, sep), sep) == cs
  {
    if cs != [] {
      var c, rest := cs[0], cs[1..];
      assert c in cs;
      var tail := Rooted(rest, sep);
      var s := Rooted(cs, sep);
      assert s == [sep] + (c + tail);
      assert s[1..] == c + tail;
      assert tail == [] || tail[0] == sep;
      SepIndexAfterName(c, tail, sep);
      assert (c + tail)[0] == c[0];
      assert (c + tail)[..|c|] == c;
      assert (c + tail)[|c|..] == tail;
      assert forall x :: x in rest ==> x in cs;
      ComponentsOfRooted(rest, sep);
    }
  }

  /** Splitting an absolute path gives back its components. */
  lemma ComponentsOfAbsPath(cs: seq<string>, sep: char)
    requires forall c :: c in cs ==> IsName(c, sep)
    ensures Components(AbsPath(cs, sep), sep) == cs
  {
    if cs == [] {
      assert AbsPath(cs, sep)[1..] == [];
    } else {
      ComponentsOfRooted(cs, sep);
    }
  }

  /** An absolute path built from plain components is normalised. */
  lemma NormalizedAbsPath(cs: seq<string>, sep: char)
    requires forall c :: c in cs ==> IsPlainName(c, sep)
    ensures Normalized(AbsPath(cs, sep), sep)
  {
    ComponentsOfAbsPath(cs, sep);
  }

  /** A normalised path is the absolute path of its own components. */
  lemma NormalizedComponents(p: string, sep: char)
    requires Normalized(p, sep)
    ensures forall c :: c in Components(p, sep) ==> IsPlainName(c, sep)
    ensures p == AbsPath(Components(p, sep), sep)
  {
  }

  lemma {:induction false} RootedAppend(a: seq<string>, b: seq<string>, sep: char)
    ensures Rooted(a + b, sep) == Rooted(a, sep) + Rooted(b, sep)
  {
    if a != [] {
      assert (a + b)[0] == a[0];
      assert (a + b)[1..] == a[1..] + b;
      RootedAppend(a[1..], b, sep);
    } else {
      assert a + b == b;
    }
  }

  lemma {:induction false} RootedIsJoinAll(cs: seq<string>, sep: char)
    requires cs != []
    ensures Rooted(cs, sep) == [sep] + JoinAll(cs, sep)
  {
    if |cs| > 1 {
      RootedIsJoinAll(cs[1..], sep);
    } else {
      assert cs[1..] == [];
    }
  }

  lemma {:induction false} ToPosixAppend(a: string, b: string, sep: char)
    ensures ToPosix(a + b, sep) == ToPosix(a, sep) + ToPosix(b, sep)
  {
    var l, r := ToPosix(a + b, sep), ToPosix(a, sep) + ToPosix(b, sep);
    assert |l| == |r|;
    forall i | 0 <= i < |l| ensures l[i] == r[i] {
      if i < |a| { assert (a + b)[i] == a[i]; } else { assert (a + b)[i] == b[i - |a|]; }
    }
  }
}
