/**
  Translation of a local folder path into the path under which the Immich
  server knows the same folder (`map_local_to_immich_path`).
*/
module PathMapping {
  import opened Wrappers
  import opened OsPath
  import opened Settings

  /** The `ValueError` raised for a path that does not start with the local root. */
  datatype MapError = OutsideRoot(localPath: string, localRoot: string)

  /**
    Rejects a path that does not have the local root as a character prefix;
    otherwise joins its path relative to the local root onto the Immich root
    and rewrites native separators to '/'. An accepted path always maps to a
    string that begins with the (rewritten) Immich root and holds no native
    separator.
  */
  function MapLocalToImmich(cfg: Config, localPath: string): (r: Result<string, MapError>)
    requires cfg.Valid() && Normalized(localPath, cfg.sep)
    ensures r.Failure? <==> !(cfg.localRoot <= localPath)
    ensures r.Failure? ==> r.error == OutsideRoot(localPath, cfg.localRoot)
    ensures r.Success? ==> ToPosix(cfg.immichRoot, cfg.sep) <= r.value && |r.value| > |cfg.immichRoot|
    ensures r.Success? && cfg.sep != '/' ==> cfg.sep !in r.value
  {
    if !(cfg.localRoot <= localPath) then
      Failure(OutsideRoot(localPath, cfg.localRoot))
    else
      var rel := RelPath(localPath, cfg.localRoot, cfg.sep);
      var joined := Join(cfg.immichRoot, rel, cfg.sep);
      assert joined == cfg.immichRoot + joined[|cfg.immichRoot|..];
      ToPosixAppend(cfg.immichRoot, joined[|cfg.immichRoot|..], cfg.sep);
      Success(ToPosix(joined, cfg.sep))
  }

  /** `Join(root, tail)` spelled out for a tail that does not begin with a separator. */
  function JoinedOnto(root: string, tail: string, sep: char): string
  {
    if root == [] || root[|root| - 1] == sep then root + tail else root + [sep] + tail
  }

  lemma ComponentListPrefix(c: seq<string>, rest: seq<string>)
    ensures CommonPrefixLength(c, c + rest) == |c|
  {
    assert forall i :: 0 <= i < |c| ==> (c + rest)[i] == c[i];
  }

  /** Relative to the root, a path below it is the list of components it adds. */
  lemma RelUnderRoot(root: string, rel: seq<string>, sep: char)
    requires Normalized(root, sep)
    requires forall c :: c in rel ==> IsPlainName(c, sep)
    ensures var all := Components(root, sep) + rel;
            && Normalized(AbsPath(all, sep), sep)
            && RelComponents(AbsPath(all, sep), root, sep) == rel
  {
    var c := Components(root, sep);
    NormalizedComponents(root, sep);
    var all := c + rel;
    assert forall x :: x in all ==> IsPlainName(x, sep);
    NormalizedAbsPath(all, sep);
    ComponentsOfAbsPath(all, sep);
    ComponentListPrefix(c, rel);
    assert all[|c|..] == rel;
  }

  /** As a string, a path below the root is the root, a separator, and the added components. */
  lemma UnderRootString(root: string, rel: seq<string>, sep: char)
    requires Normalized(root, sep) && rel != []
    ensures AbsPath(Components(root, sep) + rel, sep)
            == (if root == [sep] then [] else root) + [sep] + JoinAll(rel, sep)
  {
    var c := Components(root, sep);
    NormalizedComponents(root, sep);
    RootedAppend(c, rel, sep);
    RootedIsJoinAll(rel, sep);
    if c == [] {
      assert c + rel == rel;
    } else {
      assert c[0] in c;
      assert |root| >= 2;
    }
  }

  /**
    A folder `root sep rel` strictly below the local root (every component of
    `rel` plain, at least one) is accepted and maps to the Immich root joined
    with `rel`, with a separator inserted only when the Immich root does not
    already end with one, then rewritten to '/'.
  */
  lemma MapUnderRoot(cfg: Config, rel: seq<string>)
    requires cfg.Valid()
    requires rel != [] && forall c :: c in rel ==> IsPlainName(c, cfg.sep)
    ensures var sep := cfg.sep;
            var p := AbsPath(Components(cfg.localRoot, sep) + rel, sep);
            && Normalized(p, sep)
            && p == (if cfg.localRoot == [sep] then [] else cfg.localRoot) + [sep] + JoinAll(rel, sep)
            && MapLocalToImmich(cfg, p) == Success(ToPosix(JoinedOnto(cfg.immichRoot, JoinAll(rel, sep), sep), sep))
  {
    var sep := cfg.sep;
    var p := AbsPath(Components(cfg.localRoot, sep) + rel, sep);
    RelUnderRoot(cfg.localRoot, rel, sep);
    UnderRootString(cfg.localRoot, rel, sep);
    assert cfg.localRoot <= p;
    MapAccepted(cfg, p, rel);
  }

  /**
    The local root itself is accepted; `relpath` then yields ".", so the root
    maps to the Immich root joined with ".".
  */
  lemma MapRootItself(cfg: Config)
    requires cfg.Valid()
    ensures MapLocalToImmich(cfg, cfg.localRoot) == Success(ToPosix(JoinedOnto(cfg.immichRoot, ".", cfg.sep), cfg.sep))
  {
    var c := Components(cfg.localRoot, cfg.sep);
    ComponentListPrefix(c, []);
    assert c + [] == c;
    assert RelComponents(cfg.localRoot, cfg.localRoot, cfg.sep) == [];
  }

  /** An accepted path maps to the Immich root joined with the relative component list (when that list is not empty). */
  lemma MapAccepted(cfg: Config, p: string, rel: seq<string>)
    requires cfg.Valid() && Normalized(p, cfg.sep) && cfg.localRoot <= p
    requires rel != [] && RelComponents(p, cfg.localRoot, cfg.sep) == rel
    ensures MapLocalToImmich(cfg, p) == Success(ToPosix(JoinedOnto(cfg.immichRoot, JoinAll(rel, cfg.sep), cfg.sep), cfg.sep))
  {
    var r := RelPath(p, cfg.localRoot, cfg.sep);
    assert r == JoinAll(rel, cfg.sep);
  }

  /** The last character of a normalised path other than the root is not a separator. */
  lemma NormalizedEnd(root: string, sep: char)
    requires Normalized(root, sep) && root != [sep]
    ensures root[|root| - 1] != sep
  {
    var c := Components(root, sep);
    NormalizedComponents(root, sep);
    var init, last := c[..|c| - 1], c[|c| - 1];
    assert c == init + [last];
    assert IsName(last, sep) by { assert last in c; }
    RootedLast(init, last, sep);
    var head := Rooted(init, sep) + [sep];
    assert root == head + last;
    assert root[|root| - 1] == last[|last| - 1];
    assert last[|last| - 1] in last;
  }

  /** A rooted path ends with its last component. */
  lemma RootedLast(init: seq<string>, last: string, sep: char)
    ensures Rooted(init + [last], sep) == Rooted(init, sep) + [sep] + last
  {
    RootedAppend(init, [last], sep);
    assert [last][1..] == [];
  }

  /** A plain name extended by separator-free characters is still plain. */
  lemma ExtendedName(last: string, x: string, sep: char)
    requires IsPlainName(last, sep) && x != [] && sep !in x
    ensures IsPlainName(last + x, sep)
  {
    var s := last + x;
    assert |s| > |last| && s[..|last|] == last;
    if |s| == 2 { assert last == [s[0]]; }
  }

  /** As strings, the sibling path extends the root by `x`. */
  lemma SiblingString(d: seq<string>, last: string, x: string, rest: seq<string>, sep: char)
    ensures Rooted(d + [last + x] + rest, sep) == Rooted(d + [last], sep) + x + Rooted(rest, sep)
  {
    RootedAppend(d, [last], sep);
    RootedAppend(d + [last + x], rest, sep);
    RootedAppend(d, [last + x], sep);
    assert Rooted([last], sep) == [sep] + last;
    assert Rooted([last + x], sep) == [sep] + (last + x);
  }

  /** As component lists, the sibling path shares only the root's parent components. */
  lemma SiblingComponents(d: seq<string>, last: string, x: string, rest: seq<string>)
    requires x != []
    ensures var c, all := d + [last], d + [last + x] + rest;
            && !(c <= all)
            && CommonPrefixLength(c, all) == |d|
            && all[|d|..] == [last + x] + rest
  {
    var c, all := d + [last], d + [last + x] + rest;
    assert all[|d|] == last + x != last;
    assert c[|d|] == last;
    var n := CommonPrefixLength(c, all);
    assert forall i :: 0 <= i < |d| ==> c[i] == all[i];
  }

  /** The sibling path of the root, as a string and as components. */
  lemma SiblingShape(root: string, x: string, rest: seq<string>, sep: char)
    requires Normalized(root, sep) && root != [sep]
    requires x != [] && sep !in x
    requires forall c :: c in rest ==> IsPlainName(c, sep)
    ensures var c := Components(root, sep);
            var all := c[..|c| - 1] + [c[|c| - 1] + x] + rest;
            var p := AbsPath(all, sep);
            && Normalized(p, sep)
            && Components(p, sep) == all
            && p == root + x + Rooted(rest, sep)
  {
    var c := Components(root, sep);
    NormalizedComponents(root, sep);
    var d, last := c[..|c| - 1], c[|c| - 1];
    assert c == d + [last];
    assert last in c;
    var sibling := last + x;
    ExtendedName(last, x, sep);
    var all := d + [sibling] + rest;
    assert forall y :: y in d ==> y in c;
    assert forall y :: y in all ==> y in d || y == sibling || y in rest;
    NormalizedAbsPath(all, sep);
    ComponentsOfAbsPath(all, sep);
    assert root == Rooted(d + [last], sep);
    SiblingString(d, last, x, rest, sep);
  }

  /** The sibling path of the root: normalised, not inside the root, and relative to it `.. sibling rest`. */
  lemma SiblingRelative(cfg: Config, x: string, rest: seq<string>)
    requires cfg.Valid() && cfg.localRoot != [cfg.sep]
    requires x != [] && cfg.sep !in x
    requires forall c :: c in rest ==> IsPlainName(c, cfg.sep)
    ensures var sep := cfg.sep;
            var c := Components(cfg.localRoot, sep);
            var sibling := c[|c| - 1] + x;
            var p := AbsPath(c[..|c| - 1] + [sibling] + rest, sep);
            && Normalized(p, sep)
            && p == cfg.localRoot + x + Rooted(rest, sep)
            && !(c <= Components(p, sep))
            && RelComponents(p, cfg.localRoot, sep) == [".."] + [sibling] + rest
  {
    var sep := cfg.sep;
    var root := cfg.localRoot;
    var c := Components(root, sep);
    NormalizedComponents(root, sep);
    var d, last := c[..|c| - 1], c[|c| - 1];
    assert c == d + [last];
    SiblingShape(root, x, rest, sep);
    SiblingComponents(d, last, x, rest);
    SiblingRelComponents(root, AbsPath(d + [last + x] + rest, sep), d, last, x, rest, sep);
  }

  /** Relative to the root, the sibling path climbs one level and descends into the sibling. */
  lemma SiblingRelComponents(root: string, p: string, d: seq<string>, last: string, x: string, rest: seq<string>, sep: char)
    requires x != []
    requires Components(root, sep) == d + [last]
    requires Components(p, sep) == d + [last + x] + rest
    ensures RelComponents(p, root, sep) == [".."] + [last + x] + rest
  {
    SiblingComponents(d, last, x, rest);
    assert seq(|d + [last]| - |d|, _ => "..") == [".."];
  }

  /**
    The root test compares characters, not components: a sibling folder whose
    name extends the root's last component by `x` passes it, although it is
    not inside the root, and `relpath` then starts the relative part with "..".
  */
  lemma MapSiblingOfRoot(cfg: Config, x: string, rest: seq<string>)
    requires cfg.Valid() && cfg.localRoot != [cfg.sep]
    requires x != [] && cfg.sep !in x
    requires forall c :: c in rest ==> IsPlainName(c, cfg.sep)
    ensures var sep := cfg.sep;
            var c := Components(cfg.localRoot, sep);
            var sibling := c[|c| - 1] + x;
            var p := AbsPath(c[..|c| - 1] + [sibling] + rest, sep);
            && Normalized(p, sep)
            && p == cfg.localRoot + x + Rooted(rest, sep)
            && !(c <= Components(p, sep))
            && MapLocalToImmich(cfg, p)
               == Success(ToPosix(JoinedOnto(cfg.immichRoot, JoinAll([".."] + [sibling] + rest, sep), sep), sep))
  {
    var sep := cfg.sep;
    var c := Components(cfg.localRoot, sep);
    var sibling := c[|c| - 1] + x;
    var p := AbsPath(c[..|c| - 1] + [sibling] + rest, sep);
    SiblingRelative(cfg, x, rest);
    assert cfg.localRoot <= p;
    MapAccepted(cfg, p, [".."] + [sibling] + rest);
  }

  /**
    A folder found by scanning the local root (its path is the root joined
    with a plain entry name) is always accepted, so the script's `ValueError`
    branch is never taken for such folders; it maps to the Immich root joined
    with the entry name.
  */
  lemma MapScannedFolder(cfg: Config, name: string)
    requires cfg.Valid() && IsPlainName(name, cfg.sep)
    ensures var p := Join(cfg.localRoot, name, cfg.sep);
            && Normalized(p, cfg.sep)
            && cfg.localRoot <= p
            && MapLocalToImmich(cfg, p) == Success(ToPosix(JoinedOnto(cfg.immichRoot, name, cfg.sep), cfg.sep))
  {
    var sep := cfg.sep;
    var root := cfg.localRoot;
    MapUnderRoot(cfg, [name]);
    if root != [sep] {
      NormalizedEnd(root, sep);
    }
    assert JoinAll([name], sep) == name;
  }
}
