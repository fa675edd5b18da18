/** Grouping the files of a session by base name (`find_matching_files`)
    and picking one left and one right file per group (`show_LR_pairs`,
    `show_LR_files`). */
module Pairing {
  import opened Common
  import opened Text
  import opened Patterns
  import opened Disk

  // ---------------------------------------------------------------------
  // find_matching_files
  // ---------------------------------------------------------------------

  /** The dictionary key of a file name: group 1 of the base-name pattern,
      stripped of trailing blanks and underscores and passed through
      `os.path.normcase` in 3.3, lower-cased in the other versions; `None`
      when the pattern does not match. */
  function MatchKey(v: Version, plat: Platform, name: string): (k: Option<string>)
    ensures k.None? <==> Group1(KeyPatternOf(v), name).None?
  {
    match Group1(KeyPatternOf(v), name)
    case None => None
    case Some(g) => Some(if v == V33 then NormCase(plat, RStrip(g, {' ', '_'})) else Lower(g))
  }

  /** The entries the scan looks at: not in an archive folder, not hidden. */
  predicate Scanned(e: Listed)
  {
    Basename(e.dir) != ObsoleteDir && !StartsWith(e.name, ".")
  }

  /** The key an entry is filed under, if the scan files it at all. */
  function KeyOf(v: Version, plat: Platform, e: Listed): Option<string>
  {
    if Scanned(e) then MatchKey(v, plat, e.name) else None
  }

  /** The dictionary `find_matching_files` returns: its keys in insertion
      order and the list of paths under each key. */
  datatype Groups = Groups(order: seq<string>, paths: map<string, seq<string>>)

  /** `matching_files[key].append(path)`, creating the key when it is new. */
  function AddPath(g: Groups, key: string, path: string): Groups
  {
    if key in g.paths then Groups(g.order, g.paths[key := g.paths[key] + [path]])
    else Groups(g.order + [key], g.paths[key := [path]])
  }

  /** `KeyOf` for one version on one host, as a function value, so that the
      scan below can be stated for any keying of entries. */
  function KeyFn(v: Version, plat: Platform): Listed -> Option<string>
  {
    e => KeyOf(v, plat, e)
  }

  /** The dictionary after scanning the entries `es` of a walk, in order,
      filing each one under `key(e)`. */
  function Grouped(key: Listed -> Option<string>, es: seq<Listed>): Groups
    decreases |es|
  {
    if es == [] then Groups([], map[])
    else
      var g := Grouped(key, es[..|es| - 1]);
      var e := es[|es| - 1];
      match key(e)
      case None => g
      case Some(k) => AddPath(g, k, PathOf(e))
  }

  /** Reference definition: the paths filed under `k`, in walk order. */
  function PathsWith(key: Listed -> Option<string>, es: seq<Listed>, k: string): seq<string>
    decreases |es|
  {
    if es == [] then []
    else
      var e := es[|es| - 1];
      PathsWith(key, es[..|es| - 1], k) + (if key(e) == Some(k) then [PathOf(e)] else [])
  }

  predicate Distinct<T(==)>(s: seq<T>)
  {
    forall i, j | 0 <= i < j < |s| :: s[i] != s[j]
  }

  /** A dictionary as the scan builds it: every key once in the order, and
      no empty list. */
  predicate GroupsInvariant(g: Groups)
  {
    && Distinct(g.order)
    && (forall k | k in g.order :: k in g.paths)
    && (forall k | k in g.paths :: k in g.order)
    && (forall k | k in g.paths :: g.paths[k] != [])
  }

  lemma GroupedStep(key: Listed -> Option<string>, es: seq<Listed>, e: Listed)
    ensures Grouped(key, es + [e]) ==
      match key(e)
      case None => Grouped(key, es)
      case Some(k) => AddPath(Grouped(key, es), k, PathOf(e))
  {
    assert (es + [e])[..|es|] == es;
  }

  lemma PathsWithStep(key: Listed -> Option<string>, es: seq<Listed>, e: Listed, k: string)
    ensures PathsWith(key, es + [e], k) ==
      PathsWith(key, es, k) + (if key(e) == Some(k) then [PathOf(e)] else [])
  {
    assert (es + [e])[..|es|] == es;
  }

  /** What the scan builds: exactly the keys some scanned entry has, listed
      once each, and under each key the paths of the entries with that key
      in walk order. */
  lemma {:induction false} GroupedMeans(key: Listed -> Option<string>, es: seq<Listed>)
    ensures GroupsInvariant(Grouped(key, es))
    ensures forall k :: k in Grouped(key, es).paths <==> PathsWith(key, es, k) != []
    ensures forall k | k in Grouped(key, es).paths :: Grouped(key, es).paths[k] == PathsWith(key, es, k)
    decreases |es|
  {
    if es != [] {
      var init, e := es[..|es| - 1], es[|es| - 1];
      assert es == init + [e];
      GroupedMeans(key, init);
      GroupedStep(key, init, e);
      forall k ensures PathsWith(key, es, k) == PathsWith(key, init, k) + (if key(e) == Some(k) then [PathOf(e)] else []) {
        PathsWithStep(key, init, e, k);
      }
      match key(e)
      case None =>
      case Some(k) => AddPathKeeps(Grouped(key, init), k, PathOf(e));
    }
  }

  /** Filing one path keeps the dictionary's shape, adds its key, and
      appends the path to that key's list only. */
  lemma AddPathKeeps(g: Groups, key: string, path: string)
    requires GroupsInvariant(g)
    ensures var g' := AddPath(g, key, path);
      && GroupsInvariant(g')
      && (forall k :: k in g'.paths <==> k in g.paths || k == key)
      && (forall k | k in g'.paths :: g'.paths[k] ==
            if k == key then (if key in g.paths then g.paths[key] else []) + [path] else g.paths[k])
  {
    var g' := AddPath(g, key, path);
    if key !in g.paths {
      assert key !in g.order;
      forall i, j | 0 <= i < j < |g'.order| ensures g'.order[i] != g'.order[j] {
        if j == |g.order| {
          assert g.order[i] in g.order;
        }
      }
    }
  }

  /** An archive folder contributes nothing to the dictionary. */
  lemma {:induction false} UnkeyedFolderSkipped(key: Listed -> Option<string>, es: seq<Listed>, f: Folder, n: nat)
    requires n <= |f.files|
    requires forall k | 0 <= k < |f.files| :: key(Listed(f.path, f.files[k])).None?
    ensures Grouped(key, es + Row(f)[..n]) == Grouped(key, es)
    decreases n
  {
    if n > 0 {
      UnkeyedFolderSkipped(key, es, f, n - 1);
      RowStepAfter(es, f, n - 1);
      assert key(Listed(f.path, f.files[n - 1])).None?;
      GroupedStep(key, es + Row(f)[..n - 1], Listed(f.path, f.files[n - 1]));
    } else {
      RowEnds(es, f);
    }
  }

  /** `find_matching_files`: the outer loop over `os.walk`, which skips
      archive folders. */
  method FindMatchingFiles(v: Version, plat: Platform, walk: seq<Folder>) returns (g: Groups)
    ensures g == Grouped(KeyFn(v, plat), Listing(walk))
  {
    var key := KeyFn(v, plat);
    g := Groups([], map[]);
    var i := 0;
    while i < |walk|
      invariant 0 <= i <= |walk|
      invariant g == Grouped(key, Listing(walk[..i]))
    {
      var f := walk[i];
      var es := Listing(walk[..i]);
      ListingStep(walk, i);
      if Basename(f.path) == ObsoleteDir {
        ArchiveFolderSkipped(v, plat, es, f);
      } else {
        HiddenUnkeyed(v, plat, f.path);
        g := ScanFolder(key, g, es, f);
      }
      assert g == Grouped(key, es + Row(f));
      i := i + 1;
    }
    assert walk[..|walk|] == walk;
  }

  /** The files of an archive folder add nothing to the dictionary. */
  lemma ArchiveFolderSkipped(v: Version, plat: Platform, es: seq<Listed>, f: Folder)
    requires Basename(f.path) == ObsoleteDir
    ensures Grouped(KeyFn(v, plat), es + Row(f)) == Grouped(KeyFn(v, plat), es)
  {
    forall k | 0 <= k < |f.files| ensures KeyFn(v, plat)(Listed(f.path, f.files[k])).None? {
      KeyFnAt(v, plat, f.path, f.files[k]);
    }
    UnkeyedFolderSkipped(KeyFn(v, plat), es, f, |f.files|);
    RowEnds(es, f);
  }

  lemma HiddenUnkeyed(v: Version, plat: Platform, dir: string)
    ensures forall name | StartsWith(name, ".") :: KeyFn(v, plat)(Listed(dir, name)).None?
  {
    forall name | StartsWith(name, ".") ensures KeyFn(v, plat)(Listed(dir, name)).None? {
      KeyFnAt(v, plat, dir, name);
    }
  }

  /** The keying of one version skips hidden files and files in archive
      folders and otherwise applies the base-name pattern. */
  lemma KeyFnAt(v: Version, plat: Platform, dir: string, name: string)
    ensures StartsWith(name, ".") || Basename(dir) == ObsoleteDir ==> KeyFn(v, plat)(Listed(dir, name)).None?
    ensures !StartsWith(name, ".") && Basename(dir) != ObsoleteDir ==> KeyFn(v, plat)(Listed(dir, name)) == MatchKey(v, plat, name)
  {
  }

  /** The inner loop of `find_matching_files` over the names of one folder,
      for a keying that files no hidden name. */
  method ScanFolder(key: Listed -> Option<string>, g0: Groups, es: seq<Listed>, f: Folder) returns (g: Groups)
    requires g0 == Grouped(key, es)
    requires forall name | StartsWith(name, ".") :: key(Listed(f.path, name)).None?
    ensures g == Grouped(key, es + Row(f))
  {
    g := g0;
    var j := 0;
    RowEnds(es, f);
    while j < |f.files|
      invariant 0 <= j <= |f.files|
      invariant g == Grouped(key, es + Row(f)[..j])
    {
      var name := f.files[j];
      RowStepAfter(es, f, j);
      GroupedStep(key, es + Row(f)[..j], Listed(f.path, name));
      if !StartsWith(name, ".") {
        var k := key(Listed(f.path, name));
        if k.Some? {
          var path := Join(f.path, name);
          if k.value in g.paths {
            g := Groups(g.order, g.paths[k.value := g.paths[k.value] + [path]]);
          } else {
            g := Groups(g.order + [k.value], g.paths[k.value := [path]]);
          }
        }
      }
      j := j + 1;
    }
  }

  // ---------------------------------------------------------------------
  // show_LR_pairs / show_LR_files
  // ---------------------------------------------------------------------

  function LeftSide(v: Version): SidePattern
  {
    if v == V26 then Left26 else Left
  }

  function RightSide(v: Version): SidePattern
  {
    match v
    case V33 => Right33
    case V26 => Right26
    case _ => RightMac
  }

  /** The right test as applied: in 3.3 it is the `elif` of the left test,
      so a path that looks left is never also counted as right. */
  predicate IsRight(v: Version, path: string)
  {
    Search(RightSide(v), path) && (v == V33 ==> !Search(Left, path))
  }

  function Lefts(v: Version, files: seq<string>): seq<string>
  {
    Filter(files, f => Search(LeftSide(v), f))
  }

  function Rights(v: Version, files: seq<string>): seq<string>
  {
    Filter(files, f => IsRight(v, f))
  }

  /** The pair a group contributes: its only left path and its only right
      path, when there is exactly one of each. */
  function PairOf(v: Version, files: seq<string>): (r: Option<(string, string)>)
    ensures r.Some? <==> |Lefts(v, files)| == 1 && |Rights(v, files)| == 1
    ensures r.Some? ==> forall f | f in files :: Search(LeftSide(v), f) <==> f == r.value.0
    ensures r.Some? ==> forall f | f in files :: IsRight(v, f) <==> f == r.value.1
    ensures r.Some? ==> r.value.0 in files && r.value.1 in files
  {
    var ls, rs := Lefts(v, files), Rights(v, files);
    if |ls| == 1 && |rs| == 1 then
      OnlyPassing(files, f => Search(LeftSide(v), f));
      OnlyPassing(files, f => IsRight(v, f));
      Some((ls[0], rs[0]))
    else None
  }

  /** When one element passes `p`, the passing elements are that one. */
  lemma OnlyPassing<T(!new)>(s: seq<T>, p: T -> bool)
    requires |Filter(s, p)| == 1
    ensures Filter(s, p)[0] in s
    ensures forall x | x in s :: p(x) <==> x == Filter(s, p)[0]
  {
    var r := Filter(s, p);
    assert r[0] in r;
    forall x | x in s ensures p(x) <==> x == r[0] {
      if p(x) {
        assert x in r;
      }
    }
  }

  /** The pairs of a dictionary, in key order. */
  function PairList(v: Version, order: seq<string>, paths: map<string, seq<string>>): seq<(string, string)>
    decreases |order|
  {
    if order == [] then []
    else
      var k := order[|order| - 1];
      var p := if k in paths then PairOf(v, paths[k]) else None;
      PairList(v, order[..|order| - 1], paths) + (if p.Some? then [p.value] else [])
  }

  /** The outer loop of `show_LR_pairs` / `show_LR_files`. */
  method ShowLRPairs(v: Version, g: Groups) returns (pairs: seq<(string, string)>)
    ensures pairs == PairList(v, g.order, g.paths)
  {
    pairs := [];
    var i := 0;
    while i < |g.order|
      invariant 0 <= i <= |g.order|
      invariant pairs == PairList(v, g.order[..i], g.paths)
    {
      var k := g.order[i];
      assert g.order[..i + 1][..i] == g.order[..i];
      if k in g.paths {
        var p := PairOf(v, g.paths[k]);
        if p.Some? {
          pairs := pairs + [p.value];
        }
      }
      i := i + 1;
    }
    assert g.order[..|g.order|] == g.order;
  }

  /** Every pair comes from one group: both paths are filed under the same
      key, the left one passes the left test and the right one the right
      test. */
  lemma {:induction false} PairsFromOneGroup(v: Version, order: seq<string>, paths: map<string, seq<string>>)
    ensures forall p | p in PairList(v, order, paths) ::
      exists k | k in order && k in paths :: p.0 in paths[k] && p.1 in paths[k]
    ensures forall p | p in PairList(v, order, paths) :: Search(LeftSide(v), p.0) && IsRight(v, p.1)
    decreases |order|
  {
    if order != [] {
      var init, k := order[..|order| - 1], order[|order| - 1];
      PairsFromOneGroup(v, init, paths);
      forall p | p in PairList(v, order, paths)
        ensures exists k' | k' in order && k' in paths :: p.0 in paths[k'] && p.1 in paths[k']
        ensures Search(LeftSide(v), p.0) && IsRight(v, p.1)
      {
        if p in PairList(v, init, paths) {
          var k' :| k' in init && k' in paths && p.0 in paths[k'] && p.1 in paths[k'];
          assert k' in order;
        } else {
          assert k in order;
        }
      }
    }
  }

  /** In 3.3 the two halves of a pair are different files. */
  lemma PairHalvesDiffer33(files: seq<string>)
    requires PairOf(V33, files).Some?
    ensures PairOf(V33, files).value.0 != PairOf(V33, files).value.1
  {
    var p := PairOf(V33, files).value;
    assert p.0 in files && Search(Left, p.0);
  }

  /** The path of the macOS and 2.8 counterexample: a right take stored in
      a folder called `L`. */
  const SelfPaired := "s/L/Kick R.wav"

  lemma SelfPairedSides()
    ensures Search(Left, SelfPaired) && Search(Left26, SelfPaired)
    ensures Search(RightMac, SelfPaired) && Search(Right33, SelfPaired) && Search(Right26, SelfPaired)
  {
    var s := SelfPaired;
    assert BareAt(s, 2, "l") && BareAt(s, 9, "r");
    assert MatchesAt(Left, s, 2) && MatchesAt(Left26, s, 2);
    assert MatchesAt(RightMac, s, 9) && MatchesAt(Right33, s, 9) && MatchesAt(Right26, s, 9);
    SearchMeans(Left, s);
    SearchMeans(Left26, s);
    SearchMeans(RightMac, s);
    SearchMeans(Right33, s);
    SearchMeans(Right26, s);
  }

  /** The tests look at the whole path, so outside 3.3 one file can be both
      halves of its own pair; 3.3's `elif` rules that out. */
  lemma SelfPair()
    ensures PairOf(Mac, [SelfPaired]) == Some((SelfPaired, SelfPaired))
    ensures PairOf(V28, [SelfPaired]) == Some((SelfPaired, SelfPaired))
    ensures PairOf(V26, [SelfPaired]) == Some((SelfPaired, SelfPaired))
    ensures PairOf(V33, [SelfPaired]) == None
  {
    SelfPairedSides();
    SinglePathPair(Mac, SelfPaired);
    SinglePathPair(V28, SelfPaired);
    SinglePathPair(V26, SelfPaired);
    SinglePathPair(V33, SelfPaired);
  }

  /** A group of one path pairs that path with itself exactly when it passes
      both tests. */
  lemma SinglePathPair(v: Version, p: string)
    ensures PairOf(v, [p]) == if Search(LeftSide(v), p) && IsRight(v, p) then Some((p, p)) else None
  {
    FilterAppend([], p, f => Search(LeftSide(v), f));
    FilterAppend([], p, f => IsRight(v, f));
    assert [] + [p] == [p];
  }
}
