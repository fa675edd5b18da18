/** The track reorder window (`FileOrdererApp`): the list of top-level files
    followed by six category headers, rearranged by dragging, then turned
    into numbered renames into one sub-folder per category. */
module Orderer {
  import opened Common
  import opened Text
  import opened Audio
  import opened Disk

  /** The category headers, in their fixed order. */
  const Categories: seq<string> := ["01- DRUMS", "02- PERCUSSION", "03- BASS", "04- GUITARS", "05- KEYS, SYNTHS, FX, ETC", "06- VOCALS"]

  predicate IsCategory(s: string)
  {
    s in Categories
  }

  /** Every header is somewhere in the list (`list.index` never raises). */
  predicate HasCategories(s: seq<string>)
  {
    forall c | c in Categories :: c in s
  }

  /** The headers appear in the list in their fixed order, each once. */
  predicate InOrder(s: seq<string>)
  {
    Filter(s, IsCategory) == Categories
  }

  /** `list.index(x)`: the first position holding `x`. */
  function IndexOf(s: seq<string>, x: string): (r: nat)
    requires x in s
    ensures r < |s| && s[r] == x
    ensures forall k | 0 <= k < r :: s[k] != x
  {
    if s[0] == x then 0 else 1 + IndexOf(s[1..], x)
  }

  // ---------------------------------------------------------------------
  // populate_files
  // ---------------------------------------------------------------------

  /** The top-level regular files of the folder whose names do not start
      with a dot, joined onto the folder, in listing order. */
  function ListedFiles(folder: string, listing: seq<string>, files: map<string, Entry>): (r: seq<string>)
    ensures forall p | p in r :: p in files
    ensures forall f | f in listing && Join(folder, f) in files && !StartsWith(f, ".") :: Join(folder, f) in r
    ensures forall p | p in r :: exists f | f in listing && !StartsWith(f, ".") :: p == Join(folder, f)
    decreases |listing|
  {
    if listing == [] then []
    else
      var init := ListedFiles(folder, listing[..|listing| - 1], files);
      var f := listing[|listing| - 1];
      assert forall g | g in listing :: g in listing[..|listing| - 1] || g == f;
      init + (if Join(folder, f) in files && !StartsWith(f, ".") then [Join(folder, f)] else [])
  }

  // ---------------------------------------------------------------------
  // on_motion
  // ---------------------------------------------------------------------

  /** `s.insert(to, s.pop(from))`. */
  function Moved<T>(s: seq<T>, from: nat, to: nat): (r: seq<T>)
    requires from < |s| && to < |s|
    ensures |r| == |s| && r[to] == s[from]
  {
    var rest := s[..from] + s[from + 1..];
    rest[..to] + [s[from]] + rest[to..]
  }

  /** 3.3 and macOS: the list and the drag index after a motion event to
      row `target`. A category is never dragged. */
  function Motion(s: seq<string>, drag: Option<nat>, target: nat): (seq<string>, Option<nat>)
    requires drag.Some? ==> drag.value < |s|
    requires target < |s|
  {
    if drag.None? || IsCategory(s[drag.value]) then (s, drag)
    else if target != drag.value then (Moved(s, drag.value, target), Some(target))
    else (s, drag)
  }

  /** 2.6 and 2.8: nothing happens without a drag, on the row being dragged,
      out of range, or when a category meets a category; anything else moves,
      a category onto a file row included. */
  function LegacyMotion(s: seq<string>, drag: Option<nat>, target: int): (seq<string>, Option<nat>)
  {
    if drag.None? || target == drag.value then (s, drag)
    else if !(drag.value < |s| && 0 <= target < |s|) then (s, drag)
    else if IsCategory(s[drag.value]) && IsCategory(s[target]) then (s, drag)
    else (Moved(s, drag.value, target), Some(target))
  }

  // ---------------------------------------------------------------------
  // rename_files
  // ---------------------------------------------------------------------

  /** The inner loop over the headers: the last one, in the fixed order of
      `cats`, whose first position in `s` is above row `i`. */
  function CategoryOf(s: seq<string>, cats: seq<string>, i: int): (r: Option<string>)
    requires forall c | c in cats :: c in s
    ensures r.Some? ==> r.value in cats && IndexOf(s, r.value) < i
    ensures r.None? <==> forall c | c in cats :: IndexOf(s, c) >= i
    decreases |cats|
  {
    if cats == [] then None
    else
      var c := cats[|cats| - 1];
      assert forall d | d in cats :: d in cats[..|cats| - 1] || d == c;
      if IndexOf(s, c) < i then Some(c) else CategoryOf(s, cats[..|cats| - 1], i)
  }

  /** The nearest header above row `i`. */
  function NearestHeader(s: seq<string>, i: nat): Option<string>
    requires i <= |s|
  {
    var above := Filter(s[..i], IsCategory);
    if above == [] then None else Some(above[|above| - 1])
  }

  /** The decimal digits of `n`. */
  function Digits(n: nat): (r: string)
    ensures |r| >= 1 && forall k | 0 <= k < |r| :: '0' <= r[k] <= '9'
    decreases n
  {
    if n < 10 then [(48 + n) as char] else Digits(n / 10) + [(48 + n % 10) as char]
  }

  /** `f"{n:02d}"`. */
  function Pad2(n: nat): (r: string)
    ensures |r| >= 2 && forall k | 0 <= k < |r| :: '0' <= r[k] <= '9'
  {
    if n < 10 then "0" + Digits(n) else Digits(n)
  }

  /** `int(s)` for a string of decimal digits. */
  function ParseDecimal(s: string): nat
    decreases |s|
  {
    if s == [] then 0 else 10 * ParseDecimal(s[..|s| - 1]) + ((s[|s| - 1] as int - 48) % 10)
  }

  /** The new name of a file: its number, a dash and its base name. */
  function NumberedName(n: nat, item: string): string
  {
    Pad2(n) + " - " + Basename(item)
  }

  /** `len(os.listdir(folder_path))`, counting the files directly inside. */
  function DirCount(files: map<string, Entry>, dir: string): nat
  {
    |set p | p in files.Keys && Dirname(p) == dir|
  }

  /** One iteration of the first loop, for row `i`: a file under a header is
      moved into that header's folder with the next free number; a file
      above every header is kept for the second loop; a row that is not a
      file is skipped. */
  function CategoriseStep(files: map<string, Entry>, unsorted: seq<string>, folder: string, s: seq<string>, i: nat)
    : (map<string, Entry>, seq<string>)
    requires HasCategories(s) && i < |s|
  {
    var item := s[i];
    if item !in files then (files, unsorted)
    else
      match CategoryOf(s, Categories, i)
      case None => (files, unsorted + [item])
      case Some(c) =>
        var dir := Join(folder, c);
        (MoveEntry(files, item, Join(dir, NumberedName(DirCount(files, dir) + 1, item))), unsorted)
  }

  /** The first loop over rows `0 .. n-1`. */
  function CategorisePass(files: map<string, Entry>, folder: string, s: seq<string>, n: nat): (map<string, Entry>, seq<string>)
    requires HasCategories(s) && n <= |s|
  {
    if n == 0 then (files, [])
    else
      var before := CategorisePass(files, folder, s, n - 1);
      CategoriseStep(before.0, before.1, folder, s, n - 1)
  }

  /** The second loop: the kept files numbered 1, 2, … in the root folder. */
  function NumberPass(files: map<string, Entry>, folder: string, unsorted: seq<string>): map<string, Entry>
    decreases |unsorted|
  {
    if unsorted == [] then files
    else
      var item := unsorted[|unsorted| - 1];
      MoveEntry(NumberPass(files, folder, unsorted[..|unsorted| - 1]), item, Join(folder, NumberedName(|unsorted|, item)))
  }

  function RenameAll(files: map<string, Entry>, folder: string, s: seq<string>): map<string, Entry>
    requires HasCategories(s)
  {
    var sorted := CategorisePass(files, folder, s, |s|);
    NumberPass(sorted.0, folder, sorted.1)
  }

  // ---------------------------------------------------------------------
  // The window's state
  // ---------------------------------------------------------------------

  class FileOrderer {
    var folder: string
    var elements: seq<string>
    /** `drag_data["index"]`. */
    var dragIndex: Option<nat>

    predicate Valid()
      reads this
    {
      HasCategories(elements) && (dragIndex.Some? ==> dragIndex.value < |elements|)
    }

    /** `__init__` with `populate_files`: the files, then the headers. */
    constructor (folder: string, listing: seq<string>, files: map<string, Entry>)
      ensures this.folder == folder && elements == ListedFiles(folder, listing, files) + Categories
      ensures dragIndex == None && Valid()
    {
      this.folder := folder;
      elements := ListedFiles(folder, listing, files) + Categories;
      dragIndex := None;
    }

    /** `on_select`: the row under the pointer becomes the dragged one. */
    method OnSelect(index: nat)
      requires Valid() && index < |elements|
      modifies this
      ensures folder == old(folder) && elements == old(elements) && dragIndex == Some(index)
      ensures Valid()
    {
      dragIndex := Some(index);
    }

    method OnRelease()
      requires Valid()
      modifies this
      ensures folder == old(folder) && elements == old(elements) && dragIndex == None
      ensures Valid()
    {
      dragIndex := None;
    }

    /** `on_motion` of 3.3 and macOS; `target` is the row under the pointer. */
    method OnMotion(target: nat)
      requires Valid() && target < |elements|
      modifies this
      ensures folder == old(folder) && (elements, dragIndex) == Motion(old(elements), old(dragIndex), target)
      ensures Valid()
    {
      if dragIndex.None? {
        return;
      }
      var dragged := dragIndex.value;
      if elements[dragged] in Categories {
        return;
      }
      if target != dragged {
        var item := elements[dragged];
        var rest := elements[..dragged] + elements[dragged + 1..];
        elements := rest[..target] + [item] + rest[target..];
        dragIndex := Some(target);
        MovedKeepsHeaders(old(elements), dragged, target);
      }
    }

    /** `on_motion` of 2.6 and 2.8, with its range checks. */
    method OnMotionLegacy(target: int)
      requires Valid()
      modifies this
      ensures folder == old(folder) && (elements, dragIndex) == LegacyMotion(old(elements), old(dragIndex), target)
      ensures Valid()
    {
      if dragIndex.None? || target == dragIndex.value {
        return;
      }
      var dragged := dragIndex.value;
      if !(dragged < |elements| && 0 <= target < |elements|) {
        return;
      }
      if elements[dragged] in Categories && elements[target] in Categories {
        return;
      }
      var item := elements[dragged];
      var rest := elements[..dragged] + elements[dragged + 1..];
      elements := rest[..target] + [item] + rest[target..];
      dragIndex := Some(target);
      MovedKeepsHeaders(old(elements), dragged, target);
    }

    /** The inner loop of `rename_files` for row `i`. */
    method CategoryFor(i: nat) returns (c: Option<string>)
      requires Valid()
      ensures c == CategoryOf(elements, Categories, i)
    {
      c := None;
      var k := 0;
      while k < |Categories|
        invariant 0 <= k <= |Categories|
        invariant c == CategoryOf(elements, Categories[..k], i)
      {
        var category := Categories[k];
        assert Categories[..k + 1][..k] == Categories[..k];
        if IndexOf(elements, category) < i {
          c := Some(category);
        }
        k := k + 1;
      }
      assert Categories[..|Categories|] == Categories;
    }

    /** One row of the first loop of `rename_files`. */
    method CategoriseRow(fs: FileSystem, unsorted: seq<string>, i: nat) returns (kept: seq<string>)
      requires Valid() && i < |elements|
      modifies fs
      ensures (fs.files, kept) == CategoriseStep(old(fs.files), unsorted, folder, elements, i)
    {
      kept := unsorted;
      var item := elements[i];
      if !fs.Exists(item) {
        return;
      }
      var c := CategoryFor(i);
      if c.Some? {
        var dir := Join(folder, c.value);
        var count := |set p | p in fs.files.Keys && Dirname(p) == dir|;
        var renamed := fs.Move(item, Join(dir, Pad2(count + 1) + " - " + Basename(item)));
      } else {
        kept := unsorted + [item];
      }
    }

    /** `rename_files`: both loops, each rename inside its `try`. */
    method RenameFiles(fs: FileSystem)
      requires Valid()
      modifies fs
      ensures fs.files == RenameAll(old(fs.files), folder, elements)
    {
      var unsorted: seq<string> := [];
      var i := 0;
      while i < |elements|
        invariant 0 <= i <= |elements|
        invariant (fs.files, unsorted) == CategorisePass(old(fs.files), folder, elements, i)
      {
        unsorted := CategoriseRow(fs, unsorted, i);
        i := i + 1;
      }
      NumberFiles(fs, folder, unsorted);
    }
  }

  /** The second loop of `rename_files`. */
  method NumberFiles(fs: FileSystem, folder: string, unsorted: seq<string>)
    modifies fs
    ensures fs.files == NumberPass(old(fs.files), folder, unsorted)
  {
    var j := 0;
    while j < |unsorted|
      invariant 0 <= j <= |unsorted|
      invariant fs.files == NumberPass(old(fs.files), folder, unsorted[..j])
    {
      var item := unsorted[j];
      assert unsorted[..j + 1][..j] == unsorted[..j];
      var renamed := fs.Move(item, Join(folder, Pad2(j + 1) + " - " + Basename(item)));
      j := j + 1;
    }
    assert unsorted[..|unsorted|] == unsorted;
  }

  // ---------------------------------------------------------------------
  // Properties of dragging
  // ---------------------------------------------------------------------

  lemma {:induction false} FilterConcat<T(!new)>(a: seq<T>, b: seq<T>, p: T -> bool)
    ensures Filter(a + b, p) == Filter(a, p) + Filter(b, p)
    decreases |b|
  {
    if b == [] {
      assert a + b == a;
    } else {
      var init, x := b[..|b| - 1], b[|b| - 1];
      assert a + b == (a + init) + [x];
      assert b == init + [x];
      FilterConcat(a, init, p);
      FilterAppend(a + init, x, p);
      FilterAppend(init, x, p);
    }
  }

  lemma FilterSkip<T(!new)>(a: seq<T>, x: T, b: seq<T>, p: T -> bool)
    requires !p(x)
    ensures Filter(a + [x] + b, p) == Filter(a + b, p)
  {
    FilterConcat(a + [x], b, p);
    FilterAppend(a, x, p);
    FilterConcat(a, b, p);
  }

  /** Taking an element out and putting it back elsewhere keeps every
      element, counted with its repetitions. */
  lemma MovedPermutes<T>(s: seq<T>, from: nat, to: nat)
    requires from < |s| && to < |s|
    ensures multiset(Moved(s, from, to)) == multiset(s)
  {
    var a, x, b := s[..from], s[from], s[from + 1..];
    assert s == a + [x] + b;
    var rest := a + b;
    var c, d := rest[..to], rest[to..];
    assert rest == c + d;
    assert Moved(s, from, to) == c + [x] + d;
    calc {
      multiset(Moved(s, from, to));
      multiset(c) + multiset{x} + multiset(d);
      multiset(rest) + multiset{x};
      multiset(a) + multiset(b) + multiset{x};
      multiset(s);
    }
  }

  /** Taking out one element that fails `p` and putting it back elsewhere
      leaves the elements that pass `p` in their order. */
  lemma MovedFilter<T(!new)>(s: seq<T>, from: nat, to: nat, p: T -> bool)
    requires from < |s| && to < |s| && !p(s[from])
    ensures Filter(Moved(s, from, to), p) == Filter(s, p)
  {
    var a, x, b := s[..from], s[from], s[from + 1..];
    SplitAt(s, from);
    var rest := a + b;
    var c, d := rest[..to], rest[to..];
    assert rest == c + d;
    assert Moved(s, from, to) == c + [x] + d;
    MovedWithin(a, x, b, c, d, p);
  }

  lemma SplitAt<T>(s: seq<T>, i: nat)
    requires i < |s|
    ensures s == s[..i] + [s[i]] + s[i + 1..]
  {
  }

  lemma MovedWithin<T(!new)>(a: seq<T>, x: T, b: seq<T>, c: seq<T>, d: seq<T>, p: T -> bool)
    requires a + b == c + d && !p(x)
    ensures Filter(c + [x] + d, p) == Filter(a + [x] + b, p)
  {
    FilterSkip(a, x, b, p);
    FilterSkip(c, x, d, p);
  }

  /** Moving an element keeps the headers present, and moving a file keeps
      the headers in their relative order. */
  lemma MovedKeepsHeaders(s: seq<string>, from: nat, to: nat)
    requires from < |s| && to < |s|
    ensures HasCategories(s) ==> HasCategories(Moved(s, from, to))
    ensures !IsCategory(s[from]) ==> Filter(Moved(s, from, to), IsCategory) == Filter(s, IsCategory)
  {
    var r := Moved(s, from, to);
    MovedPermutes(s, from, to);
    forall c | c in s ensures c in r {
      assert c in multiset(s);
    }
    if !IsCategory(s[from]) {
      MovedFilter(s, from, to, IsCategory);
    }
  }

  /** 3.3 and macOS: a motion event never changes which rows exist, never
      moves a header, and keeps the headers in their relative order. */
  lemma MotionKeepsHeaders(s: seq<string>, drag: Option<nat>, target: nat)
    requires drag.Some? ==> drag.value < |s|
    requires target < |s|
    ensures var r := Motion(s, drag, target);
      && multiset(r.0) == multiset(s)
      && Filter(r.0, IsCategory) == Filter(s, IsCategory)
      && (drag.Some? && IsCategory(s[drag.value]) ==> r.0 == s)
  {
    if drag.Some? && target < |s| {
      MovedPermutes(s, drag.value, target);
      MovedKeepsHeaders(s, drag.value, target);
    }
  }

  /** 2.6 and 2.8: a motion event keeps the rows. */
  lemma LegacyMotionKeepsRows(s: seq<string>, drag: Option<nat>, target: int)
    ensures multiset(LegacyMotion(s, drag, target).0) == multiset(s)
    ensures |LegacyMotion(s, drag, target).0| == |s|
  {
    if drag.Some? && drag.value < |s| && 0 <= target < |s| {
      MovedPermutes(s, drag.value, target);
    }
  }

  const SampleFile := "/s/take.wav"

  /** 2.6 and 2.8 let a header be dropped on a file row and so reorder the
      headers: two drags put `02- PERCUSSION` above `01- DRUMS` and the file
      below both, where it is filed under the later header in the fixed
      order rather than the nearest one. */
  lemma LegacyReordersHeaders()
    ensures var s1 := LegacyMotion([SampleFile] + Categories, Some(2), 0).0;
      var s2 := LegacyMotion(s1, Some(1), 2).0;
      && s2 == [Categories[1], Categories[0], SampleFile] + Categories[2..]
      && !InOrder(s2)
      && CategoryOf(s2, Categories, 2) == Some(Categories[1])
      && NearestHeader(s2, 2) == Some(Categories[0])
  {
    var s2 := TwoDrags();
    SwappedHeaders(s2);
  }

  lemma TwoDrags() returns (s2: seq<string>)
    ensures var s1 := LegacyMotion([SampleFile] + Categories, Some(2), 0).0;
      s2 == LegacyMotion(s1, Some(1), 2).0
    ensures s2 == [Categories[1], Categories[0], SampleFile] + Categories[2..]
  {
    var s0 := [SampleFile] + Categories;
    assert !IsCategory(SampleFile);
    var s1 := [Categories[1], SampleFile, Categories[0]] + Categories[2..];
    DragFirstHeaders(SampleFile, Categories);
    assert LegacyMotion(s0, Some(2), 0).0 == s1;
    s2 := Moved(s1, 1, 2);
  }

  /** The two drags on any list of a file followed by two or more rows. */
  lemma DragFirstHeaders(f: string, cats: seq<string>)
    requires |cats| >= 2
    ensures Moved([f] + cats, 2, 0) == [cats[1], f, cats[0]] + cats[2..]
    ensures Moved([cats[1], f, cats[0]] + cats[2..], 1, 2) == [cats[1], cats[0], f] + cats[2..]
  {
    var s0 := [f] + cats;
    assert s0[..2] + s0[3..] == [f, cats[0]] + cats[2..];
    var s1 := [cats[1], f, cats[0]] + cats[2..];
    var rest := s1[..1] + s1[2..];
    assert rest == [cats[1], cats[0]] + cats[2..];
    assert rest[..2] == [cats[1], cats[0]] && rest[2..] == cats[2..];
  }

  lemma SwappedHeaders(s2: seq<string>)
    requires s2 == [Categories[1], Categories[0], SampleFile] + Categories[2..]
    ensures HasCategories(s2)
    ensures !InOrder(s2)
    ensures CategoryOf(s2, Categories, 2) == Some(Categories[1])
    ensures NearestHeader(s2, 2) == Some(Categories[0])
  {
    SwappedIndexes(s2);
    LastQualifying(s2, Categories, 2, 2);
    SwappedFilter(s2);
  }

  /** Where each header first occurs after the two drags. */
  lemma SwappedIndexes(s2: seq<string>)
    requires s2 == [Categories[1], Categories[0], SampleFile] + Categories[2..]
    ensures HasCategories(s2)
    ensures forall a | 0 <= a < |Categories| :: IndexOf(s2, Categories[a]) < 2 <==> a < 2
  {
    assert |s2| == 7;
    assert forall k | 2 <= k < |Categories| :: s2[k + 1] == Categories[k];
    assert HasCategories(s2);
    CategoriesDistinct();
    assert IndexOf(s2, Categories[1]) == 0;
    assert IndexOf(s2, Categories[0]) == 1;
    forall k | 2 <= k < |Categories| ensures IndexOf(s2, Categories[k]) == k + 1 {
      IndexAt(s2, k + 1);
    }
  }

  /** The headers above the file after the two drags, and the headers of the
      whole list, which start with the wrong one. */
  lemma SwappedFilter(s2: seq<string>)
    requires s2 == [Categories[1], Categories[0], SampleFile] + Categories[2..]
    ensures Filter(s2[..2], IsCategory) == [Categories[1], Categories[0]]
    ensures !InOrder(s2)
  {
    var x, y, rest := Categories[1], Categories[0], [SampleFile] + Categories[2..];
    assert IsCategory(x) && IsCategory(y);
    assert s2[..2] == [x, y] && s2 == [x, y] + rest;
    FilterPair(x, y, IsCategory);
    FilterConcat([x, y], rest, IsCategory);
    assert Filter(s2, IsCategory)[0] == x != Categories[0];
  }

  lemma FilterPair<T(!new)>(x: T, y: T, p: T -> bool)
    requires p(x) && p(y)
    ensures Filter([x, y], p) == [x, y]
  {
    FilterAppend([], x, p);
    assert [] + [x] == [x];
    FilterAppend([x], y, p);
    assert [x] + [y] == [x, y];
  }

  /** A row whose value occurs nowhere above it is its first position. */
  lemma IndexAt(s: seq<string>, k: nat)
    requires k < |s| && forall j | 0 <= j < k :: s[j] != s[k]
    ensures IndexOf(s, s[k]) == k
  {
  }

  // ---------------------------------------------------------------------
  // Properties of renaming
  // ---------------------------------------------------------------------

  /** With the headers in their fixed order, the header a file is filed
      under is the nearest one above it. */
  lemma CategoryIsNearestHeader(s: seq<string>, i: nat)
    requires InOrder(s) && i <= |s|
    ensures HasCategories(s)
    ensures CategoryOf(s, Categories, i) == NearestHeader(s, i)
  {
    CategoriesDistinct();
    LastAboveIsNearest(s, Categories, IsCategory, i);
  }

  /** The same for any distinct headers that `p` picks out in their order. */
  lemma LastAboveIsNearest(s: seq<string>, cats: seq<string>, p: string -> bool, i: nat)
    requires Filter(s, p) == cats && i <= |s|
    requires forall a, b | 0 <= a < b < |cats| :: cats[a] != cats[b]
    ensures forall c | c in cats :: c in s
    ensures var above := Filter(s[..i], p);
      CategoryOf(s, cats, i) == if above == [] then None else Some(above[|above| - 1])
  {
    assert forall c | c in cats :: c in s && p(c);
    var above := Filter(s[..i], p);
    AbovePrefix(s, p, i);
    forall a | 0 <= a < |cats| ensures IndexOf(s, cats[a]) < i <==> a < |above| {
      HeaderAbove(s, cats, p, i, a);
    }
    LastQualifying(s, cats, i, |above|);
    if above != [] {
      assert above[|above| - 1] == cats[|above| - 1];
    }
  }

  /** The headers above row `i` begin the list of all headers. */
  lemma AbovePrefix(s: seq<string>, p: string -> bool, i: nat)
    requires i <= |s|
    ensures var above := Filter(s[..i], p);
      |above| <= |Filter(s, p)| && above == Filter(s, p)[..|above|]
  {
    assert s == s[..i] + s[i..];
    FilterConcat(s[..i], s[i..], p);
  }

  /** A header lies above row `i` exactly when it is one of the headers
      `p` picks out of the rows above `i`. */
  lemma HeaderAbove(s: seq<string>, cats: seq<string>, p: string -> bool, i: nat, a: nat)
    requires i <= |s| && a < |cats| && cats[a] in s && p(cats[a])
    requires forall a, b | 0 <= a < b < |cats| :: cats[a] != cats[b]
    requires var above := Filter(s[..i], p); |above| <= |cats| && above == cats[..|above|]
    ensures IndexOf(s, cats[a]) < i <==> a < |Filter(s[..i], p)|
  {
    var above := Filter(s[..i], p);
    var c := cats[a];
    var at := IndexOf(s, c);
    if at < i {
      assert s[..i][at] == c;
      assert c in above;
      var b :| 0 <= b < |above| && above[b] == c;
      assert cats[b] == c;
    }
    if a < |above| {
      assert above[a] == c;
      assert c in s[..i];
      var b :| 0 <= b < i && s[..i][b] == c;
      assert s[b] == c;
    }
  }

  lemma CategoriesDistinct()
    ensures forall a, b | 0 <= a < b < |Categories| :: Categories[a] != Categories[b]
  {
  }

  /** When exactly the first `m` headers lie above row `i`, the inner loop
      ends on header `m - 1`. */
  lemma {:induction false} LastQualifying(s: seq<string>, cats: seq<string>, i: int, m: nat)
    requires forall c | c in cats :: c in s
    requires m <= |cats|
    requires forall a | 0 <= a < |cats| :: IndexOf(s, cats[a]) < i <==> a < m
    ensures CategoryOf(s, cats, i) == if m == 0 then None else Some(cats[m - 1])
    decreases |cats|
  {
    if cats != [] && m < |cats| {
      var init := cats[..|cats| - 1];
      forall a | 0 <= a < |init| ensures IndexOf(s, init[a]) < i <==> a < m {
        assert init[a] == cats[a];
      }
      LastQualifying(s, init, i, m);
      if m > 0 {
        assert init[m - 1] == cats[m - 1];
      }
    }
  }

  lemma {:induction false} DigitsParse(n: nat)
    ensures ParseDecimal(Digits(n)) == n
    decreases n
  {
    if n >= 10 {
      var d := Digits(n / 10) + [(48 + n % 10) as char];
      assert d[..|d| - 1] == Digits(n / 10);
      DigitsParse(n / 10);
    }
  }

  /** Reading a file number back gives the number: two-digit padding loses
      nothing, so distinct numbers give distinct names. */
  lemma Pad2Parse(n: nat)
    ensures ParseDecimal(Pad2(n)) == n
  {
    DigitsParse(n);
    if n < 10 {
      var p := "0" + Digits(n);
      assert p[..|p| - 1] == "0";
      assert "0"[..0] == [];
    }
  }

  /** Where a file under header `c` lands: inside the header's folder, named
      by its number and its base name. */
  lemma CategorisedTarget(folder: string, c: string, n: nat, item: string)
    requires c in Categories && folder != "" && folder[|folder| - 1] != '/'
    ensures var target := Join(Join(folder, c), NumberedName(n, item));
      Dirname(target) == Join(folder, c) && Basename(target) == NumberedName(n, item)
  {
    var dir := Join(folder, c);
    assert c != [] && c[0] == '0';
    JoinEndsWith(folder, c);
    assert dir[|dir| - 1] != '/';
    assert '/' !in Pad2(n) + " - ";
    JoinSplit(dir, NumberedName(n, item));
  }

  /** Moving a file into a folder with a fresh name adds one to that
      folder's count, so the next file there gets the next number. */
  lemma CountAfterMove(files: map<string, Entry>, item: string, target: string, dir: string)
    requires item in files && target !in files
    requires Dirname(item) != dir && Dirname(target) == dir
    ensures DirCount(MoveEntry(files, item, target), dir) == DirCount(files, dir) + 1
  {
    var after := MoveEntry(files, item, target);
    var before := set p | p in files.Keys && Dirname(p) == dir;
    var now := set p | p in after.Keys && Dirname(p) == dir;
    assert now == before + {target};
  }

  /** Every file kept for the second loop sits above every header. */
  lemma {:induction false} UnsortedHaveNoHeader(files: map<string, Entry>, folder: string, s: seq<string>, n: nat)
    requires HasCategories(s) && n <= |s|
    ensures forall x | x in CategorisePass(files, folder, s, n).1 ::
      exists i | 0 <= i < n :: s[i] == x && forall c | c in Categories :: IndexOf(s, c) >= i
  {
    if n > 0 {
      UnsortedHaveNoHeader(files, folder, s, n - 1);
    }
  }
}
