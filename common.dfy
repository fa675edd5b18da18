/** Small shared vocabulary: optional values, the outcome of a step that may
    abort the whole script, and the two configuration axes of the model. */
module Common {

  datatype Option<+T> = None | Some(value: T)

  /** The result of an operation that may raise an exception nobody catches.
      `Crash` means the script stops at that point; nothing after it runs. */
  datatype Outcome<+T> = Done(value: T) | Crash

  /** The four script versions of the repository. They share one engine and
      differ in a handful of decisions, each modelled as a branch on this value. */
  datatype Version = V26 | V28 | V33 | Mac

  /** What `os.path.normcase` does depends on the host: the identity on POSIX,
      lower-casing (and `/` to `\`) on Windows. */
  datatype Platform = Posix | Windows

  /** Keeps the elements of `s` that satisfy `p`, in order. Defined from the
      end so that a loop appending element by element extends it directly. */
  function Filter<T(!new)>(s: seq<T>, p: T -> bool): (r: seq<T>)
    ensures |r| <= |s|
    ensures forall x :: x in r <==> x in s && p(x)
    decreases |s|
  {
    if s == [] then []
    else
      var init := Filter(s[..|s| - 1], p);
      assert forall x :: x in s <==> x in s[..|s| - 1] || x == s[|s| - 1];
      if p(s[|s| - 1]) then init + [s[|s| - 1]] else init
  }

  lemma FilterAppend<T(!new)>(s: seq<T>, x: T, p: T -> bool)
    ensures Filter(s + [x], p) == if p(x) then Filter(s, p) + [x] else Filter(s, p)
  {
    assert (s + [x])[..|s|] == s;
  }

  /** The elements whose index is in `chosen`, in index order: what a
      multiple-selection list box hands back for its selected rows. */
  function Select<T>(s: seq<T>, chosen: set<int>): (r: seq<T>)
    ensures |r| <= |s|
    ensures forall x | x in r :: x in s
    ensures forall j | 0 <= j < |r| :: exists i | 0 <= i < |s| && i in chosen :: s[i] == r[j]
    ensures forall i | 0 <= i < |s| && i in chosen :: s[i] in r
    ensures (forall i | 0 <= i < |s| :: i in chosen) ==> r == s
    ensures (forall i | 0 <= i < |s| :: i !in chosen) ==> r == []
    decreases |s|
  {
    if s == [] then []
    else
      var init := Select(s[..|s| - 1], chosen);
      assert s == s[..|s| - 1] + [s[|s| - 1]];
      assert forall i | 0 <= i < |s| - 1 :: s[..|s| - 1][i] == s[i];
      if |s| - 1 in chosen then init + [s[|s| - 1]] else init
  }

  /** The selected rows keep the order of the list: one more row adds its
      element at the end exactly when that row is selected. */
  lemma SelectAppend<T>(s: seq<T>, x: T, chosen: set<int>)
    ensures Select(s + [x], chosen) == Select(s, chosen) + (if |s| in chosen then [x] else [])
  {
    assert (s + [x])[..|s|] == s;
  }
}
