/** String and path helpers: the parts of Python's `str` and `os.path` that the
    engine relies on, for ASCII text and POSIX (`/`-separated) paths. */
module Text {
  import opened Common

  // ---------------------------------------------------------------------
  // Characters
  // ---------------------------------------------------------------------

  /** A regex word character (`\w`): letter, digit or underscore. */
  predicate IsWordChar(c: char)
  {
    ('a' <= c <= 'z') || ('A' <= c <= 'Z') || ('0' <= c <= '9') || c == '_'
  }

  /** A regex whitespace character (`\s`). */
  predicate IsSpace(c: char)
  {
    c == ' ' || c == '\t' || c == '\n' || c == '\r' || c == '\U{000B}' || c == '\U{000C}'
  }

  function LowerChar(c: char): (r: char)
    ensures 'A' <= c <= 'Z' ==> 'a' <= r <= 'z' && r as int == c as int + 32
    ensures !('A' <= c <= 'Z') ==> r == c
  {
    if 'A' <= c <= 'Z' then (c as int + 32) as char else c
  }

  /** `str.lower()`. */
  function Lower(s: string): (r: string)
    ensures |r| == |s|
    ensures forall i | 0 <= i < |s| :: r[i] == LowerChar(s[i])
  {
    seq(|s|, i requires 0 <= i < |s| => LowerChar(s[i]))
  }

  /** `os.path.normcase` of one character: the identity on POSIX; on
      Windows, lower case with `/` turned into `\`. */
  function NormCaseChar(platform: Platform, c: char): char
  {
    if platform == Posix then c else if c == '/' then '\\' else LowerChar(c)
  }

  /** `os.path.normcase`. */
  function NormCase(platform: Platform, s: string): (r: string)
    ensures |r| == |s|
    ensures forall i | 0 <= i < |s| :: r[i] == NormCaseChar(platform, s[i])
    ensures platform == Posix ==> r == s
  {
    seq(|s|, i requires 0 <= i < |s| => NormCaseChar(platform, s[i]))
  }

  // ---------------------------------------------------------------------
  // Substrings
  // ---------------------------------------------------------------------

  predicate PrefixAt(s: string, i: int, pat: string)
  {
    0 <= i && i + |pat| <= |s| && s[i..i + |pat|] == pat
  }

  /** `pat in s`. */
  predicate Contains(s: string, pat: string)
  {
    exists i | 0 <= i <= |s| :: PrefixAt(s, i, pat)
  }

  predicate StartsWith(s: string, pre: string)
  {
    |pre| <= |s| && s[..|pre|] == pre
  }

  predicate EndsWith(s: string, suf: string)
  {
    |suf| <= |s| && s[|s| - |suf|..] == suf
  }

  /** `s.replace(pat, rep)`: every non-overlapping occurrence, left to right. */
  function ReplaceAll(s: string, pat: string, rep: string): string
    requires |pat| > 0
    decreases |s|
  {
    if |s| < |pat| then s
    else if s[..|pat|] == pat then rep + ReplaceAll(s[|pat|..], pat, rep)
    else [s[0]] + ReplaceAll(s[1..], pat, rep)
  }

  /** A string that does not contain the pattern is left as it is. */
  lemma {:induction false} ReplaceAbsent(s: string, pat: string, rep: string)
    requires |pat| > 0 && !Contains(s, pat)
    ensures ReplaceAll(s, pat, rep) == s
    decreases |s|
  {
    if |s| >= |pat| {
      assert !PrefixAt(s, 0, pat);
      assert s[..|pat|] != pat;
      forall i | 0 <= i <= |s[1..]| ensures !PrefixAt(s[1..], i, pat) {
        if PrefixAt(s[1..], i, pat) {
          assert s[1..][i..i + |pat|] == s[i + 1..i + 1 + |pat|];
          assert PrefixAt(s, i + 1, pat);
        }
      }
      ReplaceAbsent(s[1..], pat, rep);
    }
  }

  /** `s.rstrip(chars)`. */
  function RStrip(s: string, chars: set<char>): (r: string)
    ensures |r| <= |s| && r == s[..|r|]
    ensures r == "" || r[|r| - 1] !in chars
    ensures forall k | |r| <= k < |s| :: s[k] in chars
    decreases |s|
  {
    if |s| > 0 && s[|s| - 1] in chars then RStrip(s[..|s| - 1], chars) else s
  }

  // ---------------------------------------------------------------------
  // POSIX paths
  // ---------------------------------------------------------------------

  /** `s.rfind(c)`: the last index holding `c`, or -1. */
  function LastIndex(s: string, c: char): (r: int)
    ensures -1 <= r < |s|
    ensures r >= 0 ==> s[r] == c
    ensures forall k | r < k < |s| :: s[k] != c
    decreases |s|
  {
    if |s| == 0 then -1
    else if s[|s| - 1] == c then |s| - 1
    else LastIndex(s[..|s| - 1], c)
  }

  /** `os.path.splitext`: the extension starts at the last dot of the last
      path component, unless that component has only dots before it. */
  function SplitExt(p: string): (r: (string, string))
    ensures r.0 + r.1 == p
    ensures r.1 == "" || (r.1[0] == '.' && '.' !in r.1[1..] && '/' !in r.1)
  {
    var sep := LastIndex(p, '/');
    var dot := LastIndex(p, '.');
    if dot > sep && exists k | sep + 1 <= k < dot :: p[k] != '.' then
      assert p[..dot] + p[dot..] == p;
      (p[..dot], p[dot..])
    else (p, "")
  }

  function Stem(p: string): string { SplitExt(p).0 }

  function Extension(p: string): string { SplitExt(p).1 }

  /** `os.path.basename`. */
  function Basename(p: string): (r: string)
    ensures '/' !in r
  {
    p[LastIndex(p, '/') + 1..]
  }

  /** `os.path.dirname`: the head before the last slash, without its
      trailing slashes unless it is made only of slashes. */
  function Dirname(p: string): string
  {
    var head := p[..LastIndex(p, '/') + 1];
    if head != "" && exists k | 0 <= k < |head| :: head[k] != '/' then RStrip(head, {'/'}) else head
  }

  /** `os.path.join(a, b)` for two components. */
  function Join(a: string, b: string): string
  {
    if |b| > 0 && b[0] == '/' then b
    else if a == "" || a[|a| - 1] == '/' then a + b
    else a + "/" + b
  }

  /** Whatever the directory, a joined path ends with the joined component,
      and so with every end of that component. */
  lemma JoinTail(a: string, b: string, suf: string)
    requires EndsWith(b, suf)
    ensures EndsWith(Join(a, b), suf)
  {
    var j := Join(a, b);
    assert j[|j| - |b|..] == b;
    assert j[|j| - |suf|..] == b[|b| - |suf|..];
  }

  lemma LastIndexAfter(x: string, c: char, y: string)
    requires c !in y && |x| > 0 && x[|x| - 1] == c
    ensures LastIndex(x + y, c) == |x| - 1
  {
    assert (x + y)[|x| - 1] == c;
    forall k | |x| <= k < |x + y| ensures (x + y)[k] != c {
      assert (x + y)[k] == y[k - |x|];
    }
  }

  /** Text without `c` appended to `x` leaves the last `c` where it was. */
  lemma LastIndexSkip(x: string, c: char, y: string)
    requires c !in y
    ensures LastIndex(x + y, c) == LastIndex(x, c)
  {
    var b := LastIndex(x, c);
    forall k | b < k < |x + y| ensures (x + y)[k] != c {
      if k < |x| {
        assert (x + y)[k] == x[k];
      } else {
        assert (x + y)[k] == y[k - |x|];
      }
    }
    if b >= 0 {
      assert (x + y)[b] == x[b];
    }
  }

  /** Appending text without a slash extends the last path component. */
  lemma BasenameAppend(x: string, y: string)
    requires '/' !in y
    ensures Basename(x + y) == Basename(x) + y
  {
    LastIndexSkip(x, '/', y);
    var i := LastIndex(x, '/') + 1;
    assert (x + y)[i..] == x[i..] + y;
  }

  /** Joining a directory with a bare name and taking the names apart again
      gives back both parts. */
  lemma JoinSplit(d: string, n: string)
    requires '/' !in n && d != "" && d[|d| - 1] != '/'
    ensures Basename(Join(d, n)) == n
    ensures Dirname(Join(d, n)) == d
  {
    var j := Join(d, n);
    assert n == [] || n[0] != '/' by {
      if n != [] { assert n[0] in n; }
    }
    assert j == (d + "/") + n;
    LastIndexAfter(d + "/", '/', n);
    assert j[..|d| + 1] == d + "/";
    assert j[|d| + 1..] == n;
    var head := d + "/";
    assert head[|d| - 1] != '/';
    assert RStrip(head, {'/'}) == RStrip(d, {'/'});
  }
}
