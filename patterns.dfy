/** The regular expressions of the pairing step, each written out as a
    predicate on strings. Matching is case-insensitive (ASCII letters), `.`
    never matches a newline, `\s` is ASCII whitespace and `\b` is the ASCII
    word boundary.

    The base-name pattern of `find_matching_files` is
      (.+?) SEP* TOKEN? (\s*\(.*?\))? \.(.+)
    matched at the start of the name. Its separator class and token list
    depend on the version; group 1 is lazy, so it is the shortest non-empty
    prefix after which the rest of the pattern can match. */
module Patterns {
  import opened Common
  import opened Text

  /** The version-dependent parts of the base-name pattern. */
  datatype KeyPattern = KeyPattern(underscoreSeparates: bool, tokens: seq<string>)

  /** main_ver3.3.py: `(?:_|\s)*` and the tokens with the three misspellings of "right". */
  const Key33 := KeyPattern(true, ["left", "right", "l", "r", "rigth", "rigt", "righ"])

  /** main_mac.py and main_ver2.8.py: `(?:_|\s)*` and four tokens. */
  const KeyMac := KeyPattern(true, ["left", "right", "l", "r"])

  /** main_ver2.6.py: `\s*` and four tokens. */
  const Key26 := KeyPattern(false, ["left", "right", "l", "r"])

  function KeyPatternOf(v: Version): KeyPattern
  {
    match v
    case V33 => Key33
    case Mac => KeyMac
    case V28 => KeyMac
    case V26 => Key26
  }

  predicate IsSeparator(p: KeyPattern, c: char)
  {
    IsSpace(c) || (p.underscoreSeparates && c == '_')
  }

  /** `t` starts with the lower-case word `w`, ignoring case. */
  predicate IPrefix(t: string, w: string)
  {
    |w| <= |t| && Lower(t[..|w|]) == w
  }

  /** `\.(.+)`: a dot followed by at least one character of the same line. */
  predicate DotTail(t: string)
  {
    |t| >= 2 && t[0] == '.' && t[1] != '\n'
  }

  /** `.*?\)` followed by the dot tail. */
  predicate CloseThenTail(t: string)
    decreases |t|
  {
    |t| > 0 && ((t[0] == ')' && DotTail(t[1..])) || (t[0] != '\n' && CloseThenTail(t[1..])))
  }

  /** `\s*\(.*?\)` followed by the dot tail. */
  predicate TagThenTail(t: string)
    decreases |t|
  {
    |t| > 0 && ((t[0] == '(' && CloseThenTail(t[1..])) || (IsSpace(t[0]) && TagThenTail(t[1..])))
  }

  /** The optional tag and then the dot tail. */
  predicate OptTagThenTail(t: string)
  {
    DotTail(t) || TagThenTail(t)
  }

  /** One of `tokens` and then the optional tag and the dot tail. */
  predicate TokenThenTail(t: string, tokens: seq<string>)
    decreases |tokens|
  {
    |tokens| > 0 &&
    ((IPrefix(t, tokens[0]) && OptTagThenTail(t[|tokens[0]|..])) || TokenThenTail(t, tokens[1..]))
  }

  /** Everything after group 1: separators, optional token, optional tag, tail. */
  predicate RestMatches(p: KeyPattern, t: string)
    decreases |t|
  {
    OptTagThenTail(t) || TokenThenTail(t, p.tokens) ||
    (|t| > 0 && IsSeparator(p, t[0]) && RestMatches(p, t[1..]))
  }

  /** Group 1 may end at `j`: it is non-empty, on one line, and the rest of
      the pattern matches what follows it. */
  predicate Accepts(p: KeyPattern, s: string, j: int)
  {
    1 <= j <= |s| && '\n' !in s[..j] && RestMatches(p, s[j..])
  }

  /** The least accepted end of group 1 at or after `j`, given that group 1
      can still be extended to `j`. */
  function SplitFrom(p: KeyPattern, s: string, j: nat): (r: Option<nat>)
    requires 1 <= j && j - 1 <= |s| && '\n' !in s[..j - 1]
    ensures r.Some? ==> j <= r.value && Accepts(p, s, r.value)
    ensures forall k | j <= k && (r.None? || k < r.value) :: !Accepts(p, s, k)
    decreases |s| + 1 - j
  {
    if j > |s| then None
    else if s[j - 1] == '\n' then
      assert forall k | j <= k <= |s| :: s[..k][j - 1] == '\n';
      None
    else if RestMatches(p, s[j..]) then
      assert s[..j] == s[..j - 1] + [s[j - 1]];
      Some(j)
    else
      assert s[..j] == s[..j - 1] + [s[j - 1]];
      SplitFrom(p, s, j + 1)
  }

  /** Where lazy group 1 ends in a successful `re.match`, or `None` when the
      name does not match at all. */
  function GroupEnd(p: KeyPattern, s: string): (r: Option<nat>)
    ensures r.Some? ==> Accepts(p, s, r.value)
    ensures r.Some? ==> forall k | 1 <= k < r.value :: !Accepts(p, s, k)
    ensures r.None? ==> forall k :: !Accepts(p, s, k)
  {
    SplitFrom(p, s, 1)
  }

  /** `match.group(1)` of the base-name pattern. */
  function Group1(p: KeyPattern, s: string): Option<string>
  {
    match GroupEnd(p, s)
    case None => None
    case Some(j) => Some(s[..j])
  }

  /** A name matches only if it has a dot with a character after it. */
  lemma {:induction false} RestNeedsDot(p: KeyPattern, t: string)
    requires RestMatches(p, t)
    ensures exists i | 0 <= i < |t| - 1 :: t[i] == '.'
    decreases |t|
  {
    if DotTail(t) {
      assert t[0] == '.';
    } else if TagThenTail(t) {
      TagNeedsDot(t);
    } else if TokenThenTail(t, p.tokens) {
      TokenNeedsDot(t, p.tokens);
    } else {
      RestNeedsDot(p, t[1..]);
      var i :| 0 <= i < |t[1..]| - 1 && t[1..][i] == '.';
      assert t[i + 1] == '.';
    }
  }

  lemma {:induction false} CloseNeedsDot(t: string)
    requires CloseThenTail(t)
    ensures exists i | 0 <= i < |t| - 1 :: t[i] == '.'
    decreases |t|
  {
    if t[0] == ')' && DotTail(t[1..]) {
      assert t[1] == '.';
    } else {
      CloseNeedsDot(t[1..]);
      var i :| 0 <= i < |t[1..]| - 1 && t[1..][i] == '.';
      assert t[i + 1] == '.';
    }
  }

  lemma {:induction false} TagNeedsDot(t: string)
    requires TagThenTail(t)
    ensures exists i | 0 <= i < |t| - 1 :: t[i] == '.'
    decreases |t|
  {
    if t[0] == '(' && CloseThenTail(t[1..]) {
      CloseNeedsDot(t[1..]);
    } else {
      TagNeedsDot(t[1..]);
    }
    var i :| 0 <= i < |t[1..]| - 1 && t[1..][i] == '.';
    assert t[i + 1] == '.';
  }

  lemma {:induction false} TokenNeedsDot(t: string, tokens: seq<string>)
    requires TokenThenTail(t, tokens)
    ensures exists i | 0 <= i < |t| - 1 :: t[i] == '.'
    decreases |tokens|
  {
    if IPrefix(t, tokens[0]) && OptTagThenTail(t[|tokens[0]|..]) {
      var u := t[|tokens[0]|..];
      if DotTail(u) {
        assert t[|tokens[0]|] == '.';
      } else {
        TagNeedsDot(u);
        var i :| 0 <= i < |u| - 1 && u[i] == '.';
        assert t[|tokens[0]| + i] == '.';
      }
    } else {
      TokenNeedsDot(t, tokens[1..]);
    }
  }

  /** A name without a dot (or with a dot only as its last character) is
      never grouped. */
  lemma NoDotNoMatch(p: KeyPattern, s: string)
    requires forall i | 0 <= i < |s| - 1 :: s[i] != '.'
    ensures Group1(p, s).None?
  {
    if GroupEnd(p, s).Some? {
      var j := GroupEnd(p, s).value;
      RestNeedsDot(p, s[j..]);
    }
  }

  /** Group 1 ends in a separator only when it is a single character: a
      longer group ending in one would have been accepted one step earlier. */
  lemma GroupEndsBeforeSeparators(p: KeyPattern, s: string)
    requires GroupEnd(p, s).Some? && GroupEnd(p, s).value > 1
    ensures !IsSeparator(p, s[GroupEnd(p, s).value - 1])
  {
    var j := GroupEnd(p, s).value;
    if IsSeparator(p, s[j - 1]) {
      assert s[j - 1..][1..] == s[j..];
      assert s[..j - 1] == s[..j][..j - 1];
      assert Accepts(p, s, j - 1);
    }
  }

  /** The characters the rest of the pattern can start with. */
  predicate CanStartRest(p: KeyPattern, c: char)
  {
    c == '.' || c == '(' || IsSeparator(p, c) ||
    exists w | w in p.tokens :: |w| > 0 && w[0] == LowerChar(c)
  }

  lemma {:induction false} TagStart(t: string)
    requires TagThenTail(t)
    ensures t[0] == '(' || IsSpace(t[0])
  {
  }

  lemma {:induction false} TokenStart(p: KeyPattern, t: string, tokens: seq<string>)
    requires TokenThenTail(t, tokens)
    requires forall w | w in tokens :: w in p.tokens
    ensures |t| > 0 && CanStartRest(p, t[0])
    decreases |tokens|
  {
    var w := tokens[0];
    if IPrefix(t, w) && OptTagThenTail(t[|w|..]) {
      if |w| > 0 {
        assert Lower(t[..|w|])[0] == LowerChar(t[0]);
        assert w in p.tokens;
      } else if !DotTail(t) {
        assert t[|w|..] == t;
        TagStart(t);
      }
    } else {
      TokenStart(p, t, tokens[1..]);
    }
  }

  /** What the first character after group 1 can be. */
  lemma RestStart(p: KeyPattern, t: string)
    requires RestMatches(p, t)
    ensures |t| > 0 && CanStartRest(p, t[0])
  {
    if TagThenTail(t) {
      TagStart(t);
    } else if !DotTail(t) && TokenThenTail(t, p.tokens) {
      TokenStart(p, t, p.tokens);
    }
  }

  lemma {:induction false} TokenInList(t: string, w: string, tokens: seq<string>)
    requires w in tokens && IPrefix(t, w) && OptTagThenTail(t[|w|..])
    ensures TokenThenTail(t, tokens)
    decreases |tokens|
  {
    if tokens[0] != w {
      TokenInList(t, w, tokens[1..]);
    }
  }

  /** Every token of the three base-name patterns starts with `l` or `r`. */
  predicate TokensStartLR(p: KeyPattern)
  {
    forall w | w in p.tokens :: |w| > 0 && (w[0] == 'l' || w[0] == 'r')
  }

  /** Group 1 cannot end just before a character that starts none of the
      alternatives of the rest of the pattern. */
  lemma NotAcceptedBefore(p: KeyPattern, s: string, k: int)
    requires TokensStartLR(p) && 1 <= k < |s|
    requires s[k] != '.' && s[k] != '(' && !IsSeparator(p, s[k])
    requires LowerChar(s[k]) != 'l' && LowerChar(s[k]) != 'r'
    ensures !Accepts(p, s, k)
  {
    if Accepts(p, s, k) {
      RestStart(p, s[k..]);
    }
  }

  /** The least accepted end is where group 1 ends. */
  lemma GroupEndAt(p: KeyPattern, s: string, j: int)
    requires Accepts(p, s, j)
    requires forall k | 1 <= k < j :: !Accepts(p, s, k)
    ensures GroupEnd(p, s) == Some(j)
    ensures Group1(p, s) == Some(s[..j])
  {
  }

  lemma TokensOfVersions(v: Version)
    ensures TokensStartLR(KeyPatternOf(v))
    ensures "r" in KeyPatternOf(v).tokens && "l" in KeyPatternOf(v).tokens
  {
  }

  lemma GuitarAccepted(v: Version, s: string)
    requires s == "Guitar.wav"
    ensures Accepts(KeyPatternOf(v), s, 5)
  {
    TokensOfVersions(v);
    GuitarPieces(s);
    TokenAccepts(KeyPatternOf(v), s, 5, "r");
  }

  /** Group 1 may end just before a token that the tail follows. */
  lemma TokenAccepts(p: KeyPattern, s: string, j: int, w: string)
    requires 1 <= j <= |s| && '\n' !in s[..j] && w in p.tokens
    requires IPrefix(s[j..], w) && OptTagThenTail(s[j..][|w|..])
    ensures Accepts(p, s, j)
  {
    TokenInList(s[j..], w, p.tokens);
  }

  lemma GuitarPieces(s: string)
    requires s == "Guitar.wav"
    ensures |s| == 10 && '\n' !in s[..5]
    ensures IPrefix(s[5..], "r") && DotTail(s[5..][1..])
    ensures forall k | 1 <= k < 5 :: s[k] != '.' && s[k] != '(' && !IsSpace(s[k]) && s[k] != '_'
    ensures forall k | 1 <= k < 5 :: LowerChar(s[k]) != 'l' && LowerChar(s[k]) != 'r'
  {
    assert s[5..] == "r.wav" && s[..5] == "Guita";
    assert "r.wav"[..1] == "r" && "r.wav"[1..] == ".wav";
  }

  lemma GuitarNotEarlier(v: Version, s: string, k: int)
    requires s == "Guitar.wav" && 1 <= k < 5
    ensures !Accepts(KeyPatternOf(v), s, k)
  {
    TokensOfVersions(v);
    GuitarPieces(s);
    NotAcceptedBefore(KeyPatternOf(v), s, k);
  }

  /** The lazy group leaves a trailing `r` to the optional token, so the
      base of "Guitar.wav" is "Guita" in every version. */
  lemma GuitarBase(v: Version, s: string)
    requires s == "Guitar.wav"
    ensures Group1(KeyPatternOf(v), s) == Some("Guita")
  {
    GuitarAccepted(v, s);
    forall k | 1 <= k < 5 ensures !Accepts(KeyPatternOf(v), s, k) {
      GuitarNotEarlier(v, s, k);
    }
    GroupEndAt(KeyPatternOf(v), s, 5);
    assert s[..5] == "Guita";
  }

  // ---------------------------------------------------------------------
  // Left / right path tests (`re.search` over the whole path)
  // ---------------------------------------------------------------------

  /** An alternation of `\bw\b` for each bare word and `_w\b` for each
      underscored word. */
  datatype SidePattern = SidePattern(bare: seq<string>, underscored: seq<string>)

  /** `\bL\b|_L\b|\bleft\b|_left\b`, the left test of 2.8, 3.3 and macOS. */
  const Left := SidePattern(["l", "left"], ["l", "left"])

  /** The right test of 3.3, which also accepts three misspellings as bare words. */
  const Right33 := SidePattern(["r", "right", "rigth", "rigt", "righ"], ["r", "right"])

  /** `\bR\b|_R\b|\bright\b|_right\b`, the right test of 2.8 and macOS. */
  const RightMac := SidePattern(["r", "right"], ["r", "right"])

  /** `\bL\b|\bleft\b` and `\bR\b|\bright\b` of 2.6. */
  const Left26 := SidePattern(["l", "left"], [])
  const Right26 := SidePattern(["r", "right"], [])

  /** `\b` at position `i`: exactly one of the neighbours is a word character. */
  predicate Boundary(s: string, i: int)
  {
    0 <= i <= |s| && ((i > 0 && IsWordChar(s[i - 1])) != (i < |s| && IsWordChar(s[i])))
  }

  predicate BareAt(s: string, i: nat, w: string)
  {
    i <= |s| && Boundary(s, i) && IPrefix(s[i..], w) && Boundary(s, i + |w|)
  }

  predicate UnderscoredAt(s: string, i: nat, w: string)
  {
    i < |s| && s[i] == '_' && IPrefix(s[i + 1..], w) && Boundary(s, i + 1 + |w|)
  }

  predicate AnyBareAt(s: string, i: nat, ws: seq<string>)
    decreases |ws|
  {
    |ws| > 0 && (BareAt(s, i, ws[0]) || AnyBareAt(s, i, ws[1..]))
  }

  predicate AnyUnderscoredAt(s: string, i: nat, ws: seq<string>)
    decreases |ws|
  {
    |ws| > 0 && (UnderscoredAt(s, i, ws[0]) || AnyUnderscoredAt(s, i, ws[1..]))
  }

  /** One alternative of the pattern matches starting at `i`. */
  predicate MatchesAt(p: SidePattern, s: string, i: nat)
  {
    AnyBareAt(s, i, p.bare) || AnyUnderscoredAt(s, i, p.underscored)
  }

  /** `re.search` from position `i` onwards. */
  predicate SearchFrom(p: SidePattern, s: string, i: nat)
    decreases |s| + 1 - i
  {
    i <= |s| && (MatchesAt(p, s, i) || SearchFrom(p, s, i + 1))
  }

  /** `re.search(pattern, s, re.IGNORECASE)` succeeds. */
  predicate Search(p: SidePattern, s: string)
  {
    SearchFrom(p, s, 0)
  }

  /** The scan from `i` finds a match exactly when some position at or after
      `i` starts one. */
  lemma {:induction false} SearchFromMeans(p: SidePattern, s: string, i: nat)
    ensures SearchFrom(p, s, i) <==> exists k | i <= k <= |s| :: MatchesAt(p, s, k)
    decreases |s| + 1 - i
  {
    if i <= |s| {
      SearchFromMeans(p, s, i + 1);
    }
  }

  /** `re.search` succeeds exactly when the pattern matches at some position. */
  lemma SearchMeans(p: SidePattern, s: string)
    ensures Search(p, s) <==> exists k | 0 <= k <= |s| :: MatchesAt(p, s, k)
  {
    SearchFromMeans(p, s, 0);
  }
}
