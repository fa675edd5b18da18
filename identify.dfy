/** Labelling every recording of a session with its channel layout
    (`contains_labeled_files`, `identify_audio_type`). */
module Identify {
  import opened Common
  import opened Text
  import opened Audio
  import opened Classifier
  import opened Disk

  // ---------------------------------------------------------------------
  // contains_labeled_files
  // ---------------------------------------------------------------------

  /** A name that already carries a `(mono)` or `(stereo)` label. */
  predicate HasLabel(name: string)
  {
    Contains(name, "(mono)") || Contains(name, "(stereo)")
  }

  /** Some file anywhere in the walk already carries a label. */
  predicate Labelled(walk: seq<Folder>)
  {
    exists i, k | 0 <= i < |walk| && 0 <= k < |walk[i].files| :: HasLabel(walk[i].files[k])
  }

  /** `contains_labeled_files`: the walk with its early `return True`. */
  method ContainsLabeledFiles(walk: seq<Folder>) returns (found: bool)
    ensures found <==> Labelled(walk)
  {
    var i := 0;
    while i < |walk|
      invariant 0 <= i <= |walk|
      invariant forall i', k | 0 <= i' < i && 0 <= k < |walk[i'].files| :: !HasLabel(walk[i'].files[k])
    {
      var files := walk[i].files;
      var j := 0;
      while j < |files|
        invariant 0 <= j <= |files|
        invariant forall k | 0 <= k < j :: !HasLabel(files[k])
      {
        if Contains(files[j], "(mono)") || Contains(files[j], "(stereo)") {
          return true;
        }
        j := j + 1;
      }
      i := i + 1;
    }
    return false;
  }

  // ---------------------------------------------------------------------
  // identify_audio_type
  // ---------------------------------------------------------------------

  /** The names the labelling loop looks at: `.wav` files (a case-sensitive
      test) and, on macOS, only those that do not start with a dot. */
  predicate IsCandidate(v: Version, name: string)
  {
    EndsWith(name, ".wav") && (v == Mac ==> !StartsWith(name, "."))
  }

  /** The walk as the labelling loop sees it: each folder's `wav_files`. */
  function Candidates(v: Version, walk: seq<Folder>): (cw: seq<Folder>)
    ensures |cw| == |walk|
    ensures forall i | 0 <= i < |walk| :: cw[i] == Folder(walk[i].path, Filter(walk[i].files, n => IsCandidate(v, n)))
  {
    seq(|walk|, i requires 0 <= i < |walk| => Folder(walk[i].path, Filter(walk[i].files, n => IsCandidate(v, n))))
  }

  /** The new name of a labelled file: its stem and ` (<tag>).wav`. */
  function LabelName(name: string, l: Label): string
  {
    Stem(name) + " (" + Tag(l) + ").wav"
  }

  /** What one candidate does to the disk, and the path it adds to the list
      of dualmono files. Already labelled names and unreadable files are
      skipped. A silent_channel file (never in 2.6) is written out as
      `<stem> (mono).wav` from the channel that is not silent and the
      original is archived; any other file is renamed to its label. */
  function IdentifyStep(files: map<string, Entry>, dir: string, name: string, v: Version): (r: (map<string, Entry>, Option<string>))
    ensures HasLabel(name) || GetAudioType(files, Join(dir, name), v).None? ==> r == (files, None)
    ensures r.1.Some? <==> !HasLabel(name) && GetAudioType(files, Join(dir, name), v) == Some(DualMono)
    ensures r.1.Some? ==> r.1.value == Join(dir, LabelName(name, DualMono)) && r.1.value in r.0
  {
    if HasLabel(name) then (files, None)
    else
      var path := Join(dir, name);
      match GetAudioType(files, path, v)
      case None => (files, None)
      case Some(l) =>
        if l == SilentChannel then
          var r := files[path].rec;
          var written := files[Join(dir, LabelName(name, Mono)) := Audio(Channel(r, ActiveChannel(r)))];
          (MoveEntry(written, path, Join(Join(dir, ObsoleteDir), name)), None)
        else
          var target := Join(dir, LabelName(name, l));
          (MoveEntry(files, path, target), if l == DualMono then Some(target) else None)
  }

  /** One file's effect on the disk and on the list of dualmono files. */
  type Step = (map<string, Entry>, Listed) -> (map<string, Entry>, Option<string>)

  function StepFn(v: Version): Step
  {
    (files: map<string, Entry>, e: Listed) => IdentifyStep(files, e.dir, e.name, v)
  }

  /** The disk and the list after running `step` over the files `es`, in
      order: the list collects what each step reports. */
  function Pass(step: Step, files: map<string, Entry>, es: seq<Listed>): (map<string, Entry>, seq<string>)
    decreases |es|
  {
    if es == [] then (files, [])
    else
      var before := Pass(step, files, es[..|es| - 1]);
      var after := step(before.0, es[|es| - 1]);
      (after.0, before.1 + (if after.1.Some? then [after.1.value] else []))
  }

  /** `identify_audio_type`'s effect on the candidates `es`. */
  function IdentifyPass(files: map<string, Entry>, es: seq<Listed>, v: Version): (map<string, Entry>, seq<string>)
  {
    Pass(StepFn(v), files, es)
  }

  lemma PassStep(step: Step, files: map<string, Entry>, es: seq<Listed>, e: Listed)
    ensures var before := Pass(step, files, es);
      var after := step(before.0, e);
      Pass(step, files, es + [e]) == (after.0, before.1 + (if after.1.Some? then [after.1.value] else []))
  {
    assert (es + [e])[..|es|] == es;
  }

  lemma IdentifyPassStep(files: map<string, Entry>, es: seq<Listed>, e: Listed, v: Version)
    ensures var before := IdentifyPass(files, es, v);
      var step := IdentifyStep(before.0, e.dir, e.name, v);
      IdentifyPass(files, es + [e], v) == (step.0, before.1 + (if step.1.Some? then [step.1.value] else []))
  {
    PassStep(StepFn(v), files, es, e);
  }

  /** What every step reports has the suffix, so the whole list does. */
  lemma {:induction false} PassReports(step: Step, files: map<string, Entry>, es: seq<Listed>, suffix: string)
    requires forall m, e :: step(m, e).1.Some? ==> EndsWith(step(m, e).1.value, suffix)
    ensures forall p | p in Pass(step, files, es).1 :: EndsWith(p, suffix)
    decreases |es|
  {
    if es != [] {
      PassReports(step, files, es[..|es| - 1], suffix);
    }
  }

  /** The body of the inner loop for one file, with its `try`. */
  method IdentifyFile(fs: FileSystem, dir: string, name: string, v: Version) returns (dualmono: Option<string>)
    modifies fs
    ensures (fs.files, dualmono) == IdentifyStep(old(fs.files), dir, name, v)
  {
    if Contains(name, "(mono)") || Contains(name, "(stereo)") {
      return None;
    }
    var path := Join(dir, name);
    var audioType := GetAudioType(fs.files, path, v);
    if audioType.None? {
      return None;
    }
    if audioType.value == SilentChannel {
      var data := fs.Read(path);
      fs.Write(Join(dir, LabelName(name, Mono)), Channel(data.value, ActiveChannel(data.value)));
      var moved := fs.Move(path, Join(Join(dir, ObsoleteDir), name));
      dualmono := None;
    } else {
      var newPath := Join(dir, LabelName(name, audioType.value));
      var renamed := fs.Move(path, newPath);
      dualmono := if audioType.value == DualMono then Some(newPath) else None;
    }
  }

  /** The inner loop over one directory's `wav_files`. */
  method IdentifyFolder(fs: FileSystem, ghost files0: map<string, Entry>, ghost es: seq<Listed>, found: seq<string>,
                        f: Folder, v: Version) returns (dualmono: seq<string>)
    requires (fs.files, found) == IdentifyPass(files0, es, v)
    modifies fs
    ensures (fs.files, dualmono) == IdentifyPass(files0, es + Row(f), v)
  {
    dualmono := found;
    RowEnds(es, f);
    var j := 0;
    while j < |f.files|
      invariant 0 <= j <= |f.files|
      invariant (fs.files, dualmono) == IdentifyPass(files0, es + Row(f)[..j], v)
    {
      RowStepAfter(es, f, j);
      dualmono := IdentifyNext(fs, files0, es + Row(f)[..j], dualmono, f.path, f.files[j], v);
      j := j + 1;
    }
  }

  /** One file of the inner loop, appended to the pass so far. */
  method IdentifyNext(fs: FileSystem, ghost files0: map<string, Entry>, ghost es: seq<Listed>, found: seq<string>,
                      dir: string, name: string, v: Version) returns (dualmono: seq<string>)
    requires (fs.files, found) == IdentifyPass(files0, es, v)
    modifies fs
    ensures (fs.files, dualmono) == IdentifyPass(files0, es + [Listed(dir, name)], v)
  {
    IdentifyPassStep(files0, es, Listed(dir, name), v);
    var added := IdentifyFile(fs, dir, name, v);
    dualmono := found + (if added.Some? then [added.value] else []);
  }

  /** `identify_audio_type` up to the end of its walk: it returns the new
      paths of the dualmono files in the order they were processed. */
  method IdentifyAudioType(fs: FileSystem, walk: seq<Folder>, v: Version) returns (dualmono: seq<string>)
    modifies fs
    ensures (fs.files, dualmono) == IdentifyPass(old(fs.files), Listing(Candidates(v, walk)), v)
  {
    ghost var files0 := fs.files;
    ghost var cw := Candidates(v, walk);
    dualmono := [];
    var i := 0;
    while i < |walk|
      invariant 0 <= i <= |walk|
      invariant (fs.files, dualmono) == IdentifyPass(files0, Listing(cw[..i]), v)
    {
      var wavFiles := Filter(walk[i].files, n => IsCandidate(v, n));
      assert cw[i] == Folder(walk[i].path, wavFiles);
      ListingStep(cw, i);
      dualmono := IdentifyFolder(fs, files0, Listing(cw[..i]), dualmono, Folder(walk[i].path, wavFiles), v);
      i := i + 1;
    }
    assert cw[..|walk|] == cw;
  }

  // ---------------------------------------------------------------------
  // Properties of the labelling
  // ---------------------------------------------------------------------

  lemma ContainsExtends(a: string, b: string, pat: string)
    requires Contains(a, pat)
    ensures Contains(a + b, pat)
  {
    var i :| 0 <= i <= |a| && PrefixAt(a, i, pat);
    assert (a + b)[i..i + |pat|] == a[i..i + |pat|];
    assert PrefixAt(a + b, i, pat);
  }

  lemma PrefixInLeft(a: string, b: string, i: int, pat: string)
    requires PrefixAt(a + b, i, pat) && i + |pat| <= |a|
    ensures PrefixAt(a, i, pat)
  {
    assert (a + b)[i..i + |pat|] == a[i..i + |pat|];
  }

  lemma PrefixShift(a: string, b: string, i: int, pat: string)
    requires PrefixAt(a + b, |a| + i, pat) && 0 <= i
    ensures PrefixAt(b, i, pat)
  {
    assert (a + b)[|a| + i..|a| + i + |pat|] == b[i..i + |pat|];
  }

  /** `(w)` at the start of `(tag).wav` means the tag is `w`. */
  lemma LabelAtStart(tag: string, w: string)
    requires ')' !in tag && ')' !in w
    requires PrefixAt("(" + tag + ").wav", 0, "(" + w + ")")
    ensures tag == w
  {
    var s, pat := "(" + tag + ").wav", "(" + w + ")";
    assert forall k | 0 <= k < |tag| :: s[k + 1] == tag[k];
    assert s[|tag| + 1] == ')';
    assert forall k | 0 <= k < |w| :: pat[k + 1] == w[k];
    assert pat[|w| + 1] == ')';
    assert s[..|pat|] == pat;
    if |tag| != |w| {
      assert false;
    } else {
      assert forall k | 0 <= k < |w| :: tag[k] == s[k + 1] == pat[k + 1] == w[k];
    }
  }

  lemma NoSpaceInPattern(w: string, k: int)
    requires ' ' !in w && 1 <= k < |w| + 2
    ensures ("(" + w + ")")[k] != ' '
  {
    if k <= |w| {
      assert ("(" + w + ")")[k] == w[k - 1];
    }
  }

  /** No `(` follows the opening parenthesis of the label. */
  lemma NoOpenInTail(tag: string, i: int)
    requires '(' !in tag && 1 <= i < |"(" + tag + ").wav"|
    ensures ("(" + tag + ").wav")[i] != '('
  {
    var s := "(" + tag + ").wav";
    if i <= |tag| {
      assert s[i] == tag[i - 1];
    } else {
      assert s[i] in ").wav";
    }
  }

  /** Where `(w)` can occur in `stem (tag).wav` when the stem does not hold
      it: exactly at the label, and only when the tag is `w`. */
  lemma TaggedContains(stem: string, tag: string, w: string)
    requires !Contains(stem, "(" + w + ")")
    requires '(' !in tag && ')' !in tag && ')' !in w && ' ' !in w
    ensures Contains(stem + " (" + tag + ").wav", "(" + w + ")") <==> tag == w
  {
    var pat, head, tail := "(" + w + ")", stem + " ", "(" + tag + ").wav";
    var s := stem + " (" + tag + ").wav";
    assert s == head + tail;
    if tag == w {
      PrefixShiftBack(head, tail, pat);
      assert PrefixAt(s, |head|, pat);
    }
    if Contains(s, pat) {
      var i :| 0 <= i <= |s| && PrefixAt(s, i, pat);
      forall k | 1 <= k < |tail| ensures tail[k] != '(' {
        NoOpenInTail(tag, k);
      }
      OccurrenceAtLabel(stem, tail, w, s, i);
      PrefixShift(head, tail, 0, pat);
      LabelAtStart(tag, w);
    }
  }

  /** An occurrence of `(w)` in `stem (tag).wav` starts at the label. */
  lemma OccurrenceAtLabel(stem: string, tail: string, w: string, s: string, i: int)
    requires !Contains(stem, "(" + w + ")") && ' ' !in w
    requires tail != [] && forall k | 1 <= k < |tail| :: tail[k] != '('
    requires s == stem + " " + tail && PrefixAt(s, i, "(" + w + ")")
    ensures i == |stem| + 1
  {
    var pat, n := "(" + w + ")", |stem|;
    assert s[i] == pat[0] == '(';
    assert s[n] == ' ';
    assert s == stem + (" " + tail);
    if i + |pat| <= n {
      PrefixInLeft(stem, " " + tail, i, pat);
      assert false;
    } else if i < n {
      NoSpaceInPattern(w, n - i);
      assert false;
    } else if i == n {
      assert false;
    } else if i > n + 1 {
      assert false;
    }
  }

  lemma PrefixShiftBack(a: string, b: string, pat: string)
    requires PrefixAt(b, 0, pat)
    ensures PrefixAt(a + b, |a|, pat)
  {
    assert (a + b)[|a|..|a| + |pat|] == b[..|pat|];
  }

  /** A labelled name carries a skip label exactly when its label is mono or
      stereo; dualmono, silent_channel and unknown files are looked at again
      by a later run. A silent_channel file's replacement is named as a mono
      one, so it is skipped too. */
  lemma LabelNameLabeled(name: string, l: Label)
    requires !HasLabel(name)
    ensures HasLabel(LabelName(name, l)) <==> l == Mono || l == Stereo
  {
    assert Stem(name) + Extension(name) == name;
    TagShape(l);
    LabelledForm(Stem(name), Extension(name), Tag(l));
  }

  /** The same for any stem, extension and tag free of parentheses. */
  lemma LabelledForm(stem: string, ext: string, tag: string)
    requires !Contains(stem + ext, "(mono)") && !Contains(stem + ext, "(stereo)")
    requires '(' !in tag && ')' !in tag
    ensures HasLabel(stem + " (" + tag + ").wav") <==> tag == "mono" || tag == "stereo"
  {
    if Contains(stem, "(mono)") {
      ContainsExtends(stem, ext, "(mono)");
    }
    if Contains(stem, "(stereo)") {
      ContainsExtends(stem, ext, "(stereo)");
    }
    SkipPatterns();
    TaggedContains(stem, tag, "mono");
    TaggedContains(stem, tag, "stereo");
  }

  lemma SkipPatterns()
    ensures "(mono)" == "(" + "mono" + ")" && "(stereo)" == "(" + "stereo" + ")"
  {
  }

  lemma TagShape(l: Label)
    ensures '(' !in Tag(l) && ')' !in Tag(l)
    ensures Tag(l) == "mono" <==> l == Mono
    ensures Tag(l) == "stereo" <==> l == Stereo
  {
  }

  /** Every path `identify_audio_type` returns ends in ` (dualmono).wav`. */
  lemma IdentifyReturnsDualmono(files: map<string, Entry>, es: seq<Listed>, v: Version)
    ensures forall p | p in IdentifyPass(files, es, v).1 :: EndsWith(p, " (dualmono).wav")
  {
    forall m, e | StepFn(v)(m, e).1.Some? ensures EndsWith(StepFn(v)(m, e).1.value, " (dualmono).wav") {
      StepReportsDualmono(m, e.dir, e.name, v);
    }
    PassReports(StepFn(v), files, es, " (dualmono).wav");
  }

  lemma StepReportsDualmono(files: map<string, Entry>, dir: string, name: string, v: Version)
    ensures var r := IdentifyStep(files, dir, name, v);
      r.1.Some? ==> EndsWith(r.1.value, " (dualmono).wav")
  {
    DualmonoNameEnds(dir, name);
  }

  lemma DualmonoNameEnds(dir: string, name: string)
    ensures EndsWith(Join(dir, LabelName(name, DualMono)), " (dualmono).wav")
  {
    TaggedEnds(dir, Stem(name), Tag(DualMono));
    DualmonoSuffix();
  }

  lemma TaggedEnds(dir: string, stem: string, tag: string)
    ensures EndsWith(Join(dir, stem + " (" + tag + ").wav"), " (" + tag + ").wav")
  {
    var suf := " (" + tag + ").wav";
    assert stem + " (" + tag + ").wav" == stem + suf;
    assert (stem + suf)[|stem + suf| - |suf|..] == suf;
    JoinTail(dir, stem + suf, suf);
  }

  lemma DualmonoSuffix()
    ensures " (" + Tag(DualMono) + ").wav" == " (dualmono).wav"
  {
  }

  /** An already labelled name is left alone. */
  lemma LabelledSkipped(files: map<string, Entry>, dir: string, name: string, v: Version)
    requires HasLabel(name)
    ensures IdentifyStep(files, dir, name, v) == (files, None)
  {
  }

  /** Any label but silent_channel renames the file to `<stem> (<label>).wav`
      with its contents unchanged; only dualmono reports the new path. If the
      new name is the old one, the file simply stays where it is. Nothing
      else on disk changes. */
  lemma LabelRenamed(files: map<string, Entry>, dir: string, name: string, v: Version)
    requires !HasLabel(name)
    requires Join(dir, name) in files && files[Join(dir, name)].Audio?
    requires Classify(files[Join(dir, name)].rec, v) != SilentChannel
    ensures var path := Join(dir, name);
      var l := Classify(files[path].rec, v);
      var target := Join(dir, LabelName(name, l));
      var after := IdentifyStep(files, dir, name, v);
      && after.1 == (if l == DualMono then Some(target) else None)
      && target in after.0 && after.0[target] == files[path]
      && (path in after.0 <==> path == target)
      && after.0.Keys == files.Keys - {path} + {target}
      && forall k | k in files && k != path && k != target :: k in after.0 && after.0[k] == files[k]
  {
  }

  /** A silent_channel file is replaced by a one-channel file holding the
      channel that is not silent (the right one when both are), and the
      original goes to the archive. */
  lemma SilentChannelReplaced(files: map<string, Entry>, dir: string, name: string, v: Version)
    requires !HasLabel(name)
    requires Join(dir, name) in files && files[Join(dir, name)].Audio?
    requires Classify(files[Join(dir, name)].rec, v) == SilentChannel
    requires var p, m, a := Join(dir, name), Join(dir, LabelName(name, Mono)), Join(Join(dir, ObsoleteDir), name);
      p != m && p != a && m != a
    ensures var r := files[Join(dir, name)].rec;
      var after := IdentifyStep(files, dir, name, v);
      && after.1 == None
      && Join(dir, name) !in after.0
      && after.0[Join(dir, LabelName(name, Mono))] == Audio(Channel(r, ActiveChannel(r)))
      && after.0[Join(Join(dir, ObsoleteDir), name)] == files[Join(dir, name)]
  {
  }
}
