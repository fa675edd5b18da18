/** The confirmation steps that drive the engine: labelling
    (`confirm_identify_audio_type`), dualmono conversion
    (`confirm_convert_dualmono_to_mono`) and the left/right merge
    (`confirm_convert_LR_to_stereo`). The answers the user gives in the
    dialogs are parameters: a yes/no flag or the set of selected rows. */
module Session {
  import opened Common
  import opened Text
  import opened Audio
  import opened Classifier
  import opened Disk
  import opened Reconstruct
  import opened Pairing
  import opened Identify

  // ---------------------------------------------------------------------
  // confirm_identify_audio_type
  // ---------------------------------------------------------------------

  /** The disk afterwards and the dualmono list handed on to the next step.
      Nothing happens when the tree already holds a labelled name or the
      user declines. 3.3 and macOS hand the list on; 2.6 and 2.8 convert it
      inside `identify_audio_type` (when it is not empty, after their own
      yes/no question) and hand nothing on. */
  function IdentifyFlow(files: map<string, Entry>, walk: seq<Folder>, identify: bool, convert: bool, v: Version)
    : (r: (map<string, Entry>, seq<string>))
    ensures Labelled(walk) || !identify ==> r == (files, [])
    ensures !Guarded(v) ==> r.1 == []
    ensures forall p | p in r.1 :: EndsWith(p, " (dualmono).wav")
  {
    if Labelled(walk) || !identify then (files, [])
    else
      var found := IdentifyPass(files, Listing(Candidates(v, walk)), v);
      IdentifyReturnsDualmono(files, Listing(Candidates(v, walk)), v);
      if Guarded(v) then found
      else if found.1 != [] && convert then (DualmonoPass(found.0, found.1, v), [])
      else (found.0, [])
  }

  method ConfirmIdentifyAudioType(fs: FileSystem, walk: seq<Folder>, identify: bool, convert: bool, v: Version)
    returns (dualmono: seq<string>)
    modifies fs
    ensures (fs.files, dualmono) == IdentifyFlow(old(fs.files), walk, identify, convert, v)
  {
    var labelled := ContainsLabeledFiles(walk);
    if labelled || !identify {
      return [];
    }
    dualmono := IdentifyAudioType(fs, walk, v);
    if !Guarded(v) {
      if dualmono != [] {
        ConvertDualmonoToMono(fs, dualmono, convert, v);
      }
      dualmono := [];
    }
  }

  // ---------------------------------------------------------------------
  // confirm_convert_dualmono_to_mono
  // ---------------------------------------------------------------------

  /** 3.3 and macOS: the rows the user selects in the list of dualmono files
      are converted, without a further question. */
  method ConfirmConvertDualmono(fs: FileSystem, dualmono: seq<string>, chosen: set<int>, v: Version)
    requires Guarded(v)
    modifies fs
    ensures fs.files == DualmonoPass(old(fs.files), Select(dualmono, chosen), v)
  {
    if dualmono == [] {
      return;
    }
    var selected := Select(dualmono, chosen);
    if selected == [] {
      return;
    }
    ConvertDualmonoToMono(fs, selected, true, v);
  }

  /** The names 2.6 and 2.8 convert: entries of the top directory whose
      lower-cased name ends in `(dualmono).wav`, as bare names. */
  function TopLevelDualmono(listing: seq<string>): (r: seq<string>)
    ensures forall n :: n in r <==> n in listing && EndsWith(Lower(n), "(dualmono).wav")
  {
    Filter(listing, n => EndsWith(Lower(n), "(dualmono).wav"))
  }

  /** 2.6 and 2.8: `listing` is `os.listdir(folder)`. */
  method ConfirmConvertDualmonoLegacy(fs: FileSystem, listing: seq<string>, v: Version)
    requires !Guarded(v)
    modifies fs
    ensures fs.files == DualmonoPass(old(fs.files), TopLevelDualmono(listing), v)
  {
    var names := TopLevelDualmono(listing);
    if names != [] {
      ConvertDualmonoToMono(fs, names, true, v);
    }
  }

  /** A bare name is looked up as it stands, not under the folder: a session
      folder that is not the working directory has its top-level dualmono
      files skipped (the read fails and is caught). */
  lemma BareNamesMissFolder(files: map<string, Entry>, listing: seq<string>, v: Version)
    requires forall n | n in listing :: n !in files
    ensures DualmonoPass(files, TopLevelDualmono(listing), v) == files
  {
    DualmonoPassSkipsUnreadable(files, TopLevelDualmono(listing), v);
  }

  // ---------------------------------------------------------------------
  // confirm_convert_LR_to_stereo
  // ---------------------------------------------------------------------

  /** `if not is_mono(f): f = convert_to_mono(f)`: the path the merge goes
      on with. */
  function MonoInput(files: map<string, Entry>, path: string, v: Version): (r: (Outcome<Option<string>>, map<string, Entry>))
    ensures IsMono(files, path, v).Crash? ==> r == (Crash, files)
    ensures IsMono(files, path, v) == Done(true) ==> r == (Done(Some(path)), files)
    ensures IsMono(files, path, v) == Done(false) ==> r == ToMono(files, path, v)
  {
    match IsMono(files, path, v)
    case Crash => (Crash, files)
    case Done(mono) => if mono then (Done(Some(path)), files) else ToMono(files, path, v)
  }

  /** One pair: both inputs made mono, then merged. */
  function MergePair(files: map<string, Entry>, l: string, r: string, v: Version, plat: Platform)
    : (Outcome<Option<string>>, map<string, Entry>)
  {
    var a := MonoInput(files, l, v);
    if a.0.Crash? then a
    else
      var b := MonoInput(a.1, r, v);
      if b.0.Crash? then b
      else ToStereo(b.1, a.0.value, b.0.value, v, plat)
  }

  /** The loop over the pairs: true when it ran to the end, false when a
      pair raised and stopped the script. */
  function MergeAll(files: map<string, Entry>, pairs: seq<(string, string)>, v: Version, plat: Platform)
    : (bool, map<string, Entry>)
    decreases |pairs|
  {
    if pairs == [] then (true, files)
    else
      var m := MergePair(files, pairs[0].0, pairs[0].1, v, plat);
      if m.0.Crash? then (false, m.1)
      else MergeAll(m.1, pairs[1..], v, plat)
  }

  method MergeOne(fs: FileSystem, l: string, r: string, v: Version, plat: Platform) returns (o: Outcome<Option<string>>)
    modifies fs
    ensures (o, fs.files) == MergePair(old(fs.files), l, r, v, plat)
  {
    var left: Option<string> := Some(l);
    var isMono := IsMono(fs.files, l, v);
    if isMono.Crash? {
      return Crash;
    }
    if !isMono.value {
      var converted := ConvertToMono(fs, l, v);
      if converted.Crash? {
        return Crash;
      }
      left := converted.value;
    }
    var right: Option<string> := Some(r);
    isMono := IsMono(fs.files, r, v);
    if isMono.Crash? {
      return Crash;
    }
    if !isMono.value {
      var converted := ConvertToMono(fs, r, v);
      if converted.Crash? {
        return Crash;
      }
      right := converted.value;
    }
    o := ConvertToStereo(fs, left, right, v, plat);
  }

  method MergePairs(fs: FileSystem, pairs: seq<(string, string)>, v: Version, plat: Platform) returns (finished: bool)
    modifies fs
    ensures (finished, fs.files) == MergeAll(old(fs.files), pairs, v, plat)
  {
    var i := 0;
    while i < |pairs|
      invariant 0 <= i <= |pairs|
      invariant MergeAll(old(fs.files), pairs, v, plat) == MergeAll(fs.files, pairs[i..], v, plat)
    {
      var o := MergeOne(fs, pairs[i].0, pairs[i].1, v, plat);
      if o.Crash? {
        return false;
      }
      assert pairs[i..][1..] == pairs[i + 1..];
      i := i + 1;
    }
    return true;
  }

  /** The groups 2.6 and 2.8 try to merge: those with more than one path. */
  function LargeGroups(g: Groups): (r: seq<string>)
    ensures forall k :: k in r <==> k in g.order && k in g.paths && |g.paths[k]| > 1
  {
    Filter(g.order, k => k in g.paths && |g.paths[k]| > 1)
  }

  /** The whole step. 3.3 and macOS merge the rows the user selects among
      the pairs shown; 2.6 and 2.8 show the pairs, ask once, and then merge
      every group of more than one path that yields a pair. */
  function StereoFlow(files: map<string, Entry>, walk: seq<Folder>, chosen: set<int>, convert: bool, v: Version, plat: Platform)
    : (bool, map<string, Entry>)
  {
    var g := Grouped(KeyFn(v, plat), Listing(walk));
    if g.order == [] then (true, files)
    else
      var pairs := PairList(v, g.order, g.paths);
      if Guarded(v) then MergeAll(files, Select(pairs, chosen), v, plat)
      else if pairs == [] || !convert then (true, files)
      else MergeAll(files, PairList(v, LargeGroups(g), g.paths), v, plat)
  }

  method ConfirmConvertLRToStereo(fs: FileSystem, walk: seq<Folder>, chosen: set<int>, convert: bool, v: Version, plat: Platform)
    returns (finished: bool)
    modifies fs
    ensures (finished, fs.files) == StereoFlow(old(fs.files), walk, chosen, convert, v, plat)
  {
    var g := FindMatchingFiles(v, plat, walk);
    if g.order == [] {
      return true;
    }
    var pairs := ShowLRPairs(v, g);
    if Guarded(v) {
      var selected := Select(pairs, chosen);
      if selected == [] {
        return true;
      }
      finished := MergePairs(fs, selected, v, plat);
    } else {
      if pairs == [] || !convert {
        return true;
      }
      var merged := ShowLRPairs(v, Groups(LargeGroups(g), g.paths));
      finished := MergePairs(fs, merged, v, plat);
    }
  }

  // ---------------------------------------------------------------------
  // Properties of the merge loop
  // ---------------------------------------------------------------------

  /** Running the loop over two lists one after the other is running it over
      their concatenation, and a crash in the first list ends it there. */
  lemma {:induction false} MergeAllAppend(files: map<string, Entry>, a: seq<(string, string)>, b: seq<(string, string)>,
                                          v: Version, plat: Platform)
    ensures var first := MergeAll(files, a, v, plat);
      MergeAll(files, a + b, v, plat) == if first.0 then MergeAll(first.1, b, v, plat) else first
    decreases |a|
  {
    if a != [] {
      assert (a + b)[0] == a[0] && (a + b)[1..] == a[1..] + b;
      var m := MergePair(files, a[0].0, a[0].1, v, plat);
      if !m.0.Crash? {
        MergeAllAppend(m.1, a[1..], b, v, plat);
      }
    } else {
      assert a + b == b;
    }
  }

  /** In 3.3 and macOS neither input preparation raises, and both hand a path on. */
  lemma GuardedMonoInput(files: map<string, Entry>, path: string, v: Version)
    requires Guarded(v)
    ensures MonoInput(files, path, v).0.Done? && MonoInput(files, path, v).0.value.Some?
  {
    ToMonoOutcomes(files, path, v);
  }

  /** Two readable mono inputs go straight to the merge. */
  lemma MonoPairMerged(files: map<string, Entry>, l: string, r: string, v: Version, plat: Platform)
    requires l in files && files[l].Audio? && files[l].rec.channels == 1
    requires r in files && files[r].Audio? && files[r].rec.channels == 1
    ensures MergePair(files, l, r, v, plat) == ToStereo(files, Some(l), Some(r), v, plat)
  {
  }

  /** 2.6 and 2.8: a two-channel input without a `(mono)` or `(dualmono)` tag
      makes `convert_to_mono` fall off its end, and the merge then raises on
      the missing path. */
  lemma LegacyUntaggedStereoStops(files: map<string, Entry>, l: string, r: string, v: Version, plat: Platform)
    requires !Guarded(v)
    requires l in files && files[l].Audio? && files[l].rec.channels == 2
    requires !Contains(Lower(l), "(mono)") && !Contains(Lower(l), "(dualmono)")
    ensures MergePair(files, l, r, v, plat).0 == Crash
  {
    assert MonoInput(files, l, v) == (Done(None), files);
  }

  /** Merging a file with itself archives it and then raises on the second
      move: the stereo file is written but the script stops. */
  lemma SelfMergeStops(files: map<string, Entry>, p: string, v: Version, plat: Platform)
    requires p in files && files[p].Audio? && p != ""
    ensures ToStereo(files, Some(p), Some(p), v, plat).0 == Crash
  {
    ToStereoMerges(files, p, p, v, plat);
    ArchiveElsewhere(p);
    SelfArchiveStops(files, p, StereoName(v, plat, p, p), StereoData(files[p].rec, files[p].rec, v));
  }

  lemma SelfArchiveStops(files: map<string, Entry>, p: string, out: string, data: Recording)
    requires p in files && p != ""
    requires ArchivePath(p) != p
    ensures WriteAndArchive(files, p, p, out, data).0 == Crash
  {
  }

  /** The self pair of a right take in an `L` folder: macOS shows it and,
      once selected, stops the script; 2.8 shows it but, its group holding
      one path, never merges it. */
  lemma SelfPairFate(files: map<string, Entry>, plat: Platform)
    requires SelfPaired in files && files[SelfPaired].Audio? && files[SelfPaired].rec.channels == 1
    ensures var g := Groups(["kick"], map["kick" := [SelfPaired]]);
      && PairList(Mac, g.order, g.paths) == [(SelfPaired, SelfPaired)]
      && MergeAll(files, [(SelfPaired, SelfPaired)], Mac, plat).0 == false
      && PairList(V28, g.order, g.paths) == [(SelfPaired, SelfPaired)]
      && PairList(V28, LargeGroups(g), g.paths) == []
  {
    SelfPairShown();
    SelfPairStops(files, SelfPaired, plat);
  }

  /** On macOS a one-channel file paired with itself stops the loop. */
  lemma SelfPairStops(files: map<string, Entry>, p: string, plat: Platform)
    requires p in files && files[p].Audio? && files[p].rec.channels == 1 && p != ""
    ensures MergeAll(files, [(p, p)], Mac, plat).0 == false
  {
    MergeAllSingle(files, p, p, Mac, plat);
    MonoPairMerged(files, p, p, Mac, plat);
    SelfMergeStops(files, p, Mac, plat);
  }

  lemma SelfPairShown()
    ensures var g := Groups(["kick"], map["kick" := [SelfPaired]]);
      && PairList(Mac, g.order, g.paths) == [(SelfPaired, SelfPaired)]
      && PairList(V28, g.order, g.paths) == [(SelfPaired, SelfPaired)]
      && PairList(V28, LargeGroups(g), g.paths) == []
  {
    var g := Groups(["kick"], map["kick" := [SelfPaired]]);
    SelfPair();
    assert g.order[..0] == [];
    assert LargeGroups(g) == [];
  }

  /** A one-pair loop runs to the end exactly when that pair does not raise. */
  lemma MergeAllSingle(files: map<string, Entry>, l: string, r: string, v: Version, plat: Platform)
    ensures MergeAll(files, [(l, r)], v, plat).0 == !MergePair(files, l, r, v, plat).0.Crash?
  {
    assert [(l, r)][1..] == [];
  }
}
