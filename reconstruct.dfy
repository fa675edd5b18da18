/** The conversions that rebuild files: dualmono to mono
    (`convert_dualmono_to_mono`, `convert_to_mono`) and a left/right pair to
    one stereo file (`convert_to_stereo`). Each is a specification function
    from the disk before to the result and the disk after, and a method that
    performs the same writes and moves on a `FileSystem`. */
module Reconstruct {
  import opened Common
  import opened Text
  import opened Audio
  import opened Classifier
  import opened Disk

  // ---------------------------------------------------------------------
  // convert_dualmono_to_mono
  // ---------------------------------------------------------------------

  /** The buffer written for a dualmono file. 2.6 keeps column 0 of a
      two-dimensional read and passes a one-dimensional (mono) read through;
      the later versions keep the channel chosen by `KeptChannel`. */
  function DualmonoToMonoData(r: Recording, v: Version): Recording
  {
    if v == V26 then (if r.channels == 1 then r else Channel(r, 0))
    else Channel(r, KeptChannel(r))
  }

  /** `file_path.replace('(dualmono).wav', '(mono).wav')`. */
  function MonoTwinName(path: string): string
  {
    ReplaceAll(path, "(dualmono).wav", "(mono).wav")
  }

  /** One iteration: write the mono buffer under the twin name, then move the
      original into the archive; a file that cannot be read is skipped. */
  function DualmonoStep(files: map<string, Entry>, path: string, v: Version): map<string, Entry>
  {
    if path in files && files[path].Audio? then
      var written := files[MonoTwinName(path) := Audio(DualmonoToMonoData(files[path].rec, v))];
      MoveEntry(written, path, ArchivePath(path))
    else files
  }

  /** The whole loop over `paths`, in order. */
  function DualmonoPass(files: map<string, Entry>, paths: seq<string>, v: Version): map<string, Entry>
    decreases |paths|
  {
    if paths == [] then files
    else DualmonoStep(DualmonoPass(files, paths[..|paths| - 1], v), paths[|paths| - 1], v)
  }

  /** `convert_dualmono_to_mono(paths, convert)`: nothing happens unless `convert`. */
  method ConvertDualmonoToMono(fs: FileSystem, paths: seq<string>, convert: bool, v: Version)
    modifies fs
    ensures fs.files == if convert then DualmonoPass(old(fs.files), paths, v) else old(fs.files)
  {
    if !convert {
      return;
    }
    var i := 0;
    while i < |paths|
      invariant 0 <= i <= |paths|
      invariant fs.files == DualmonoPass(old(fs.files), paths[..i], v)
    {
      var path := paths[i];
      assert paths[..i + 1][..i] == paths[..i];
      var data := fs.Read(path);
      if data.Some? {
        fs.Write(MonoTwinName(path), DualmonoToMonoData(data.value, v));
        var _ := fs.Move(path, ArchivePath(path));
      }
      i := i + 1;
    }
    assert paths[..|paths|] == paths;
  }

  /** What one conversion leaves behind: the mono buffer under the twin
      name, with the original's rate, subtype and length, holding the right
      channel only when the left is silent and the right is not; the
      original, unchanged, in the archive; every other file untouched. */
  lemma DualmonoStepEffect(files: map<string, Entry>, path: string, v: Version)
    requires path in files && files[path].Audio?
    requires v != V26 && files[path].rec.channels == 2
    requires MonoTwinName(path) != path && MonoTwinName(path) != ArchivePath(path)
    ensures var r := files[path].rec;
      var after := DualmonoStep(files, path, v);
      && path !in after
      && after[ArchivePath(path)] == files[path]
      && after[MonoTwinName(path)].Audio?
      && var m := after[MonoTwinName(path)].rec;
      && m.channels == 1 && |m.frames| == |r.frames| && m.rate == r.rate && m.subtype == r.subtype
      && (forall i | 0 <= i < |r.frames| ::
            m.frames[i] == [Sample(r.frames[i], if Silent(r.frames, 0) && !Silent(r.frames, 1) then 1 else 0)])
      && (forall k | k in files && k != path && k != MonoTwinName(path) && k != ArchivePath(path) ::
            k in after && after[k] == files[k])
  {
    ArchiveElsewhere(path);
    WriteThenMove(files, path, MonoTwinName(path), ArchivePath(path), Audio(DualmonoToMonoData(files[path].rec, v)));
  }

  /** Writing `e` under `out` and then moving `src` to `dst`, for three
      distinct paths: `src` is gone, `dst` holds its old entry, `out` holds
      `e`, and nothing else changes. */
  lemma WriteThenMove(files: map<string, Entry>, src: string, out: string, dst: string, e: Entry)
    requires src in files && out != src && out != dst && dst != src
    ensures var after := MoveEntry(files[out := e], src, dst);
      && src !in after && dst in after && out in after
      && after[dst] == files[src] && after[out] == e
      && after.Keys == files.Keys - {src} + {out, dst}
      && forall k | k in files && k != src && k != out && k != dst :: k in after && after[k] == files[k]
  {
  }

  /** When the incoming name lacks the exact text `(dualmono).wav`, the twin
      name is the name itself: the mono buffer overwrites the original, and
      what reaches the archive is the mono buffer. */
  lemma DualmonoSameName(files: map<string, Entry>, path: string, v: Version)
    requires path in files && files[path].Audio?
    requires !Contains(path, "(dualmono).wav")
    ensures MonoTwinName(path) == path
    ensures path !in DualmonoStep(files, path, v)
    ensures DualmonoStep(files, path, v)[ArchivePath(path)] == Audio(DualmonoToMonoData(files[path].rec, v))
  {
    ReplaceAbsent(path, "(dualmono).wav", "(mono).wav");
    ArchiveElsewhere(path);
  }

  /** With `convert` false, or with only unreadable entries, nothing changes. */
  lemma {:induction false} DualmonoPassSkipsUnreadable(files: map<string, Entry>, paths: seq<string>, v: Version)
    requires forall p | p in paths :: p !in files || files[p].Other?
    ensures DualmonoPass(files, paths, v) == files
    decreases |paths|
  {
    if paths != [] {
      assert forall p | p in paths[..|paths| - 1] :: p in paths;
      DualmonoPassSkipsUnreadable(files, paths[..|paths| - 1], v);
      assert paths[|paths| - 1] in paths;
    }
  }

  // ---------------------------------------------------------------------
  // convert_to_mono
  // ---------------------------------------------------------------------

  /** stem + " (mono)" + extension; the `(dualmono)` tag stays in the stem. */
  function MonoSuffixName(path: string): string
  {
    Stem(path) + " (mono)" + Extension(path)
  }

  /** The buffer `convert_to_mono` writes, or `None` where the code raises.
      3.3 and macOS keep column 0 of two-channel data and write any other
      read unchanged; 2.8 keeps column 0 of every multi-channel read; 2.6
      indexes column 0 unconditionally, which raises on a mono read. */
  function ToMonoData(r: Recording, v: Version): Option<Recording>
  {
    match v
    case V33 => if r.channels == 2 then Some(Channel(r, 0)) else Some(r)
    case Mac => if r.channels == 2 then Some(Channel(r, 0)) else Some(r)
    case V28 => if r.channels == 1 then Some(r) else Some(Channel(r, 0))
    case V26 => if r.channels == 1 then None else Some(Channel(r, 0))
  }

  /** Does this version catch errors in the stereo merge and its helpers? */
  predicate Guarded(v: Version)
  {
    v == V33 || v == Mac
  }

  /** `convert_to_mono(path)`: the path the merge continues with (`None` when
      the function falls off its end) and the disk afterwards. */
  function ToMono(files: map<string, Entry>, path: string, v: Version): (Outcome<Option<string>>, map<string, Entry>)
  {
    var lower := Lower(path);
    if !(path in files && files[path].Audio?) then
      (if Guarded(v) then Done(Some(path)) else Crash, files)
    else if Contains(lower, "(mono)") then (Done(Some(path)), files)
    else if !Contains(lower, "(dualmono)") then (Done(if Guarded(v) then Some(path) else None), files)
    else
      match ToMonoData(files[path].rec, v)
      case None => (Crash, files)
      case Some(m) =>
        var out := MonoSuffixName(path);
        (Done(Some(out)), MoveEntry(files[out := Audio(m)], path, ArchivePath(path)))
  }

  method ConvertToMono(fs: FileSystem, path: string, v: Version) returns (o: Outcome<Option<string>>)
    modifies fs
    ensures (o, fs.files) == ToMono(old(fs.files), path, v)
  {
    var data := fs.Read(path);
    var lower := Lower(path);
    if data.None? {
      o := if Guarded(v) then Done(Some(path)) else Crash;
      return;
    }
    if Contains(lower, "(mono)") {
      return Done(Some(path));
    }
    if !Contains(lower, "(dualmono)") {
      return Done(if Guarded(v) then Some(path) else None);
    }
    var mono := ToMonoData(data.value, v);
    if mono.None? {
      return Crash;
    }
    var out := MonoSuffixName(path);
    fs.Write(out, mono.value);
    var _ := fs.Move(path, ArchivePath(path));
    o := Done(Some(out));
  }

  /** The converted name really is new, so the original is never overwritten. */
  lemma MonoSuffixNameIsNew(path: string)
    ensures |MonoSuffixName(path)| == |path| + 7
    ensures MonoSuffixName(path) != path
  {
  }

  /** The converted name is never the archive slot of the original: the
      archive keeps the original's last component, the converted name's is
      seven characters longer. */
  lemma MonoSuffixNotArchive(path: string)
    ensures MonoSuffixName(path) != ArchivePath(path)
  {
    var stem, ext := Stem(path), Extension(path);
    assert '/' !in ext;
    BasenameAppend(stem, ext);
    assert MonoSuffixName(path) == stem + (" (mono)" + ext);
    BasenameAppend(stem, " (mono)" + ext);
    var d := Join(Dirname(path), ObsoleteDir);
    assert ObsoleteDir[0] == '-';
    JoinEndsWith(Dirname(path), ObsoleteDir);
    JoinSplit(d, Basename(path));
  }

  /** The three outcomes of `convert_to_mono` in 3.3 and macOS: the path
      itself, with the disk untouched, unless the lower-cased path carries
      `(dualmono)` and not `(mono)` and the file can be read; then the new
      `(mono)` name, holding column 0 of a two-channel read and any other
      read as it is, with the original archived and no other path touched.
      It never stops the script. */
  lemma ToMonoOutcomes(files: map<string, Entry>, path: string, v: Version)
    requires Guarded(v)
    ensures ToMono(files, path, v).0.Done? && ToMono(files, path, v).0.value.Some?
    ensures var converts := path in files && files[path].Audio? &&
              !Contains(Lower(path), "(mono)") && Contains(Lower(path), "(dualmono)");
      var out, slot, after := MonoSuffixName(path), ArchivePath(path), ToMono(files, path, v).1;
      if converts then
        var r := files[path].rec;
        && ToMono(files, path, v).0 == Done(Some(out))
        && path !in after && out in after && slot in after
        && after[out] == Audio(if r.channels == 2 then Channel(r, 0) else r)
        && after[slot] == files[path]
        && after.Keys == files.Keys - {path} + {out, slot}
        && forall k | k in files && k != path && k != out && k != slot :: k in after && after[k] == files[k]
      else ToMono(files, path, v) == (Done(Some(path)), files)
  {
    MonoSuffixNameIsNew(path);
    if path in files && files[path].Audio? && !Contains(Lower(path), "(mono)") && Contains(Lower(path), "(dualmono)") {
      var r := files[path].rec;
      var e := Audio(if r.channels == 2 then Channel(r, 0) else r);
      ToMonoConverts(files, path, v);
      MonoSuffixNotArchive(path);
      ArchiveElsewhere(path);
      WriteThenMove(files, path, MonoSuffixName(path), ArchivePath(path), e);
    }
  }

  lemma ToMonoConverts(files: map<string, Entry>, path: string, v: Version)
    requires Guarded(v) && path in files && files[path].Audio?
    requires !Contains(Lower(path), "(mono)") && Contains(Lower(path), "(dualmono)")
    ensures var r := files[path].rec;
      var out := MonoSuffixName(path);
      ToMono(files, path, v) == (Done(Some(out)), MoveEntry(files[out := Audio(if r.channels == 2 then Channel(r, 0) else r)], path, ArchivePath(path)))
  {
  }

  /** 2.6 and 2.8 return `None` for a readable file with neither tag, and
      2.6 stops the script on a mono file tagged `(dualmono)`. */
  lemma ToMonoLegacy(files: map<string, Entry>, path: string, v: Version)
    requires !Guarded(v) && path in files && files[path].Audio?
    ensures (!Contains(Lower(path), "(mono)") && !Contains(Lower(path), "(dualmono)")) ==>
      ToMono(files, path, v) == (Done(None), files)
    ensures (v == V26 && files[path].rec.channels == 1 &&
      !Contains(Lower(path), "(mono)") && Contains(Lower(path), "(dualmono)")) ==>
      ToMono(files, path, v) == (Crash, files)
  {
  }

  // ---------------------------------------------------------------------
  // is_mono
  // ---------------------------------------------------------------------

  /** `is_mono(path)`: one channel. 3.3 and macOS answer false when the read
      raises; 2.6 and 2.8 let the error stop the script. */
  function IsMono(files: map<string, Entry>, path: string, v: Version): (o: Outcome<bool>)
    ensures o.Crash? <==> !Guarded(v) && (path !in files || files[path].Other?)
    ensures o.Done? ==> (o.value <==> path in files && files[path].Audio? && files[path].rec.channels == 1)
  {
    if path in files && files[path].Audio? then Done(files[path].rec.channels == 1)
    else if Guarded(v) then Done(false)
    else Crash
  }

  // ---------------------------------------------------------------------
  // convert_to_stereo
  // ---------------------------------------------------------------------

  /** The character test of the stereo-name loop: `os.path.normcase` in 3.3
      (case-sensitive on POSIX), `str.lower()` elsewhere. */
  predicate SameChar(v: Version, plat: Platform, c1: char, c2: char)
  {
    if v == V33 then NormCaseChar(plat, c1) == NormCaseChar(plat, c2)
    else LowerChar(c1) == LowerChar(c2)
  }

  /** The longest common prefix of `a` and `b` under `SameChar`, with the
      characters taken from `a`. */
  function SharedPrefix(v: Version, plat: Platform, a: string, b: string): (p: string)
    ensures |p| <= |a| && |p| <= |b| && p == a[..|p|]
    ensures forall i | 0 <= i < |p| :: SameChar(v, plat, a[i], b[i])
    ensures |p| == |a| || |p| == |b| || !SameChar(v, plat, a[|p|], b[|p|])
    decreases |a|
  {
    if a == [] || b == [] || !SameChar(v, plat, a[0], b[0]) then []
    else [a[0]] + SharedPrefix(v, plat, a[1..], b[1..])
  }

  /** Any prefix with the three properties of `SharedPrefix` is that prefix. */
  lemma {:induction false} SharedPrefixUnique(v: Version, plat: Platform, a: string, b: string, n: nat)
    requires n <= |a| && n <= |b|
    requires forall k | 0 <= k < n :: SameChar(v, plat, a[k], b[k])
    requires n == |a| || n == |b| || !SameChar(v, plat, a[n], b[n])
    ensures SharedPrefix(v, plat, a, b) == a[..n]
    decreases n
  {
    if n > 0 {
      assert SameChar(v, plat, a[0], b[0]);
      SharedPrefixUnique(v, plat, a[1..], b[1..], n - 1);
      SharedPrefixCons(v, plat, a, b);
      ConsPrefix(a, n);
    }
  }

  lemma SharedPrefixCons(v: Version, plat: Platform, a: string, b: string)
    requires a != [] && b != [] && SameChar(v, plat, a[0], b[0])
    ensures SharedPrefix(v, plat, a, b) == [a[0]] + SharedPrefix(v, plat, a[1..], b[1..])
  {
  }

  lemma ConsPrefix<T>(a: seq<T>, n: nat)
    requires 0 < n <= |a|
    ensures a[..n] == [a[0]] + a[1..][..n - 1]
  {
  }

  /** The stereo file's base name: the shared prefix of the two stems, or the
      left stem when the right one is empty. */
  function StereoBase(v: Version, plat: Platform, leftStem: string, rightStem: string): string
  {
    if rightStem == "" then leftStem else SharedPrefix(v, plat, leftStem, rightStem)
  }

  /** The `for c1, c2 in zip(...)` loop that builds the base name, with its `break`. */
  method ComputeStereoBase(v: Version, plat: Platform, leftStem: string, rightStem: string) returns (base: string)
    ensures base == StereoBase(v, plat, leftStem, rightStem)
  {
    if rightStem == "" {
      return leftStem;
    }
    var i := 0;
    while i < |leftStem| && i < |rightStem|
      invariant 0 <= i <= |leftStem| && i <= |rightStem|
      invariant forall k | 0 <= k < i :: SameChar(v, plat, leftStem[k], rightStem[k])
      decreases |leftStem| - i
    {
      if !SameChar(v, plat, leftStem[i], rightStem[i]) {
        break;
      }
      i := i + 1;
    }
    base := leftStem[..i];
    SharedPrefixUnique(v, plat, leftStem, rightStem, i);
  }

  /** The merged buffer, trimmed to the shorter input and tagged with the
      left input's rate and subtype. 3.3, macOS and 2.8 pair column 0 of each
      input; 2.6 stacks all columns of both. */
  function StereoData(l: Recording, r: Recording, v: Version): Recording
  {
    var n := if |l.frames| <= |r.frames| then |l.frames| else |r.frames|;
    if v == V26 then
      Recording(l.channels + r.channels, seq(n, i requires 0 <= i < n => l.frames[i] + r.frames[i]), l.rate, l.subtype)
    else
      Recording(2, seq(n, i requires 0 <= i < n => [Sample(l.frames[i], 0), Sample(r.frames[i], 0)]), l.rate, l.subtype)
  }

  /** The name of the merged file, in the left input's directory. */
  function StereoName(v: Version, plat: Platform, left: string, right: string): string
  {
    Join(Dirname(left), StereoBase(v, plat, Stem(Basename(left)), Stem(Basename(right))) + "(stereo).wav")
  }

  /** `convert_to_stereo(left, right)`: the output path (`None` when 3.3 or
      macOS give up) and the disk afterwards. A `None` input path raises in
      every version; 3.3 and macOS check that both files exist and catch read
      errors; the write and the two moves are never guarded, and both inputs
      go to the archive of the left input's directory. */
  function ToStereo(files: map<string, Entry>, left: Option<string>, right: Option<string>, v: Version, plat: Platform)
    : (Outcome<Option<string>>, map<string, Entry>)
  {
    if left.None? || right.None? then (Crash, files)
    else
      var l := left.value;
      var r := right.value;
      if Guarded(v) && (l !in files || r !in files) then (Done(None), files)
      else if !(l in files && files[l].Audio? && r in files && files[r].Audio?) then
        (if Guarded(v) then Done(None) else Crash, files)
      else
        WriteAndArchive(files, l, r, StereoName(v, plat, l, r), StereoData(files[l].rec, files[r].rec, v))
  }

  /** The unguarded tail of `convert_to_stereo`: write the merged buffer,
      then move the left input and (when its path is not empty) the right
      input into the archive of the left input's directory. */
  function WriteAndArchive(files: map<string, Entry>, l: string, r: string, out: string, data: Recording)
    : (Outcome<Option<string>>, map<string, Entry>)
  {
    var archive := Join(Dirname(l), ObsoleteDir);
    var written := files[out := Audio(data)];
    var leftMoved := MoveEntry(written, l, Join(archive, Basename(l)));
    if r == "" then (Done(Some(out)), leftMoved)
    else if r !in leftMoved then (Crash, leftMoved)
    else (Done(Some(out)), MoveEntry(leftMoved, r, Join(archive, Basename(r))))
  }

  /** Archiving two distinct files into two distinct slots that are both
      different from the new output: nothing is lost. */
  lemma ArchiveMoves(files: map<string, Entry>, out: string, data: Recording, l: string, r: string, sl: string, sr: string)
    requires l in files && r in files && l != r
    requires sl != sr && out != l && out != r && out != sl && out != sr
    requires l != sl && l != sr && r != sl && r != sr
    ensures var after := MoveEntry(MoveEntry(files[out := Audio(data)], l, sl), r, sr);
      && l !in after && r !in after && sl in after && sr in after && out in after
      && after[sl] == files[l] && after[sr] == files[r] && after[out] == Audio(data)
  {
    var written := files[out := Audio(data)];
    var leftMoved := MoveEntry(written, l, sl);
    assert leftMoved[r] == files[r] && leftMoved[out] == Audio(data);
  }

  /** Write then archive, when no two of the four paths collide: the new
      buffer at `out` and both originals, unchanged, in the archive. */
  lemma WriteAndArchiveEffect(files: map<string, Entry>, l: string, r: string, out: string, data: Recording)
    requires l in files && r in files && l != r && r != ""
    requires var archive := Join(Dirname(l), ObsoleteDir);
      && Join(archive, Basename(l)) != Join(archive, Basename(r))
      && {l, r} !! {Join(archive, Basename(l)), Join(archive, Basename(r))}
      && out != l && out != r && out != Join(archive, Basename(l)) && out != Join(archive, Basename(r))
    ensures var after := WriteAndArchive(files, l, r, out, data);
      var archive := Join(Dirname(l), ObsoleteDir);
      && after.0 == Done(Some(out))
      && l !in after.1 && r !in after.1
      && Join(archive, Basename(l)) in after.1 && Join(archive, Basename(r)) in after.1 && out in after.1
      && after.1[Join(archive, Basename(l))] == files[l]
      && after.1[Join(archive, Basename(r))] == files[r]
      && after.1[out] == Audio(data)
  {
    var archive := Join(Dirname(l), ObsoleteDir);
    var sl, sr := Join(archive, Basename(l)), Join(archive, Basename(r));
    ArchiveMoves(files, out, data, l, r, sl, sr);
    var leftMoved := MoveEntry(files[out := Audio(data)], l, sl);
    assert r in leftMoved;
    assert WriteAndArchive(files, l, r, out, data) == (Done(Some(out)), MoveEntry(leftMoved, r, sr));
  }

  method ConvertToStereo(fs: FileSystem, left: Option<string>, right: Option<string>, v: Version, plat: Platform)
    returns (o: Outcome<Option<string>>)
    modifies fs
    ensures (o, fs.files) == ToStereo(old(fs.files), left, right, v, plat)
  {
    if left.None? || right.None? {
      return Crash;
    }
    var l := left.value;
    var r := right.value;
    if Guarded(v) && (!fs.Exists(l) || !fs.Exists(r)) {
      return Done(None);
    }
    var leftData := fs.Read(l);
    var rightData := fs.Read(r);
    if leftData.None? || rightData.None? {
      o := if Guarded(v) then Done(None) else Crash;
      return;
    }
    var base := ComputeStereoBase(v, plat, Stem(Basename(l)), Stem(Basename(r)));
    var out := Join(Dirname(l), base + "(stereo).wav");
    var archive := Join(Dirname(l), ObsoleteDir);
    fs.Write(out, StereoData(leftData.value, rightData.value, v));
    assert fs.files == old(fs.files)[out := Audio(StereoData(leftData.value, rightData.value, v))];
    var _ := fs.Move(l, Join(archive, Basename(l)));
    if r != "" {
      var moved := fs.Move(r, Join(archive, Basename(r)));
      if !moved {
        return Crash;
      }
    }
    o := Done(Some(out));
  }

  /** 3.3 and macOS give up without touching the disk when an input is missing. */
  lemma StereoMissingInput(files: map<string, Entry>, l: string, r: string, v: Version, plat: Platform)
    requires Guarded(v) && (l !in files || r !in files)
    ensures ToStereo(files, Some(l), Some(r), v, plat) == (Done(None), files)
  {
  }

  /** The merged buffer of 3.3, macOS and 2.8: two channels, as long as the
      shorter input, frame `i` made of sample 0 of frame `i` of each input,
      at the left input's rate and subtype. */
  lemma StereoDataShape(l: Recording, r: Recording, v: Version)
    requires v != V26
    ensures var m := StereoData(l, r, v);
      && m.channels == 2 && m.rate == l.rate && m.subtype == l.subtype
      && |m.frames| == (if |l.frames| <= |r.frames| then |l.frames| else |r.frames|)
      && forall i | 0 <= i < |m.frames| :: m.frames[i] == [Sample(l.frames[i], 0), Sample(r.frames[i], 0)]
  {
  }

  /** 2.6 stacks every column, so two stereo inputs give four channels:
      as long as the shorter input, frame `i` the columns of frame `i` of
      the left input followed by those of the right one, at the left
      input's rate and subtype. */
  lemma StereoDataStacks(l: Recording, r: Recording)
    requires WellFormed(l) && WellFormed(r)
    ensures WellFormed(StereoData(l, r, V26))
    ensures var m := StereoData(l, r, V26);
      && m.channels == l.channels + r.channels && m.rate == l.rate && m.subtype == l.subtype
      && |m.frames| == (if |l.frames| <= |r.frames| then |l.frames| else |r.frames|)
      && forall i | 0 <= i < |m.frames| :: m.frames[i] == l.frames[i] + r.frames[i]
  {
  }

  /** A successful merge: the merged buffer under the shared-prefix name,
      and both originals, unchanged, in the left directory's archive. */
  lemma StereoMergeEffect(files: map<string, Entry>, l: string, r: string, v: Version, plat: Platform)
    requires l in files && files[l].Audio? && r in files && files[r].Audio?
    requires l != r && r != ""
    requires var archive := Join(Dirname(l), ObsoleteDir);
      var out := StereoName(v, plat, l, r);
      && Join(archive, Basename(l)) != Join(archive, Basename(r))
      && {l, r} !! {Join(archive, Basename(l)), Join(archive, Basename(r))}
      && out != l && out != r && out != Join(archive, Basename(l)) && out != Join(archive, Basename(r))
    ensures var after := ToStereo(files, Some(l), Some(r), v, plat);
      var archive := Join(Dirname(l), ObsoleteDir);
      var out := StereoName(v, plat, l, r);
      && after.0 == Done(Some(out))
      && l !in after.1 && r !in after.1
      && Join(archive, Basename(l)) in after.1 && Join(archive, Basename(r)) in after.1 && out in after.1
      && after.1[Join(archive, Basename(l))] == files[l]
      && after.1[Join(archive, Basename(r))] == files[r]
      && after.1[out] == Audio(StereoData(files[l].rec, files[r].rec, v))
  {
    ToStereoMerges(files, l, r, v, plat);
    WriteAndArchiveEffect(files, l, r, StereoName(v, plat, l, r), StereoData(files[l].rec, files[r].rec, v));
  }

  /** Every merged file is called `<prefix>(stereo).wav`. */
  lemma StereoNameSuffix(v: Version, plat: Platform, l: string, r: string)
    ensures EndsWith(StereoName(v, plat, l, r), "(stereo).wav")
  {
    var base := StereoBase(v, plat, Stem(Basename(l)), Stem(Basename(r)));
    assert EndsWith(base + "(stereo).wav", "(stereo).wav");
    JoinTail(Dirname(l), base + "(stereo).wav", "(stereo).wav");
  }

  /** So it never lands on a path whose fifth-last character is not `)`. */
  lemma StereoNameFresh(v: Version, plat: Platform, l: string, r: string, p: string)
    requires |p| >= 5 && p[|p| - 5] != ')'
    ensures StereoName(v, plat, l, r) != p
  {
    StereoNameSuffix(v, plat, l, r);
    NotStereoNamed(StereoName(v, plat, l, r), p);
  }

  lemma NotStereoNamed(a: string, p: string)
    requires EndsWith(a, "(stereo).wav") && |p| >= 5 && p[|p| - 5] != ')'
    ensures a != p
  {
    assert a[|a| - 5] == ')';
  }

  /** Two originals archived into the same slot: the right one replaces the
      left one there. */
  lemma CollidingMoves(files: map<string, Entry>, out: string, data: Recording, l: string, r: string, slot: string)
    requires l in files && r in files && l != r
    requires out != l && out != r && out != slot && l != slot && r != slot
    ensures var after := MoveEntry(MoveEntry(files[out := Audio(data)], l, slot), r, slot);
      && slot in after && out in after
      && after.Keys == files.Keys - {l, r} + {out, slot}
      && after[slot] == files[r] && after[out] == Audio(data)
  {
    var leftMoved := MoveEntry(files[out := Audio(data)], l, slot);
    assert leftMoved.Keys == files.Keys - {l} + {out, slot};
    assert leftMoved[r] == files[r] && leftMoved[out] == Audio(data);
  }

  /** Once both inputs decode, every version merges and archives alike. */
  lemma ToStereoMerges(files: map<string, Entry>, l: string, r: string, v: Version, plat: Platform)
    requires l in files && files[l].Audio? && r in files && files[r].Audio?
    ensures ToStereo(files, Some(l), Some(r), v, plat)
         == WriteAndArchive(files, l, r, StereoName(v, plat, l, r), StereoData(files[l].rec, files[r].rec, v))
  {
    var out := StereoName(v, plat, l, r);
    var data := StereoData(files[l].rec, files[r].rec, v);
    var t := ToStereo(files, Some(l), Some(r), v, plat);
    if Guarded(v) {
      assert t == WriteAndArchive(files, l, r, out, data);
    } else {
      assert t == WriteAndArchive(files, l, r, out, data);
    }
  }

  /** Write then archive two inputs whose archive slots coincide. */
  lemma WriteAndArchiveCollision(files: map<string, Entry>, l: string, r: string, out: string, data: Recording, slot: string)
    requires l in files && r in files && l != r && r != ""
    requires slot == Join(Join(Dirname(l), ObsoleteDir), Basename(l))
    requires slot == Join(Join(Dirname(l), ObsoleteDir), Basename(r))
    requires out != l && out != r && out != slot && l != slot && r != slot
    ensures var after := WriteAndArchive(files, l, r, out, data).1;
      && slot in after && out in after
      && after.Keys == files.Keys - {l, r} + {out, slot}
      && after[slot] == files[r] && after[out] == Audio(data)
  {
    CollidingMoves(files, out, data, l, r, slot);
    var leftMoved := MoveEntry(files[out := Audio(data)], l, slot);
    assert r in leftMoved;
    assert WriteAndArchive(files, l, r, out, data).1 == MoveEntry(leftMoved, r, slot);
  }

  /** Two inputs with the same file name in different directories are
      archived under one name: the archive slot of the left input ends up
      holding the right original, and the left original is gone from the
      disk. */
  lemma StereoArchiveCollision(files: map<string, Entry>, l: string, r: string, v: Version, plat: Platform)
    requires l == "s/L/Snare.wav" && r == "s/R/Snare.wav"
    requires files == map[l := Audio(Recording(1, [[0.25]], 48000, "PCM_24")),
                          r := Audio(Recording(1, [[0.5]], 48000, "PCM_24"))]
    ensures var after := ToStereo(files, Some(l), Some(r), v, plat).1;
      && ArchivePath(l) in after
      && after[ArchivePath(l)] == files[r]
      && files[l] !in after.Values
  {
    var slot := ArchivePath(l);
    SnareSlots(l, r);
    JoinTail(Join(Dirname(l), ObsoleteDir), Basename(l), Basename(l));
    assert slot[|slot| - 5] == 'e';
    assert StereoData(files[l].rec, files[r].rec, v).channels == 2;
    CollisionLoses(files, l, r, v, plat, slot);
  }

  /** When the two inputs are the only files and differ from each other and
      from the merged buffer, the left original is lost. */
  lemma CollisionLoses(files: map<string, Entry>, l: string, r: string, v: Version, plat: Platform, slot: string)
    requires files.Keys == {l, r} && files[l].Audio? && files[r].Audio?
    requires files[l] != files[r] && files[l] != Audio(StereoData(files[l].rec, files[r].rec, v))
    requires l != r && r != "" && l != slot && r != slot
    requires slot == Join(Join(Dirname(l), ObsoleteDir), Basename(l))
    requires slot == Join(Join(Dirname(l), ObsoleteDir), Basename(r))
    requires |slot| >= 5 && slot[|slot| - 5] != ')' && |l| >= 5 && l[|l| - 5] != ')' && |r| >= 5 && r[|r| - 5] != ')'
    ensures var after := ToStereo(files, Some(l), Some(r), v, plat).1;
      slot in after && after[slot] == files[r] && files[l] !in after.Values
  {
    StereoCollision(files, l, r, v, plat, slot);
    OnlyTwoLeft(ToStereo(files, Some(l), Some(r), v, plat).1, files, l, r, StereoName(v, plat, l, r), slot,
                Audio(StereoData(files[l].rec, files[r].rec, v)));
  }

  /** A disk left with two files, neither holding `files[l]`, has lost it. */
  lemma OnlyTwoLeft(after: map<string, Entry>, files: map<string, Entry>, l: string, r: string, out: string, slot: string, e: Entry)
    requires files.Keys == {l, r} && after.Keys == files.Keys - {l, r} + {out, slot}
    requires after[slot] == files[r] && after[out] == e && files[l] != files[r] && files[l] != e
    ensures files[l] !in after.Values
  {
    assert after.Keys == {out, slot};
    forall x | x in after.Values ensures x != files[l] {
      var k :| k in after && after[k] == x;
    }
  }

  /** A merge whose two inputs share one archive slot. */
  lemma StereoCollision(files: map<string, Entry>, l: string, r: string, v: Version, plat: Platform, slot: string)
    requires l in files && files[l].Audio? && r in files && files[r].Audio?
    requires l != r && r != "" && l != slot && r != slot
    requires slot == Join(Join(Dirname(l), ObsoleteDir), Basename(l))
    requires slot == Join(Join(Dirname(l), ObsoleteDir), Basename(r))
    requires |slot| >= 5 && slot[|slot| - 5] != ')' && |l| >= 5 && l[|l| - 5] != ')' && |r| >= 5 && r[|r| - 5] != ')'
    ensures var out := StereoName(v, plat, l, r);
      var after := ToStereo(files, Some(l), Some(r), v, plat).1;
      && slot in after && out in after
      && after.Keys == files.Keys - {l, r} + {out, slot}
      && after[slot] == files[r] && after[out] == Audio(StereoData(files[l].rec, files[r].rec, v))
  {
    var out := StereoName(v, plat, l, r);
    StereoNameFresh(v, plat, l, r, slot);
    StereoNameFresh(v, plat, l, r, l);
    StereoNameFresh(v, plat, l, r, r);
    ToStereoMerges(files, l, r, v, plat);
    WriteAndArchiveCollision(files, l, r, out, StereoData(files[l].rec, files[r].rec, v), slot);
  }

  /** The paths of the collision example. */
  lemma SnareSlots(l: string, r: string)
    requires l == "s/L/Snare.wav" && r == "s/R/Snare.wav"
    ensures Dirname(l) == "s/L" && Basename(l) == "Snare.wav" && Basename(r) == "Snare.wav"
    ensures ArchivePath(l) == Join(Join(Dirname(l), ObsoleteDir), Basename(r))
    ensures ArchivePath(l) != l && ArchivePath(l) != r
  {
    SnarePaths(l, r);
    ArchiveOfJoin("s/L", "Snare.wav");
    ArchiveOfJoin("s/R", "Snare.wav");
  }

  lemma SnarePaths(l: string, r: string)
    requires l == "s/L/Snare.wav" && r == "s/R/Snare.wav"
    ensures l == Join("s/L", "Snare.wav") && r == Join("s/R", "Snare.wav")
  {
  }

  /** In 3.3 the name is compared with `normcase`, which on POSIX is the
      identity, so differently capitalised stems share no prefix; macOS
      compares lower-cased characters. */
  lemma StereoBaseCase()
    ensures SharedPrefix(V33, Posix, "kick L", "Kick R") == ""
    ensures SharedPrefix(V33, Windows, "kick L", "Kick R") == "kick "
    ensures SharedPrefix(Mac, Posix, "kick L", "Kick R") == "kick "
  {
    SharedPrefixUnique(V33, Posix, "kick L", "Kick R", 0);
    FoldedCasePrefix(V33, Windows);
    FoldedCasePrefix(Mac, Posix);
  }

  /** Where case is folded, `kick L` and `Kick R` share `kick `. */
  lemma FoldedCasePrefix(v: Version, plat: Platform)
    requires v != V33 || plat == Windows
    ensures SharedPrefix(v, plat, "kick L", "Kick R") == "kick "
  {
    var a, b := "kick L", "Kick R";
    assert SameChar(v, plat, a[0], b[0]);
    assert forall k | 1 <= k < 5 :: a[k] == b[k];
    assert !SameChar(v, plat, a[5], b[5]);
    SharedPrefixUnique(v, plat, a, b, 5);
  }

  /** The prefix keeps the separator: `Vox_left` and `Vox_right` give `Vox_`. */
  lemma StereoBaseKeepsSeparator(v: Version, plat: Platform)
    ensures StereoBase(v, plat, "Vox_left", "Vox_right") == "Vox_"
  {
    SharedPrefixUnique(v, plat, "Vox_left", "Vox_right", 4);
  }
}
