# AudioProjectSanitizer engine, modelled in Dafny

AudioProjectSanitizer is a script that tidies a folder of multitrack-session
WAV files. It exists in four versions: 2.6, 2.8, 3.3 and a macOS branch.
Beneath its tkinter dialogs every version runs the same small engine. This
project models that engine and proves what it does:

- **Classifier.** Labels a decoded buffer `mono`, `stereo`, `dualmono`,
  `silent_channel` or `unknown`, or `None` when the file cannot be read.
- **Labelling pass.** Renames every unlabelled `.wav` to
  `stem (type).wav` (`identify_audio_type`). A file with a silent channel
  becomes a one-channel `(mono)` file and its original is archived.
- **Reconstruction.** Includes three conversions:
  - dualmono to mono;
  - `convert_to_mono`;
  - merging a left/right pair into one `(stereo).wav` named by the common
    prefix of the two stems.

  Every original goes into a sibling `-- OBSOLETE FILES` directory.
- **Pairing resolver.** Groups files by a base name taken from a lazy
  regular expression (`find_matching_files`). It then accepts a group as a
  pair only when it holds exactly one left and one right path.
- **Track reorder window.** A drag moves one row of the list. OK files each
  row under the header above it, numbered `NN - name`.

One model covers all four versions. A `Version` parameter (`V26`, `V28`,
`V33`, `Mac`) selects the branches where the scripts differ. A `Platform`
parameter (`Posix`, `Windows`) models `os.path.normcase`, which lower-cases
only on Windows.

How the model represents the rest:

- **The disk.**
  - It is a class `Disk.FileSystem` whose field `files` maps paths to
    entries: a decoded `Recording` or an undecodable `Other`.
  - Writing, renaming and moving reassign that map.
  - `os.walk` is its result, given as an input sequence of folders.
- **Samples and regular expressions.**
  - Samples are reals compared with the tolerance `1e-10`.
  - Each regular expression the scripts use is coded by hand as a
    predicate on strings. This covers `re.IGNORECASE`, `\b` and the lazy
    group.
- **Exceptions.**
  - An exception that 2.6 or 2.8 does not catch stops the script. The model
    calls this outcome `Crash`.
  - The `try` blocks of 3.3 and macOS are modelled as their `except`
    branches.

Where a model function specifies a loop of the source, the loop is a
`method` proved against it:
- `IdentifyAudioType` against `IdentifyPass`;
- `FindMatchingFiles` against `Grouped`;
- `ComputeStereoBase` against `SharedPrefix`;
- `MergePairs` against `MergeAll`;
- `RenameFiles` against `RenameAll`.

The lemmas state the promises of the source about those functions.

The modules follow the program's structure:

| file | module | contents |
|---|---|---|
| common.dfy | `Common` | `Option`, `Outcome`, `Version`, `Platform`, `Filter`, `Select` |
| text.dfy | `Text` | string helpers: `lower`, `normcase`, `splitext`, `basename`, `dirname`, `join`, `rstrip`, `replace` |
| audio.dfy | `Audio` | recordings, silence and equality tests |
| classifier.dfy | `Classifier` | `get_audio_type`, `detect_audio_type` and the channel choices |
| disk.dfy | `Disk` | the file system, listings and archive paths |
| patterns.dfy | `Patterns` | the grouping pattern and the left/right search patterns |
| pairing.dfy | `Pairing` | `find_matching_files`, `show_LR_pairs` / `show_LR_files` |
| identify.dfy | `Identify` | `contains_labeled_files`, `identify_audio_type` |
| reconstruct.dfy | `Reconstruct` | `convert_dualmono_to_mono`, `convert_to_mono`, `is_mono`, `convert_to_stereo` |
| session.dfy | `Session` | the `confirm_*` drivers |
| orderer.dfy | `Orderer` | `FileOrdererApp` |

Some behaviours of the source are reproduced as written:

- **Lazy grouping.** The lazy group lets the optional side token swallow a
  trailing `l`/`r` of the base, so `Guitar.wav` is grouped under `Guita`.
- **Paths, not names.** Grouping ignores the directory. The left/right
  tests look at the full path.
- **Prefix case.** In 3.3 the prefix comparison of `convert_to_stereo` is
  case-sensitive on POSIX.
- **Separators kept.** The prefix keeps separators: `Vox_left` and
  `Vox_right` give `Vox_(stereo).wav`.
- **Either channel silent.** `silent_channel` fires when either channel is
  silent, and also when both are.
- **Archive collisions.** Two merged inputs with one file name in
  different directories collide in the archive, and the left original is
  lost.
- **Self-pairing.** `s/L/Kick R.wav` pairs with itself on macOS, 2.8 and
  2.6, and the macOS merge loop stops on it.
- **Header order in 2.6 and 2.8.** Those versions let a header be dragged
  onto a file row. Two drags then put the headers out of order, and a file
  is filed under a header that is not the nearest one above it.

Where the documented behaviour and the code disagree, the model follows the
code:

- `identify_audio_type` does not skip the `-- OBSOLETE FILES` directory
  (only `find_matching_files` does).
- A second labelling pass leaves only names carrying `(mono)` or `(stereo)`
  alone. A `(dualmono)`, `(unknown)` or `(silent_channel)` name is not
  skipped. See `Identify.LabelName`.
- The pass as a whole does not run again on a tree that already holds a
  `(mono)` or `(stereo)` name; see `Session.IdentifyFlow`.
- 2.6 and 2.8 convert the dualmono files inside `identify_audio_type`, so
  their `confirm_identify_audio_type` hands no list on.

## Model

| member | source | states |
|---|---|---|
| Common.Filter | main_ver3.3.py:584 | the kept elements are exactly the elements of the input that satisfy the test |
| Common.Select | main_ver3.3.py:340-341 | the rows picked in a selection dialog are exactly the shown rows whose indices are selected: every picked row is a selected one, every selected row is picked; selecting every row gives the whole list and selecting none gives nothing |
| Common.SelectAppend | main_ver3.3.py:340-341 | picked rows keep the list's order: one more row adds its element at the end exactly when its index is selected |
| Text.Lower | main_ver3.3.py:796 | `str.lower` on ASCII: same length, each letter lower-cased, other characters unchanged |
| Text.NormCase | main_ver3.3.py:783 | `os.path.normcase` keeps the length; on Windows it lower-cases each ASCII letter and turns `/` into `\`, on POSIX it is the identity |
| Text.RStrip | main_ver3.3.py:780 | `rstrip(' _')` keeps the longest prefix that does not end in a stripped character; everything removed is a stripped character |
| Text.SplitExt | main_ver3.3.py:806 | `os.path.splitext` splits a path into stem and extension that concatenate back to it; the extension is empty or a final `.` part with no `/` |
| Text.JoinSplit | main_ver3.3.py:785 | `basename` and `dirname` recover the file name and folder from which `os.path.join` built a path |
| Text.ReplaceAbsent | main_ver3.3.py:399 | `str.replace` leaves a string without the pattern unchanged |
| Audio.Channel | main_ver3.3.py:375-376 | `data[:, c]` is a one-channel recording of the same length, rate and subtype holding sample `c` of every frame |
| Classifier.DetectAudioType | main_ver3.3.py:677-702 | `Unknown` exactly when the buffer is not two channels wide; `False stereo` exactly for two channels that are equal within tolerance or, in versions that test silence, of which one is silent; `True stereo` otherwise |
| Classifier.Classify | main_ver3.3.py:645-672 | `mono` exactly for one channel and `unknown` exactly for any count other than one or two; for two channels, `silent_channel` exactly when silence is tested and a channel is silent; `dualmono` exactly for equal channels otherwise; `stereo` for the rest |
| Classifier.GetAudioType | main_ver3.3.py:638-675 | `None` exactly when the file is missing or cannot be decoded; otherwise the label of its buffer |
| Classifier.DetectAfterSilenceTest | main_ver3.3.py:666-670 | for two channels, neither silent, the result is `dualmono` iff the channels are equal, else `stereo` |
| Classifier.SilenceBeforeEquality | main_ver3.3.py:655-664 | the silence test comes first: equal channels with a silent one are `silent_channel`, not `dualmono` |
| Classifier.SilenceTestByVersion | main_ver2.6.py:265-300 | a buffer with a silent left channel is `stereo` in 2.6 (no silence test) and `silent_channel` in 3.3 |
| Classifier.EmptyBuffer | main_ver3.3.py:652-655 | a two-channel buffer with no frames counts as silent: `silent_channel` where silence is tested, `dualmono` in 2.6 |
| Classifier.KeptChannel | main_ver3.3.py:374-396 | dualmono conversion keeps the right channel exactly when the left is silent and the right is not, and the left channel otherwise |
| Classifier.ActiveChannel | main_ver3.3.py:606-608 | the silent-channel rewrite keeps the right channel exactly when the left is silent |
| Classifier.ChannelChoicesAgree | main_ver3.3.py:382-392 | for a buffer with a silent channel the two channel choices differ exactly when both channels are silent |
| Disk.Row | main_ver3.3.py:770 | one folder of the walk lists its files in order, each with that folder's path |
| Disk.MoveEntry | main_ver3.3.py:407 | `shutil.move`: the source's entry lands at the destination, the source is gone, every other path is unchanged; a missing source changes nothing |
| Disk.ArchiveElsewhere | main_ver3.3.py:405-407 | the archive slot of a file is never the file's own path |
| Disk.ArchiveLocation | main_ver3.3.py:405-407 | the archive copy keeps the file's name and sits in `-- OBSOLETE FILES` beside the file |
| Disk.ArchiveOfJoin | main_ver3.3.py:905-910 | for a path built by `join(d, n)` the archive slot is `join(join(d, "-- OBSOLETE FILES"), n)` |
| Disk.FileSystem.Read | main_ver3.3.py:369-370 | a read succeeds exactly for a decodable file and yields its recording |
| Disk.FileSystem.Write | main_ver3.3.py:400 | the written path holds the new recording; nothing else changes |
| Disk.FileSystem.Move | main_ver3.3.py:407 | reports success exactly when the source exists, and the disk becomes `MoveEntry` of the old disk |
| Patterns.GroupEnd | main_ver3.3.py:776 | the lazy group 1 ends at the least split at which the rest of the pattern matches, and there is none when no split matches |
| Patterns.NoDotNoMatch | main_ver3.3.py:776-777 | a name with no `.` before its last character is not matched, so it is not grouped |
| Patterns.GroupEndsBeforeSeparators | main_ver3.3.py:776 | group 1 never ends in a separator the pattern could have skipped |
| Patterns.GuitarBase | main_ver3.3.py:776-778 | in every version `Guitar.wav` is grouped under `Guita`: the optional side token takes the final `r` |
| Patterns.SearchMeans | main_ver3.3.py:275 | `re.search` of a side pattern succeeds iff the pattern matches at some position |
| Pairing.MatchKey | main_ver3.3.py:776-783 | a name has a key exactly when the grouping pattern matches it |
| Pairing.KeyFnAt | main_ver3.3.py:768-783 | dot files and files in `-- OBSOLETE FILES` have no key; every other file is keyed by its name alone |
| Pairing.HiddenUnkeyed | main_ver3.3.py:771-772 | names starting with `.` are never grouped |
| Pairing.GroupedMeans | main_ver3.3.py:784-787 | the groups are keyed without repeats in first-seen order; a key is present iff some scanned file has it, and its list holds exactly those paths in scan order |
| Pairing.AddPathKeeps | main_ver3.3.py:784-787 | appending a path to the dict of lists keeps keys distinct and changes only that key's list |
| Pairing.UnkeyedFolderSkipped | main_ver3.3.py:768-769 | a folder none of whose files has a key leaves the groups as they were |
| Pairing.ArchiveFolderSkipped | main_ver3.3.py:768-769 | the `-- OBSOLETE FILES` folder contributes nothing to the groups |
| Pairing.ScanFolder | main_ver3.3.py:770-787 | the inner loop adds exactly one folder's files to the groups |
| Pairing.FindMatchingFiles | main_ver3.3.py:761-788 | the dict built over the walk is the grouping of the whole listing |
| Pairing.PairOf | main_ver3.3.py:273-282 | a group yields a pair iff exactly one path is left and exactly one is right; then those two are its only left and right paths, and both are in the group |
| Pairing.ShowLRPairs | main_ver3.3.py:267-282 | the pairs shown are those of each group, in group order |
| Pairing.PairsFromOneGroup | main_ver3.3.py:269-282 | both halves of every shown pair come from one group; the first passes the left test and the second the right test |
| Pairing.PairHalvesDiffer33 | main_ver3.3.py:275-279 | in 3.3 the `elif` keeps a pair's halves apart: left and right are different paths |
| Pairing.SelfPair | main_mac.py:270-273 | `s/L/Kick R.wav` alone pairs with itself on macOS, 2.8 and 2.6, but not in 3.3 |
| Pairing.SinglePathPair | main_ver2.8.py:170-173 | a one-path group pairs the path with itself exactly when it passes both side tests |
| Identify.ContainsLabeledFiles | main_ver3.3.py:479-484 | answers true exactly when some file name in the tree contains `(mono)` or `(stereo)` |
| Identify.Candidates | main_mac.py:534 | the files the pass visits in each folder are its `.wav` names, less dot files on macOS |
| Identify.IdentifyStep | main_ver3.3.py:587-624 | a labelled or unreadable file is left alone; a file is reported exactly when it is unlabelled and classified `dualmono`, and then its new `(dualmono)` path is reported and exists |
| Identify.IdentifyFile | main_ver3.3.py:589-627 | one file's labelling changes the disk and reports as `IdentifyStep` says |
| Identify.IdentifyFolder | main_ver3.3.py:587-631 | the inner loop extends the pass by exactly one folder of the walk |
| Identify.IdentifyNext | main_ver3.3.py:592-624 | one loop iteration extends the pass by one file |
| Identify.IdentifyAudioType | main_ver3.3.py:576-636 | the labelling of the whole walk: the disk and the dualmono list are those of the pass over the candidate files in walk order |
| Identify.IdentifyReturnsDualmono | main_ver3.3.py:621-624 | every reported path ends in ` (dualmono).wav` |
| Identify.LabelNameLabeled | main_ver3.3.py:589-621 | after a rename a file is skipped by later passes exactly when its new tag is `mono` or `stereo` |
| Identify.LabelledSkipped | main_ver3.3.py:589-590 | a name containing `(mono)` or `(stereo)` is left alone |
| Identify.LabelRenamed | main_ver3.3.py:619-624 | an unlabelled file of any label but `silent_channel` is renamed to `stem (<label>).wav` with its contents unchanged, the old path disappears unless it is the new one, every other path is unchanged, and only a `dualmono` file reports its new path |
| Identify.SilentChannelReplaced | main_ver3.3.py:600-617 | a silent-channel file is replaced by `stem (mono).wav` holding the active channel, and the original goes to the archive |
| Reconstruct.ConvertDualmonoToMono | main_ver3.3.py:359-413 | converting the selected paths, when asked, gives the disk of the conversion pass; otherwise nothing changes |
| Reconstruct.DualmonoStepEffect | main_ver3.3.py:370-407 | a two-channel file gives a one-channel `(mono).wav` twin of the same length, rate and subtype, holding the kept channel; the original lands in the archive and nothing else changes |
| Reconstruct.DualmonoSameName | main_ver3.3.py:399-407 | a path without `(dualmono).wav` is written over itself and then moved away, so the converted buffer ends up in the archive and the path disappears |
| Reconstruct.DualmonoPassSkipsUnreadable | main_ver3.3.py:367-411 | a failed read is caught and the loop goes on: unreadable paths change nothing |
| Reconstruct.ConvertToMono | main_ver3.3.py:790-824 | the returned path and the new disk are those `ToMono` gives |
| Reconstruct.MonoSuffixNameIsNew | main_ver3.3.py:806-807 | `stem (mono)ext` is seven characters longer than the input, so it never names the input |
| Reconstruct.ToMonoOutcomes | main_ver3.3.py:790-824 | 3.3 and macOS always return a path; a readable path with `(dualmono)` and no `(mono)` gives the new `stem (mono)ext` path, which holds column 0 of a two-channel read and any other read unchanged, while the original moves to the archive, its old path disappears and no other path changes; any other input returns itself with nothing changed |
| Reconstruct.MonoSuffixNotArchive | main_ver3.3.py:806-817 | the new `(mono)` file is never written where the original is archived, so the move cannot overwrite it |
| Reconstruct.ToMonoLegacy | main_ver2.8.py:550-579 | 2.6 and 2.8 return `None` for a readable path with neither tag; 2.6 stops on a one-channel `(dualmono)` file |
| Reconstruct.IsMono | main_ver3.3.py:704-719 | true exactly for a readable one-channel file; 3.3 and macOS answer false for an unreadable file, while 2.6 and 2.8 stop |
| Reconstruct.SharedPrefix | main_ver3.3.py:882-889 | the stem prefix is a prefix of the left stem whose characters all match, and it stops at the first mismatch or at the end of either stem |
| Reconstruct.SharedPrefixUnique | main_ver3.3.py:884-889 | any prefix length with that property is the one the loop finds |
| Reconstruct.ComputeStereoBase | main_ver3.3.py:882-891 | the prefix loop computes the stereo base name |
| Reconstruct.StereoMissingInput | main_ver3.3.py:831-837 | 3.3 and macOS return `None` and change nothing when either input is missing |
| Reconstruct.StereoDataShape | main_ver3.3.py:857-866 | the merged buffer is two channels of the shorter length, with the first channel of each input side by side, at the left input's rate and subtype |
| Reconstruct.StereoDataStacks | main_ver2.6.py:392-398 | 2.6 stacks every column of both inputs: the merged buffer is as long as the shorter input, frame `i` is frame `i` of the left input followed by frame `i` of the right one, its channels are both inputs' together, and rate and subtype are the left input's |
| Reconstruct.ToStereoMerges | main_ver3.3.py:839-910 | two readable inputs are written as the merged buffer under the `(stereo).wav` name, and then archived |
| Reconstruct.WriteAndArchiveEffect | main_ver3.3.py:899-910 | with distinct archive slots, the output holds the merged buffer and both originals sit, unchanged, in the left directory's archive |
| Reconstruct.StereoMergeEffect | main_ver3.3.py:893-910 | a successful merge returns the new name; the disk holds the merged buffer there, both inputs are gone, and both originals are in the archive |
| Reconstruct.ConvertToStereo | main_ver3.3.py:826-915 | the returned name and the new disk are those `ToStereo` gives |
| Reconstruct.StereoNameSuffix | main_ver3.3.py:894 | every merged file's name ends in `(stereo).wav` |
| Reconstruct.StereoNameFresh | main_ver3.3.py:894 | the merged name differs from any path not ending in `)` before its extension |
| Reconstruct.StereoCollision | main_ver3.3.py:906-910 | when both inputs share an archive slot, the slot ends up holding the right original, and no other path is added or kept |
| Reconstruct.StereoArchiveCollision | main_ver3.3.py:906-910 | merging `s/L/Snare.wav` with `s/R/Snare.wav` leaves the right original in the left archive slot and loses the left original |
| Reconstruct.StereoBaseCase | main_ver3.3.py:885-886 | `kick L` and `Kick R` share no prefix in 3.3 on POSIX, and share `kick ` on Windows and on macOS |
| Reconstruct.FoldedCasePrefix | main_mac.py:774-780 | where case is folded, `kick L` and `Kick R` share the prefix `kick ` |
| Reconstruct.StereoBaseKeepsSeparator | main_ver3.3.py:882-894 | `Vox_left` and `Vox_right` merge under the base `Vox_` in every version |
| Session.IdentifyFlow | main_ver3.3.py:472-477 | nothing happens on a labelled tree or a refusal; 2.6 and 2.8 hand no list on; every path handed on ends in ` (dualmono).wav` |
| Session.ConfirmIdentifyAudioType | main_ver3.3.py:472-477 | the confirmation step changes the disk and hands on the list as `IdentifyFlow` says |
| Session.ConfirmConvertDualmono | main_ver3.3.py:415-431 | 3.3 and macOS convert exactly the dualmono files the user selects |
| Session.TopLevelDualmono | main_ver2.8.py:239 | the names taken are exactly the top-level names whose lower-cased form ends in `(dualmono).wav` |
| Session.ConfirmConvertDualmonoLegacy | main_ver2.8.py:238-241 | 2.8 converts the top-level dualmono names as bare names |
| Session.BareNamesMissFolder | main_ver2.8.py:239-241 | bare names that are not paths on the disk change nothing |
| Session.MonoInput | main_ver3.3.py:735-738 | a mono input goes on unchanged, another input through `convert_to_mono`; an `is_mono` failure stops the script |
| Session.MergeOne | main_ver3.3.py:735-739 | one pair makes both inputs mono and merges them, as `MergePair` says |
| Session.MergePairs | main_ver3.3.py:731-742 | the loop over the selected pairs gives what `MergeAll` says, including where it stops |
| Session.MergeAllAppend | main_ver3.3.py:731-742 | the loop over two runs of pairs is the loop over the first, and then, if that one finished, the loop over the second |
| Session.MergeAllSingle | main_ver3.3.py:731-742 | a single pair finishes the loop exactly when it does not raise |
| Session.GuardedMonoInput | main_ver3.3.py:735-738 | in 3.3 and macOS, preparing an input always yields a path |
| Session.MonoPairMerged | main_ver3.3.py:735-739 | two one-channel inputs are merged as they are |
| Session.LegacyUntaggedStereoStops | main_ver2.8.py:505-509 | in 2.6 and 2.8 an untagged two-channel left file makes `convert_to_mono` return `None`, and the merge stops the script |
| Session.SelfMergeStops | main_ver3.3.py:905-910 | merging a file with itself raises: the second move finds its source gone |
| Session.LargeGroups | main_ver2.8.py:494-495 | the groups 2.6 and 2.8 merge are exactly those with more than one path |
| Session.ConfirmConvertLRToStereo | main_ver3.3.py:721-746 | the whole merge step: 3.3 and macOS merge the selected pairs; 2.6 and 2.8 merge every pair of a group of two or more paths |
| Session.SelfPairStops | main_mac.py:663-671 | on macOS a one-channel file paired with itself stops the merge loop |
| Session.SelfPairFate | main_mac.py:663-671 | the self-pair of `s/L/Kick R.wav` is shown and stops the loop on macOS, and is shown but skipped by 2.8's group-size test |
| Orderer.IndexOf | main_ver3.3.py:115 | `list.index` returns the first position holding the element |
| Orderer.ListedFiles | main_ver3.3.py:38-41 | the listed files are exactly the existing non-dot entries of the folder, joined to it |
| Orderer.FileOrderer.constructor | main_ver3.3.py:25-41 | the rows are the listed files followed by the six headers, with no drag in progress |
| Orderer.FileOrderer.OnSelect | main_ver3.3.py:74-76 | a press marks the row under the pointer as dragged and changes nothing else |
| Orderer.FileOrderer.OnRelease | main_ver3.3.py:96-97 | a release ends the drag |
| Orderer.FileOrderer.OnMotion | main_ver3.3.py:78-93 | a motion event does what `Motion` says and keeps every header in the list |
| Orderer.FileOrderer.OnMotionLegacy | main_ver2.8.py:68-80 | the 2.6/2.8 motion event, with its range checks, does what `LegacyMotion` says |
| Orderer.Moved | main_ver3.3.py:91 | `insert(to, pop(from))` keeps the length and puts the dragged row at the target |
| Orderer.MovedPermutes | main_ver3.3.py:91 | moving a row permutes the rows |
| Orderer.MovedFilter | main_ver3.3.py:91 | moving a row the test rejects keeps the order of the rows it accepts |
| Orderer.MovedKeepsHeaders | main_ver3.3.py:84-91 | moving a row keeps every header present; moving a file row keeps the headers' order |
| Orderer.MotionKeepsHeaders | main_ver3.3.py:78-93 | a 3.3 or macOS drag permutes the rows, keeps the headers in order, and never moves a header |
| Orderer.LegacyMotionKeepsRows | main_ver2.8.py:71-77 | a 2.6 or 2.8 drag permutes the rows |
| Orderer.LegacyReordersHeaders | main_ver2.8.py:74-77 | in 2.6 and 2.8, two drags put `02- PERCUSSION` above `01- DRUMS`; the file below them is filed under `02- PERCUSSION`, though `01- DRUMS` is the nearest header |
| Orderer.CategoryOf | main_ver3.3.py:113-117 | the folder chosen is a header above the row, and none is chosen exactly when no header is above it |
| Orderer.FileOrderer.CategoryFor | main_ver3.3.py:113-117 | the inner loop picks the folder `CategoryOf` says |
| Orderer.CategoryIsNearestHeader | main_ver3.3.py:111-118 | with the headers in their fixed order, the chosen folder is the nearest header above the row |
| Orderer.LastAboveIsNearest | main_ver3.3.py:113-117 | the folder chosen is the last header above the row |
| Orderer.Digits | main_ver3.3.py:121 | the decimal digits of a number: at least one, all digits |
| Orderer.Pad2 | main_ver3.3.py:121 | `{n:02d}` has at least two digits |
| Orderer.DigitsParse | main_ver3.3.py:121 | the decimal digits read back as the number |
| Orderer.Pad2Parse | main_ver3.3.py:121 | the zero-padded number reads back as the number, so distinct numbers give distinct prefixes |
| Orderer.CategorisedTarget | main_ver3.3.py:119-121 | a filed row goes into the header's folder under the name `NN - basename` |
| Orderer.CountAfterMove | main_ver3.3.py:121-123 | moving a file into a folder under a new name adds one to that folder's count, so the next file gets the next number |
| Orderer.UnsortedHaveNoHeader | main_ver3.3.py:126-127 | every file kept for the second loop is a row with no header above it |
| Orderer.FileOrderer.CategoriseRow | main_ver3.3.py:111-127 | one row of the first loop either files the row or keeps it for the second loop, as `CategoriseStep` says |
| Orderer.FileOrderer.RenameFiles | main_ver3.3.py:109-133 | both loops together rename the files as `RenameAll` says |
| Orderer.NumberFiles | main_ver3.3.py:128-133 | the second loop numbers the kept files `01 - `, `02 - `, … in the root, in list order |

## Left out

- **Dialogs and progress.** The tkinter dialogs, listbox rendering,
  colours, `ProgressWindow` and the pointer-to-row mapping of
  `widget.nearest` are presentation. The user's answers, row selections and
  target rows are parameters.
- **Decoding.** `soundfile`, `scipy.io.wavfile` and `sf.info` are a library
  the model does not include. A decoded file is an opaque recording, copied
  through unchanged, and an undecodable file is `Other`.
- **Floating point.** Samples are reals: the tolerance comparisons are
  exact, and IEEE rounding is not modelled.
- **Walk laziness.** `os.walk` is a snapshot of the tree taken before the
  pass. The effect of renaming while the walk is still running is not
  modelled.
- Text.Lower, Text.LowerChar: names are taken as ASCII text. Only `A`–`Z`
  are folded, while Python's `str.lower()` folds every Unicode cased letter.
- Text.NormCase, Text.NormCaseChar: on Windows only ASCII letters are
  lower-cased, with the same ASCII restriction as `Lower`.
- Text.IsWordChar, Text.IsSpace: `\w` and `\s` are the ASCII classes.
  Python's `re` on `str` patterns also counts Unicode letters, digits and
  spaces, and `\x1c`–`\x1f`, as word or space characters.
- Patterns.IPrefix, Patterns.Boundary and the other `Patterns` predicates:
  they inherit the ASCII case folding and `\w`/`\s` classes above, so `\b`
  and case-insensitive matching agree with Python only on ASCII names.
- Text.Join, Text.Basename, Text.Dirname, Text.SplitExt: paths are
  `/`-separated on both platforms. On Windows, Python's `ntpath` also splits
  on `\` and on a drive prefix such as `C:`, which the model does not.
- **Windows rename collisions.** On Windows `os.rename` refuses to
  overwrite. `MoveEntry` overwrites the destination as POSIX does.
- **Folders and the working directory.** The disk holds files only:
  - `os.makedirs` has no effect;
  - `DirCount` counts the files directly inside a folder, not its
    sub-folders;
  - `os.path.isfile` on a bare name is looked up in the map. The working
    directory is not modelled.
- `confirm_delete_hidden_files` / `delete_hidden_files`: OS policy
  (`platform.system()` sniffing and `os.remove`), not engine logic.
- `main` and the order in which it calls the `confirm_*` steps: each step is
  modelled on its own.
- `select_folder`, the donation prompt and `get_operating_system`: dialogs
  and the `platform` call. The platform is the `Platform` parameter.
- **Other files.** `main.py` (a correlation classifier over `ffprobe`
  output) and `install_libraries.py` (pip installs) are not part of this
  model.
- `confirm_reorder_files` / `reorder_files`: they only open the window that
  `Orderer.FileOrderer` models.
