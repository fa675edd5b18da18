/** The channel-layout classifier (`get_audio_type` / `detect_audio_type`) and
    the channel choices of the two mono conversions. */
module Classifier {
  import opened Common
  import opened Audio

  /** The label a file receives; its tag is the text put between parentheses
      in the new file name. */
  datatype Label = Mono | Stereo | DualMono | SilentChannel | Unknown

  function Tag(l: Label): string
  {
    match l
    case Mono => "mono"
    case Stereo => "stereo"
    case DualMono => "dualmono"
    case SilentChannel => "silent_channel"
    case Unknown => "unknown"
  }

  /** What `detect_audio_type` answers: "False stereo", "True stereo", "Unknown". */
  datatype Layout = FalseStereo | TrueStereo | UnknownLayout

  /** Does this version test the channels for silence? 2.6 does not. */
  predicate TestsSilence(v: Version)
  {
    v != V26
  }

  /** `detect_audio_type`. A buffer that is not two columns wide (a one-channel
      read comes back one-dimensional and raises inside the `try`) is unknown. */
  function DetectAudioType(r: Recording, v: Version): (l: Layout)
    ensures l == UnknownLayout <==> r.channels != 2
    ensures l == FalseStereo <==>
      r.channels == 2 &&
      ((TestsSilence(v) && (Silent(r.frames, 0) || Silent(r.frames, 1))) || ChannelsEqual(r.frames))
  {
    if r.channels == 2 then
      if TestsSilence(v) && (Silent(r.frames, 0) || Silent(r.frames, 1)) then FalseStereo
      else if ChannelsEqual(r.frames) then FalseStereo
      else TrueStereo
    else UnknownLayout
  }

  /** `get_audio_type` on a file that could be read. */
  function Classify(r: Recording, v: Version): (l: Label)
    ensures l == Mono <==> r.channels == 1
    ensures l == Unknown <==> r.channels != 1 && r.channels != 2
    ensures l == SilentChannel <==>
      TestsSilence(v) && r.channels == 2 && (Silent(r.frames, 0) || Silent(r.frames, 1))
    ensures l == DualMono <==>
      r.channels == 2 && ChannelsEqual(r.frames) &&
      !(TestsSilence(v) && (Silent(r.frames, 0) || Silent(r.frames, 1)))
    ensures l == Stereo <==>
      r.channels == 2 && !ChannelsEqual(r.frames) &&
      !(TestsSilence(v) && (Silent(r.frames, 0) || Silent(r.frames, 1)))
  {
    if r.channels == 1 then Mono
    else if r.channels == 2 then
      if TestsSilence(v) && (Silent(r.frames, 0) || Silent(r.frames, 1)) then SilentChannel
      else if DetectAudioType(r, v) == FalseStereo then DualMono
      else Stereo
    else Unknown
  }

  /** `get_audio_type`: `None` when the file is missing or cannot be decoded. */
  function GetAudioType(files: map<string, Entry>, path: string, v: Version): (l: Option<Label>)
    ensures l.None? <==> path !in files || files[path].Other?
    ensures l.Some? ==> l.value == Classify(files[path].rec, v)
  {
    if path in files && files[path].Audio? then Some(Classify(files[path].rec, v)) else None
  }

  /** By the time `get_audio_type` calls `detect_audio_type`, the silence
      test has already failed, so the first branch of `detect_audio_type`
      is dead code there: its answer depends on the equality test alone. */
  lemma DetectAfterSilenceTest(r: Recording, v: Version)
    requires r.channels == 2 && TestsSilence(v) && !Silent(r.frames, 0) && !Silent(r.frames, 1)
    ensures DetectAudioType(r, v) == FalseStereo <==> ChannelsEqual(r.frames)
    ensures Classify(r, v) == (if ChannelsEqual(r.frames) then DualMono else Stereo)
  {
  }

  /** Silence wins over equality: identical channels are labelled
      silent_channel, not dualmono, as soon as one of them is silent. */
  lemma SilenceBeforeEquality(r: Recording, v: Version)
    requires r.channels == 2 && TestsSilence(v) && ChannelsEqual(r.frames)
    requires Silent(r.frames, 0) || Silent(r.frames, 1)
    ensures Classify(r, v) == SilentChannel
  {
  }

  /** A stereo buffer that is silent on the left and loud on the right:
      2.6 has no silence test and calls it stereo, later versions call it
      silent_channel. */
  lemma SilenceTestByVersion()
    ensures Classify(Recording(2, [[0.0, 0.5], [0.0, -0.5]], 44100, "PCM_24"), V26) == Stereo
    ensures Classify(Recording(2, [[0.0, 0.5], [0.0, -0.5]], 44100, "PCM_24"), V33) == SilentChannel
  {
    var r := Recording(2, [[0.0, 0.5], [0.0, -0.5]], 44100, "PCM_24");
    assert Abs(Sample(r.frames[0], 0) - Sample(r.frames[0], 1)) == 0.5;
    assert !ChannelsEqual(r.frames);
    assert Silent(r.frames, 0);
  }

  /** An empty two-channel buffer passes every `np.all` test and is labelled
      silent_channel (dualmono in 2.6). */
  lemma EmptyBuffer(rate: int, subtype: string, v: Version)
    ensures Classify(Recording(2, [], rate, subtype), v) == if TestsSilence(v) then SilentChannel else DualMono
  {
  }

  // ---------------------------------------------------------------------
  // Channel choices
  // ---------------------------------------------------------------------

  /** The column `convert_dualmono_to_mono` keeps in 2.8, 3.3 and the macOS
      branch: the right one only when the left is silent and the right is
      not; the left one otherwise, including when both or neither are silent
      and when the file is not two channels wide. */
  function KeptChannel(r: Recording): (c: nat)
    ensures c == 0 || c == 1
    ensures c == 1 <==> r.channels == 2 && Silent(r.frames, 0) && !Silent(r.frames, 1)
  {
    if r.channels == 2 then
      var leftSilent := Silent(r.frames, 0);
      var rightSilent := Silent(r.frames, 1);
      if leftSilent || rightSilent then
        if leftSilent && !rightSilent then 1
        else if rightSilent && !leftSilent then 0
        else 0
      else 0
    else 0
  }

  /** The column `identify_audio_type` keeps for a silent_channel file: the
      right one whenever the left is silent. */
  function ActiveChannel(r: Recording): (c: nat)
    ensures c == 1 <==> Silent(r.frames, 0)
    ensures c == 0 <==> !Silent(r.frames, 0)
  {
    if Silent(r.frames, 0) then 1 else 0
  }

  /** The two choices agree on every silent_channel file except one whose two
      channels are both silent: identify keeps the right one, the dualmono
      conversion would keep the left one. */
  lemma ChannelChoicesAgree(r: Recording)
    requires r.channels == 2 && (Silent(r.frames, 0) || Silent(r.frames, 1))
    ensures ActiveChannel(r) != KeptChannel(r) <==> Silent(r.frames, 0) && Silent(r.frames, 1)
  {
  }
}
