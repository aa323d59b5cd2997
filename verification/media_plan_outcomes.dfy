/** Which media plans are accepted, on their fields and on a timeline laid out clip by clip. */
module MediaOutcomes {
  import opened Text
  import opened Artifact
  import opened MediaPlan

  // ---------------------------------------------------------------- audio plans

  predicate AudioClipInForm(c: AudioClip) {
    && ValidText(c.clipKey, 120) && ValidText(c.voiceBindingKey, 120) && ValidText(c.lineKey, 120)
    && ValidText(c.dialogue, 8192) && ValidText(c.outputKey, 120)
    && c.start >= 0 && c.duration >= 1 && c.start as int + c.duration as int <= 43_200_000
  }

  predicate RefInForm(r: RevisionRef) {
    ValidText(r.artifactId, 120) && ValidText(r.revisionId, 120)
  }

  /** An audio plan is accepted if and only if it has inputs, each of another artifact, and one to 256 clips
      in form with keys, lines and outputs of their own, each starting when the one before has ended. */
  lemma AudioExactly(p: AudioPlan)
    ensures ValidAudioPlan(p) <==>
            && ValidText(p.planKey, 120) && |p.inputs| >= 1 && 1 <= |p.clips| <= 256
            && (forall i :: 0 <= i < |p.inputs| ==> RefInForm(p.inputs[i]))
            && (forall i, j :: 0 <= i < j < |p.inputs| ==> p.inputs[i].artifactId != p.inputs[j].artifactId)
            && (forall i :: 0 <= i < |p.clips| ==> AudioClipInForm(p.clips[i]))
            && (forall i, j :: 0 <= i < j < |p.clips| ==>
                 && p.clips[i].clipKey != p.clips[j].clipKey && p.clips[i].lineKey != p.clips[j].lineKey
                 && p.clips[i].outputKey != p.clips[j].outputKey
                 && p.clips[i].start as int + p.clips[i].duration as int <= p.clips[j].start as int)
  {
    hide ValidText;
    assert ValidRefs(p.inputs) <==>
      && (forall i :: 0 <= i < |p.inputs| ==> RefInForm(p.inputs[i]))
      && (forall i, j :: 0 <= i < j < |p.inputs| ==> p.inputs[i].artifactId != p.inputs[j].artifactId);
    hide ValidRefs, RefInForm;
    if ValidAudioPlan(p) {
      AudioClipsAreDisjoint(p);
    }
  }

  // ---------------------------------------------------------------- assembly plans

  predicate TrimInForm(from: Option<int64>, to: Option<int64>) {
    from.Some? && to.Some? && 0 <= from.value < to.value <= 43_200_000
  }

  predicate GainInForm(gain: int64) {
    -96_000 <= gain <= 24_000
  }

  function Length(c: Clip): int {
    if c.trimStart.Some? && c.trimEnd.Some? then c.trimEnd.value as int - c.trimStart.value as int else 0
  }

  /** How long a clip plays together with the next one. */
  function Joint(c: Clip): int {
    if c.transition.duration.Some? then c.transition.duration.value as int else 0
  }

  predicate ClipInForm(c: Clip, mode: AudioMode) {
    && ValidText(c.clipKey, 120) && RefInForm(c.source) && TrimInForm(c.trimStart, c.trimEnd)
    && (if mode == NativeAudio then c.nativeGain.Some? && GainInForm(c.nativeGain.value) else c.nativeGain.None?)
  }

  /** A cut takes no time; a crossfade takes some, but less than either of the clips it joins. */
  predicate TransitionInForm(clips: seq<Clip>, i: nat)
    requires i < |clips|
  {
    && clips[i].transition.duration.Some?
    && (if clips[i].transition.kind == Cut then Joint(clips[i]) == 0
        else
          && clips[i].transition.kind == Crossfade && Joint(clips[i]) > 0
          && i < |clips| - 1 && Joint(clips[i]) < Length(clips[i]) && Joint(clips[i]) < Length(clips[i + 1]))
  }

  predicate TrackInForm(t: Track) {
    && ValidText(t.trackKey, 120) && RefInForm(t.source) && TrimInForm(t.trimStart, t.trimEnd)
    && t.gain.Some? && GainInForm(t.gain.value)
    && t.start.Some? && t.start.value >= 0
    && t.start.value as int + t.trimEnd.value as int - t.trimStart.value as int <= 43_200_000
  }

  predicate SideInForm(side: Option<int64>) {
    side.Some? && 2 <= side.value <= 8192 && side.value % 2 == 0
  }

  predicate OutputInForm(o: Output, mode: AudioMode) {
    && ValidText(o.artifactKey, 120) && o.container == "mp4" && o.videoCodec == "h264"
    && o.audioCodec == (if mode == NoAudio then "none" else "aac")
    && SideInForm(o.width) && SideInForm(o.height) && o.width.value as int * o.height.value as int <= 35_389_440
    && o.frameRate.Some? && 1 <= o.frameRate.value <= 240
  }

  /** The sources of all clips and tracks are revisions of different artifacts. */
  predicate SourcesDiffer(clips: seq<Clip>, tracks: seq<Track>) {
    && (forall i, j :: 0 <= i < j < |clips| ==> clips[i].source.artifactId != clips[j].source.artifactId)
    && (forall i, j :: 0 <= i < j < |tracks| ==> tracks[i].source.artifactId != tracks[j].source.artifactId)
    && forall i, j :: 0 <= i < |clips| && 0 <= j < |tracks| ==> clips[i].source.artifactId != tracks[j].source.artifactId
  }

  /** Clips laid out from zero: each starts where the one before ends, less the time they play together. */
  ghost predicate LaidOut(clips: seq<Clip>, starts: seq<int>) {
    && |starts| == |clips| && clips != [] && starts[0] == 0
    && (forall i :: 0 < i < |clips| ==> starts[i] == starts[i - 1] + Length(clips[i - 1]) - Joint(clips[i - 1]))
  }

  /** The last clip ends within twelve hours. */
  ghost predicate FitsTimeline(clips: seq<Clip>) {
    && clips != []
    && exists starts :: |starts| == |clips| && LaidOut(clips, starts) && starts[|clips| - 1] + Length(clips[|clips| - 1]) <= 43_200_000
  }

  lemma {:induction false} StartsAreLaidOut(clips: seq<Clip>, starts: seq<int>, i: nat)
    requires Laid(clips) && LaidOut(clips, starts) && i < |clips|
    ensures starts[i] == Start(clips, i)
  {
    hide Laid, ValidTransition, TrimmedClip;
    if i > 0 {
      StartsAreLaidOut(clips, starts, i - 1);
      StartAfter(clips, i);
    }
  }

  lemma StartAfter(clips: seq<Clip>, i: nat)
    requires Laid(clips) && 0 < i < |clips|
    ensures Start(clips, i) == Start(clips, i - 1) + Length(clips[i - 1]) - Joint(clips[i - 1])
  {
  }

  function Starts(clips: seq<Clip>): (starts: seq<int>)
    requires Laid(clips)
    ensures |starts| == |clips| && forall i :: 0 <= i < |starts| ==> starts[i] == Start(clips, i)
  {
    seq(|clips|, i requires 0 <= i < |clips| => Start(clips, i))
  }

  lemma LayOut(clips: seq<Clip>)
    requires Laid(clips) && clips != []
    ensures LaidOut(clips, Starts(clips))
  {
    FirstStart(clips);
    hide Laid, Start;
    var starts := Starts(clips);
    forall i | 0 < i < |clips| ensures starts[i] == starts[i - 1] + Length(clips[i - 1]) - Joint(clips[i - 1]) {
      StartAfter(clips, i);
    }
  }

  lemma LastEnd(clips: seq<Clip>)
    requires Laid(clips) && clips != []
    ensures Start(clips, |clips| - 1) + Length(clips[|clips| - 1]) == Total(clips, |clips|)
  {
    hide Total, Start;
    EndsWithVideo(clips, |clips| - 1);
  }

  lemma FitsExactly(clips: seq<Clip>)
    requires Laid(clips) && clips != []
    ensures FitsTimeline(clips) <==> Total(clips, |clips|) <= 43_200_000
  {
    hide Laid, Total, Start, LaidOut, Length;
    LastEnd(clips);
    LayOut(clips);
    var last: nat := |clips| - 1;
    if other :| |other| == |clips| && LaidOut(clips, other) && other[last] + Length(clips[last]) <= 43_200_000 {
      StartsAreLaidOut(clips, other, last);
    }
  }

  lemma FirstStart(clips: seq<Clip>)
    requires Laid(clips) && clips != []
    ensures Start(clips, 0) == 0
  {
  }

  predicate ClipsInForm(clips: seq<Clip>, mode: AudioMode) {
    && (forall i :: 0 <= i < |clips| ==> ClipInForm(clips[i], mode) && TransitionInForm(clips, i))
    && forall i, j :: 0 <= i < j < |clips| ==> clips[i].clipKey != clips[j].clipKey
  }

  predicate TracksInForm(tracks: seq<Track>) {
    && (forall i :: 0 <= i < |tracks| ==> TrackInForm(tracks[i]))
    && forall i, j :: 0 <= i < j < |tracks| ==> tracks[i].trackKey != tracks[j].trackKey
  }

  lemma ClipsExactly(clips: seq<Clip>, mode: AudioMode)
    ensures ValidClips(clips, mode) <==> ClipsInForm(clips, mode)
  {
    hide ValidText;
    forall c: Clip ensures ValidClip(c, mode) <==> ClipInForm(c, mode) {
    }
    forall i: nat | i < |clips| && TrimmedClip(clips[i]) && (i + 1 < |clips| ==> TrimmedClip(clips[i + 1]))
      ensures ValidTransition(clips, i) <==> TransitionInForm(clips, i)
    {
    }
    forall c: Clip | ClipInForm(c, mode) ensures TrimmedClip(c) {
    }
    hide ClipInForm, TransitionInForm, TrimmedClip;
  }

  lemma TracksExactly(tracks: seq<Track>)
    ensures ValidTracks(tracks) <==> TracksInForm(tracks)
  {
    hide ValidText;
    forall t: Track ensures ValidTrack(t) <==> TrackInForm(t) {
    }
    hide ValidTrack, TrackInForm;
  }

  lemma OutputExactly(o: Output, mode: AudioMode)
    ensures ValidOutput(o, mode) <==> OutputInForm(o, mode)
  {
    hide ValidText;
    SideExactly(o.width);
    SideExactly(o.height);
    hide ValidSide, SideInForm;
  }

  lemma SideExactly(side: Option<int64>)
    ensures ValidSide(side) <==> SideInForm(side)
  {
  }

  lemma SourcesExactly(clips: seq<Clip>, tracks: seq<Track>)
    requires (forall i :: 0 <= i < |clips| ==> RefInForm(clips[i].source)) && (forall i :: 0 <= i < |tracks| ==> RefInForm(tracks[i].source))
    ensures ValidRefs(Inputs(clips, tracks)) <==> SourcesDiffer(clips, tracks)
  {
    hide ValidText;
    var inputs := Inputs(clips, tracks);
    assert forall i :: 0 <= i < |clips| ==> inputs[i] == clips[i].source;
    assert forall i :: 0 <= i < |tracks| ==> inputs[|clips| + i] == tracks[i].source;
    assert |inputs| == |clips| + |tracks|;
    assert forall k :: |clips| <= k < |inputs| ==> inputs[k] == tracks[k - |clips|].source;
  }

  /** An assembly plan is accepted if and only if its clips, tracks and output are in form, its sources
      differ, only an independent soundtrack has tracks, and the clips laid out end within twelve hours. */
  lemma AssemblyExactly(p: Plan)
    ensures Accepted(p) <==>
            && ValidText(p.planKey, 120) && p.audioMode in {NoAudio, NativeAudio, IndependentAudio}
            && 1 <= |p.clips| <= 256 && p.audioTracks.Some? && |p.audioTracks.value| <= 256
            && OutputInForm(p.output, p.audioMode) && ClipsInForm(p.clips, p.audioMode) && TracksInForm(p.audioTracks.value)
            && (p.audioMode == IndependentAudio <==> p.audioTracks.value != [])
            && SourcesDiffer(p.clips, p.audioTracks.value) && FitsTimeline(p.clips)
  {
    OutputExactly(p.output, p.audioMode);
    ClipsExactly(p.clips, p.audioMode);
    if p.audioTracks.Some? {
      TracksExactly(p.audioTracks.value);
    }
    hide ValidText, OutputInForm, ValidOutput, SourcesDiffer, ValidTracks, ValidRefs, FitsTimeline, Total, Inputs, Laid;
    if p.audioTracks.Some? && ClipsInForm(p.clips, p.audioMode) && TracksInForm(p.audioTracks.value) {
      SourcesExactly(p.clips, p.audioTracks.value);
    }
    hide ClipsInForm, TracksInForm;
    if ValidClips(p.clips, p.audioMode) && p.clips != [] {
      ClipsAreLaid(p.clips, p.audioMode);
      FitsExactly(p.clips);
    }
  }
}
