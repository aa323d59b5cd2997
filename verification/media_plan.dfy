/** Audio plans and assembly plans: intervals on a timeline of at most twelve hours. */
module MediaPlan {
  import opened Text
  import opened Artifact

  // Go's int and int64 on the platforms the backend runs on.
  newtype int64 = x: int | -0x8000_0000_0000_0000 <= x < 0x8000_0000_0000_0000

  const MAX_ENTRIES := 256
  const MAX_TIMELINE: int64 := 12 * 60 * 60 * 1000
  const MAX_PIXELS: int64 := 8192 * 4320

  // ---------------------------------------------------------------- audio plans

  datatype AudioClip = AudioClip(
    clipKey: string, voiceBindingKey: string, lineKey: string, dialogue: string,
    start: int64, duration: int64, outputKey: string)

  datatype AudioPlan = AudioPlan(planKey: string, inputs: seq<RevisionRef>, clips: seq<AudioClip>)

  predicate ValidAudioTexts(c: AudioClip) {
    && ValidText(c.clipKey, 120) && ValidText(c.voiceBindingKey, 120) && ValidText(c.lineKey, 120)
    && ValidText(c.dialogue, 8 * 1024) && ValidText(c.outputKey, 120)
  }

  function AudioEnd(c: AudioClip): int {
    c.start as int + c.duration as int
  }

  predicate OnTimeline(c: AudioClip) {
    0 <= c.start && 0 < c.duration && AudioEnd(c) <= MAX_TIMELINE as int
  }

  predicate DifferentKeys(c: AudioClip, d: AudioClip) {
    c.clipKey != d.clipKey && c.lineKey != d.lineKey && c.outputKey != d.outputKey
  }

  predicate AfterPrevious(clips: seq<AudioClip>, i: nat)
    requires 0 < i < |clips|
  {
    AudioEnd(clips[i - 1]) <= clips[i].start as int
  }

  ghost predicate ValidAudioClips(clips: seq<AudioClip>) {
    && (forall i :: 0 <= i < |clips| ==> ValidAudioTexts(clips[i]) && OnTimeline(clips[i]))
    && (forall i, j :: 0 <= i < j < |clips| ==> DifferentKeys(clips[i], clips[j]))
    && forall i :: 0 < i < |clips| ==> AfterPrevious(clips, i)
  }

  ghost predicate ValidAudioPlan(p: AudioPlan) {
    && ValidText(p.planKey, 120)
    && p.inputs != [] && ValidRefs(p.inputs)
    && 1 <= |p.clips| <= MAX_ENTRIES
    && ValidAudioClips(p.clips)
  }

  /** Checks clip i against the end of the clip before; the differences never leave int64. */
  method CheckAudioClip(c: AudioClip, first: bool, previousEnd: int64) returns (ok: bool)
    ensures ok <==> ValidAudioTexts(c) && OnTimeline(c) && (first || previousEnd <= c.start)
  {
    hide ValidText;
    if !ValidText(c.clipKey, 120) || !ValidText(c.voiceBindingKey, 120) || !ValidText(c.lineKey, 120)
       || !ValidText(c.dialogue, 8 * 1024) || !ValidText(c.outputKey, 120) {
      return false;
    }
    if c.start < 0 || c.duration <= 0 || c.start > MAX_TIMELINE - c.duration {
      return false;
    }
    return first || c.start >= previousEnd;
  }

  /** The three tables hold the keys of the first n clips. */
  ghost predicate Seen(clips: seq<AudioClip>, n: nat, clipKeys: set<string>, lineKeys: set<string>, outputKeys: set<string>)
    requires n <= |clips|
  {
    && clipKeys == (set k | 0 <= k < n :: clips[k].clipKey)
    && lineKeys == (set k | 0 <= k < n :: clips[k].lineKey)
    && outputKeys == (set k | 0 <= k < n :: clips[k].outputKey)
  }

  lemma SeenTells(clips: seq<AudioClip>, n: nat, clipKeys: set<string>, lineKeys: set<string>, outputKeys: set<string>)
    requires n < |clips| && Seen(clips, n, clipKeys, lineKeys, outputKeys)
    ensures clips[n].clipKey !in clipKeys && clips[n].lineKey !in lineKeys && clips[n].outputKey !in outputKeys
            <==> forall k :: 0 <= k < n ==> DifferentKeys(clips[k], clips[n])
    ensures Seen(clips, n + 1, clipKeys + {clips[n].clipKey}, lineKeys + {clips[n].lineKey}, outputKeys + {clips[n].outputKey})
  {
    if forall k :: 0 <= k < n ==> DifferentKeys(clips[k], clips[n]) {
      assert forall k :: 0 <= k < n ==> clips[k].clipKey != clips[n].clipKey;
      assert forall k :: 0 <= k < n ==> clips[k].lineKey != clips[n].lineKey;
      assert forall k :: 0 <= k < n ==> clips[k].outputKey != clips[n].outputKey;
    }
  }

  method CheckAudioClips(clips: seq<AudioClip>) returns (ok: bool)
    ensures ok <==> ValidAudioClips(clips)
  {
    hide ValidAudioTexts, Seen, DifferentKeys, OnTimeline;
    var clipKeys: set<string>, lineKeys: set<string>, outputKeys: set<string> := {}, {}, {};
    var previousEnd: int64 := 0;
    assert Seen(clips, 0, {}, {}, {}) by { NothingSeen(clips); }
    for i := 0 to |clips|
      invariant forall k :: 0 <= k < i ==> ValidAudioTexts(clips[k]) && OnTimeline(clips[k])
      invariant forall j, k :: 0 <= j < k < i ==> DifferentKeys(clips[j], clips[k])
      invariant forall k :: 0 < k < i ==> AfterPrevious(clips, k)
      invariant Seen(clips, i, clipKeys, lineKeys, outputKeys)
      invariant i > 0 ==> previousEnd as int == AudioEnd(clips[i - 1])
    {
      var clip := clips[i];
      ok := CheckAudioClip(clip, i == 0, previousEnd);
      assert i > 0 ==> (AfterPrevious(clips, i) <==> previousEnd <= clip.start);
      if !ok {
        return;
      }
      SeenTells(clips, i, clipKeys, lineKeys, outputKeys);
      if clip.clipKey in clipKeys || clip.lineKey in lineKeys || clip.outputKey in outputKeys {
        return false;
      }
      clipKeys, lineKeys, outputKeys := clipKeys + {clip.clipKey}, lineKeys + {clip.lineKey}, outputKeys + {clip.outputKey};
      EndFits(clip);
      previousEnd := clip.start + clip.duration;
    }
    return true;
  }

  lemma NothingSeen(clips: seq<AudioClip>)
    ensures Seen(clips, 0, {}, {}, {})
  {
  }

  lemma EndFits(c: AudioClip)
    requires OnTimeline(c)
    ensures 0 <= c.start && 0 < c.duration && AudioEnd(c) <= MAX_TIMELINE as int
  {
  }

  method ValidateAudioPlan(p: AudioPlan) returns (ok: bool)
    ensures ok <==> ValidAudioPlan(p)
  {
    hide ValidText, ValidRefs, ValidAudioClips;
    if !ValidText(p.planKey, 120) || |p.inputs| == 0 || |p.clips| == 0 || |p.clips| > MAX_ENTRIES {
      return false;
    }
    ok := CheckRefs(p.inputs);
    if ok {
      ok := CheckAudioClips(p.clips);
    }
  }

  lemma {:induction false} LaterClipStartsLater(clips: seq<AudioClip>, i: nat, j: nat)
    requires ValidAudioClips(clips) && i < j < |clips|
    ensures AudioEnd(clips[i]) <= clips[j].start as int
    decreases j
  {
    hide ValidAudioTexts, DifferentKeys;
    assert AfterPrevious(clips, j);
    if i < j - 1 {
      LaterClipStartsLater(clips, i, j - 1);
      assert OnTimeline(clips[j - 1]);
    }
  }

  /** Clips of an accepted audio plan never sound at the same time. */
  lemma AudioClipsAreDisjoint(p: AudioPlan)
    requires ValidAudioPlan(p)
    ensures forall i, j :: 0 <= i < j < |p.clips| ==> AudioEnd(p.clips[i]) <= p.clips[j].start as int
  {
    hide ValidText, ValidRefs, ValidAudioClips, AudioEnd;
    forall i, j | 0 <= i < j < |p.clips| ensures AudioEnd(p.clips[i]) <= p.clips[j].start as int {
      LaterClipStartsLater(p.clips, i, j);
    }
  }

  // ---------------------------------------------------------------- assembly plans

  datatype AudioMode = NoAudio | NativeAudio | IndependentAudio | UnknownAudioMode
  datatype TransitionKind = Cut | Crossfade | UnknownTransition
  datatype Transition = Transition(kind: TransitionKind, duration: Option<int64>)

  datatype Clip = Clip(
    clipKey: string, source: RevisionRef, trimStart: Option<int64>, trimEnd: Option<int64>,
    nativeGain: Option<int64>, transition: Transition)

  datatype Track = Track(
    trackKey: string, source: RevisionRef, start: Option<int64>, trimStart: Option<int64>, trimEnd: Option<int64>,
    gain: Option<int64>)

  datatype Output = Output(
    artifactKey: string, container: string, videoCodec: string, audioCodec: string,
    width: Option<int64>, height: Option<int64>, frameRate: Option<int64>)

  // None stands for a list of tracks that is missing, which is not an empty one.
  datatype Plan = Plan(planKey: string, audioMode: AudioMode, clips: seq<Clip>, audioTracks: Option<seq<Track>>, output: Output)

  predicate ValidInterval(start: Option<int64>, end: Option<int64>) {
    start.Some? && end.Some? && start.value >= 0 && end.value > start.value && end.value <= MAX_TIMELINE
  }

  predicate ValidGain(gain: Option<int64>) {
    gain.None? || -96000 <= gain.value <= 24000
  }

  predicate ValidSide(side: Option<int64>) {
    side.Some? && 0 < side.value <= 8192 && side.value % 2 == 0
  }

  predicate ValidOutput(o: Output, mode: AudioMode) {
    && ValidText(o.artifactKey, 120) && o.container == "mp4" && o.videoCodec == "h264"
    && ValidSide(o.width) && ValidSide(o.height)
    && o.width.value as int * o.height.value as int <= MAX_PIXELS as int
    && o.frameRate.Some? && 0 < o.frameRate.value <= 240
    && o.audioCodec == (if mode.NoAudio? then "none" else "aac")
  }

  lemma ProductFits(a: int, b: int)
    requires 0 < a <= 8192 && 0 < b <= 8192
    ensures 0 < a * b <= 8192 * 8192
  {
    assert (8192 - a) * b >= 0;
  }

  method CheckOutput(o: Output, mode: AudioMode) returns (ok: bool)
    ensures ok <==> ValidOutput(o, mode)
  {
    hide ValidText;
    if !ValidText(o.artifactKey, 120) || o.container != "mp4" || o.videoCodec != "h264"
       || o.width.None? || o.height.None? || o.frameRate.None? {
      return false;
    }
    var width, height := o.width.value, o.height.value;
    if width <= 0 || height <= 0 || width > 8192 || height > 8192 {
      return false;
    }
    ProductFits(width as int, height as int);
    if width * height > MAX_PIXELS || width % 2 != 0 || height % 2 != 0 || o.frameRate.value <= 0 || o.frameRate.value > 240 {
      return false;
    }
    return if mode.NoAudio? then o.audioCodec == "none" else o.audioCodec == "aac";
  }

  predicate TrimmedClip(c: Clip) {
    ValidInterval(c.trimStart, c.trimEnd)
  }

  function Duration(c: Clip): int
    requires TrimmedClip(c)
  {
    c.trimEnd.value as int - c.trimStart.value as int
  }

  predicate ValidClip(c: Clip, mode: AudioMode) {
    && ValidText(c.clipKey, 120)
    && c.source.Valid()
    && TrimmedClip(c)
    && ValidGain(c.nativeGain)
    && (mode.NativeAudio? <==> c.nativeGain.Some?)
  }

  /** A cut takes no time; a crossfade needs a next clip and is shorter than both clips it joins. */
  predicate ValidTransition(clips: seq<Clip>, i: nat)
    requires i < |clips| && TrimmedClip(clips[i])
  {
    var t := clips[i].transition;
    && t.duration.Some?
    && match t.kind
       case Cut => t.duration.value == 0
       case Crossfade =>
         && i + 1 < |clips| && TrimmedClip(clips[i + 1])
         && 0 < t.duration.value && t.duration.value as int < Duration(clips[i]) && t.duration.value as int < Duration(clips[i + 1])
       case UnknownTransition => false
  }

  predicate ValidClips(clips: seq<Clip>, mode: AudioMode) {
    && (forall i :: 0 <= i < |clips| ==> ValidClip(clips[i], mode) && ValidTransition(clips, i))
    && forall i, j :: 0 <= i < j < |clips| ==> clips[i].clipKey != clips[j].clipKey
  }

  /** The overlap of clip i with the one after it. */
  function Overlap(clips: seq<Clip>, i: nat): int
    requires i < |clips| && clips[i].transition.duration.Some?
  {
    clips[i].transition.duration.value as int
  }

  predicate Laid(clips: seq<Clip>) {
    forall i :: 0 <= i < |clips| ==> TrimmedClip(clips[i]) && ValidTransition(clips, i)
  }

  /** What clip i adds to the length of the video. */
  function Contribution(clips: seq<Clip>, i: nat): int
    requires Laid(clips) && i < |clips|
  {
    Duration(clips[i]) - (if i > 0 then Overlap(clips, i - 1) else 0)
  }

  /** The length of the video made of the first n clips. */
  function Total(clips: seq<Clip>, n: nat): int
    requires Laid(clips) && n <= |clips|
  {
    if n == 0 then 0 else Total(clips, n - 1) + Contribution(clips, n - 1)
  }

  method CheckTransition(clips: seq<Clip>, i: nat) returns (ok: bool)
    requires i < |clips| && TrimmedClip(clips[i])
    ensures ok <==> ValidTransition(clips, i)
  {
    var t := clips[i].transition;
    if t.duration.None? {
      return false;
    }
    match t.kind {
      case Cut => return t.duration.value == 0;
      case Crossfade =>
        if i == |clips| - 1 || t.duration.value <= 0 || !ValidInterval(clips[i + 1].trimStart, clips[i + 1].trimEnd) {
          return false;
        }
        return t.duration.value < clips[i].trimEnd.value - clips[i].trimStart.value
               && t.duration.value < clips[i + 1].trimEnd.value - clips[i + 1].trimStart.value;
      case UnknownTransition => return false;
    }
  }

  method CheckClips(clips: seq<Clip>, mode: AudioMode) returns (ok: bool)
    ensures ok <==> ValidClips(clips, mode)
  {
    hide ValidText, ValidKey, ValidTransition;
    var clipKeys: set<string> := {};
    for i := 0 to |clips|
      invariant forall k :: 0 <= k < i ==> ValidClip(clips[k], mode) && ValidTransition(clips, k)
      invariant forall j, k :: 0 <= j < k < i ==> clips[j].clipKey != clips[k].clipKey
      invariant forall key :: key in clipKeys <==> exists k :: 0 <= k < i && clips[k].clipKey == key
    {
      var clip := clips[i];
      if !ValidText(clip.clipKey, 120) || !clip.source.Valid() || !ValidInterval(clip.trimStart, clip.trimEnd) {
        return false;
      }
      if !ValidGain(clip.nativeGain) || mode.NativeAudio? != clip.nativeGain.Some? || clip.clipKey in clipKeys {
        return false;
      }
      clipKeys := clipKeys + {clip.clipKey};
      ok := CheckTransition(clips, i);
      if !ok {
        return;
      }
    }
    return true;
  }

  lemma ContributionIsPositive(clips: seq<Clip>, i: nat)
    requires Laid(clips) && i < |clips|
    ensures 0 < Contribution(clips, i) <= MAX_TIMELINE as int
  {
    assert TrimmedClip(clips[i]) && ValidTransition(clips, i);
    if i > 0 {
      assert ValidTransition(clips, i - 1);
    }
  }

  lemma {:induction false} TotalGrows(clips: seq<Clip>, m: nat, n: nat)
    requires Laid(clips) && m <= n <= |clips|
    ensures Total(clips, m) <= Total(clips, n) && (m < n ==> Total(clips, m) < Total(clips, n))
    decreases n
  {
    if m < n {
      ContributionIsPositive(clips, n - 1);
      TotalGrows(clips, m, n - 1);
    }
  }

  /** Adds up the contributions; no sum or difference leaves int64. */
  method CheckTotal(clips: seq<Clip>) returns (ok: bool)
    requires Laid(clips)
    ensures ok <==> Total(clips, |clips|) <= MAX_TIMELINE as int
  {
    var total: int64 := 0;
    for i := 0 to |clips|
      invariant total as int == Total(clips, i) && 0 <= total <= MAX_TIMELINE
    {
      assert TrimmedClip(clips[i]) && (i > 0 ==> ValidTransition(clips, i - 1));
      ContributionIsPositive(clips, i);
      var contribution := clips[i].trimEnd.value - clips[i].trimStart.value;
      if i > 0 {
        contribution := contribution - clips[i - 1].transition.duration.value;
      }
      if total > MAX_TIMELINE - contribution {
        TotalGrows(clips, i + 1, |clips|);
        return false;
      }
      total := total + contribution;
    }
    return true;
  }

  predicate ValidTrack(t: Track) {
    && ValidText(t.trackKey, 120)
    && t.source.Valid()
    && t.start.Some? && 0 <= t.start.value
    && ValidInterval(t.trimStart, t.trimEnd)
    && t.gain.Some? && ValidGain(t.gain)
    && t.start.value as int + (t.trimEnd.value as int - t.trimStart.value as int) <= MAX_TIMELINE as int
  }

  predicate ValidTracks(tracks: seq<Track>) {
    && (forall i :: 0 <= i < |tracks| ==> ValidTrack(tracks[i]))
    && forall i, j :: 0 <= i < j < |tracks| ==> tracks[i].trackKey != tracks[j].trackKey
  }

  method CheckTracks(tracks: seq<Track>) returns (ok: bool)
    ensures ok <==> ValidTracks(tracks)
  {
    hide ValidText, ValidKey;
    var trackKeys: set<string> := {};
    for i := 0 to |tracks|
      invariant forall k :: 0 <= k < i ==> ValidTrack(tracks[k])
      invariant forall j, k :: 0 <= j < k < i ==> tracks[j].trackKey != tracks[k].trackKey
      invariant forall key :: key in trackKeys <==> exists k :: 0 <= k < i && tracks[k].trackKey == key
    {
      var track := tracks[i];
      if !ValidText(track.trackKey, 120) || !track.source.Valid() || track.start.None? {
        return false;
      }
      if track.start.value < 0 || track.start.value > MAX_TIMELINE || !ValidInterval(track.trimStart, track.trimEnd) {
        return false;
      }
      if track.gain.None? || !ValidGain(track.gain) {
        return false;
      }
      var duration := track.trimEnd.value - track.trimStart.value;
      if track.start.value > MAX_TIMELINE - duration || track.trackKey in trackKeys {
        return false;
      }
      trackKeys := trackKeys + {track.trackKey};
    }
    return true;
  }

  function Inputs(clips: seq<Clip>, tracks: seq<Track>): seq<RevisionRef> {
    seq(|clips|, i requires 0 <= i < |clips| => clips[i].source) + seq(|tracks|, i requires 0 <= i < |tracks| => tracks[i].source)
  }

  predicate Accepted(p: Plan) {
    && ValidText(p.planKey, 120) && !p.audioMode.UnknownAudioMode?
    && 1 <= |p.clips| <= MAX_ENTRIES
    && p.audioTracks.Some? && |p.audioTracks.value| <= MAX_ENTRIES
    && ValidOutput(p.output, p.audioMode)
    && ValidClips(p.clips, p.audioMode)
    && Total(p.clips, |p.clips|) <= MAX_TIMELINE as int
    && ValidTracks(p.audioTracks.value)
    && (p.audioMode.IndependentAudio? <==> p.audioTracks.value != [])
    && ValidRefs(Inputs(p.clips, p.audioTracks.value))
  }

  method ValidateAssemblyPlanV2(p: Plan) returns (ok: bool)
    ensures ok <==> Accepted(p)
  {
    hide ValidText, ValidOutput, ValidTracks, ValidRefs, Total;
    if !ValidText(p.planKey, 120) || p.audioMode.UnknownAudioMode? || |p.clips| == 0 || |p.clips| > MAX_ENTRIES
       || p.audioTracks.None? || |p.audioTracks.value| > MAX_ENTRIES {
      return false;
    }
    ok := CheckOutput(p.output, p.audioMode);
    if !ok {
      return;
    }
    ok := CheckClips(p.clips, p.audioMode);
    if !ok {
      return;
    }
    hide ValidClip, ValidTransition;
    ClipsAreLaid(p.clips, p.audioMode);
    ok := CheckTotal(p.clips);
    if !ok {
      return;
    }
    ok := CheckTracks(p.audioTracks.value);
    if !ok || p.audioMode.IndependentAudio? != (|p.audioTracks.value| > 0) {
      return false;
    }
    ok := CheckRefs(Inputs(p.clips, p.audioTracks.value));
  }

  lemma ClipsAreLaid(clips: seq<Clip>, mode: AudioMode)
    requires ValidClips(clips, mode)
    ensures Laid(clips)
  {
  }

  // ---------------------------------------------------------------- the timeline

  /** Where clip i begins: its transition overlaps the end of the clip before. */
  function Start(clips: seq<Clip>, i: nat): int
    requires Laid(clips) && i < |clips|
  {
    Total(clips, i) - (if i > 0 then Overlap(clips, i - 1) else 0)
  }

  function End(clips: seq<Clip>, i: nat): int
    requires Laid(clips) && i < |clips|
  {
    Start(clips, i) + Duration(clips[i])
  }

  lemma EndIsTotal(clips: seq<Clip>, i: nat)
    requires Laid(clips) && i < |clips|
    ensures End(clips, i) == Total(clips, i + 1)
  {
  }

  lemma {:induction false} StartsIncrease(clips: seq<Clip>, i: nat, j: nat)
    requires Laid(clips) && i < j < |clips|
    ensures 0 <= Start(clips, i) < Start(clips, j)
    decreases j
  {
    hide Start, End, Laid;
    StartsAdvance(clips, j - 1);
    if i < j - 1 {
      StartsIncrease(clips, i, j - 1);
    } else {
      StartIsNatural(clips, i);
    }
  }

  lemma EndsIncrease(clips: seq<Clip>, i: nat, j: nat)
    requires Laid(clips) && i < j < |clips|
    ensures End(clips, i) < End(clips, j)
  {
    EndIsTotal(clips, i);
    EndIsTotal(clips, j);
    hide Laid, Total, End;
    TotalGrows(clips, i + 1, j + 1);
  }

  lemma EndsWithVideo(clips: seq<Clip>, j: nat)
    requires Laid(clips) && j < |clips|
    ensures End(clips, j) <= Total(clips, |clips|)
    ensures j == |clips| - 1 ==> End(clips, j) == Total(clips, |clips|)
  {
    EndIsTotal(clips, j);
    hide Laid, Total, End;
    TotalGrows(clips, j + 1, |clips|);
  }

  lemma AcceptedIsLaid(p: Plan)
    requires Accepted(p)
    ensures Laid(p.clips) && p.clips != [] && Total(p.clips, |p.clips|) <= MAX_TIMELINE as int
  {
    hide ValidText, ValidOutput, ValidTracks, ValidRefs, ValidClip, ValidTransition;
    ClipsAreLaid(p.clips, p.audioMode);
  }

  /** Every clip adds to the length. */
  ghost predicate EachAdds(clips: seq<Clip>)
    requires Laid(clips)
  {
    forall k :: 0 <= k < |clips| ==> 0 < Contribution(clips, k) && 0 <= Start(clips, k)
  }

  /** Clips start and end one after the other. */
  ghost predicate InOrder(clips: seq<Clip>)
    requires Laid(clips)
  {
    forall i, j :: 0 <= i < j < |clips| ==> Start(clips, i) < Start(clips, j) && End(clips, i) < End(clips, j)
  }

  lemma LaidAdds(clips: seq<Clip>)
    requires Laid(clips)
    ensures EachAdds(clips)
  {
    hide Laid, Start, Contribution;
    forall k | 0 <= k < |clips| ensures 0 < Contribution(clips, k) && 0 <= Start(clips, k) {
      ContributionIsPositive(clips, k);
      StartIsNatural(clips, k);
    }
  }

  lemma LaidIsInOrder(clips: seq<Clip>)
    requires Laid(clips)
    ensures InOrder(clips)
  {
    hide Laid, Start, End;
    forall i, j | 0 <= i < j < |clips| ensures Start(clips, i) < Start(clips, j) && End(clips, i) < End(clips, j) {
      StartsIncrease(clips, i, j);
      EndsIncrease(clips, i, j);
    }
  }

  /** In an accepted plan, of one clip or more, every clip adds to the length, clips start and end one
      after the other, and the last one ends with the video, within twelve hours. */
  lemma TimelineAdvances(p: Plan)
    requires Accepted(p)
    ensures Laid(p.clips) && p.clips != []
    ensures EachAdds(p.clips) && InOrder(p.clips)
    ensures End(p.clips, |p.clips| - 1) == Total(p.clips, |p.clips|) <= MAX_TIMELINE as int
  {
    hide Accepted, Laid, End, Total, EachAdds, InOrder;
    AcceptedIsLaid(p);
    LaidAdds(p.clips);
    LaidIsInOrder(p.clips);
    EndsWithVideo(p.clips, |p.clips| - 1);
  }

  lemma StartsAdvance(clips: seq<Clip>, i: nat)
    requires Laid(clips) && i + 1 < |clips|
    ensures Start(clips, i) < Start(clips, i + 1)
    ensures End(clips, i) - Start(clips, i + 1) == Overlap(clips, i)
  {
    assert TrimmedClip(clips[i]) && ValidTransition(clips, i);
    EndIsTotal(clips, i);
  }

  lemma {:induction false} StartIsNatural(clips: seq<Clip>, i: nat)
    requires Laid(clips) && i < |clips|
    ensures 0 <= Start(clips, i)
  {
    if i > 0 {
      StartIsNatural(clips, i - 1);
      StartsAdvance(clips, i - 1);
    }
  }

  /** Neighbours overlap by exactly the transition between them. */
  lemma NeighboursOverlap(p: Plan, i: nat)
    requires Accepted(p) && i + 1 < |p.clips|
    ensures Laid(p.clips) && TrimmedClip(p.clips[i]) && ValidTransition(p.clips, i)
    ensures End(p.clips, i) - Start(p.clips, i + 1) == Overlap(p.clips, i)
  {
    AcceptedIsLaid(p);
    hide Accepted, Total;
    StartsAdvance(p.clips, i);
  }

  /** The two transitions of every inner clip fit into it side by side. */
  predicate TransitionsFit(clips: seq<Clip>)
    requires Laid(clips)
  {
    forall i :: 0 <= i < |clips| - 2 ==> FitsTransitions(clips, i)
  }

  predicate FitsTransitions(clips: seq<Clip>, i: nat)
    requires Laid(clips) && i + 2 < |clips|
  {
    Overlap(clips, i) + Overlap(clips, i + 1) <= Duration(clips[i + 1])
  }

  /** Clips that are no neighbours never play at the same time. */
  ghost predicate OnlyNeighboursMeet(clips: seq<Clip>)
    requires Laid(clips)
  {
    forall i, j :: 0 <= i && i + 1 < j < |clips| ==> Apart(clips, i, j)
  }

  predicate Apart(clips: seq<Clip>, i: nat, j: nat)
    requires Laid(clips) && i < |clips| && j < |clips|
  {
    End(clips, i) <= Start(clips, j)
  }

  lemma InnerClip(clips: seq<Clip>, i: nat)
    requires Laid(clips) && i + 2 < |clips|
    ensures Apart(clips, i, i + 2) <==> FitsTransitions(clips, i)
  {
    StartsAdvance(clips, i);
    StartsAdvance(clips, i + 1);
    hide Start;
  }

  lemma OuterClips(clips: seq<Clip>, i: nat, j: nat)
    requires Laid(clips) && TransitionsFit(clips) && i + 1 < j < |clips|
    ensures Apart(clips, i, j)
  {
    assert FitsTransitions(clips, i);
    hide Laid, Start, End, FitsTransitions, TransitionsFit;
    InnerClip(clips, i);
    if i + 2 < j {
      StartsIncrease(clips, i + 2, j);
    }
  }

  /** Clips that are no neighbours never play at the same time exactly when the two transitions of
      every inner clip fit into it side by side. */
  lemma OnlyNeighboursOverlap(p: Plan)
    requires Accepted(p)
    ensures Laid(p.clips)
    ensures OnlyNeighboursMeet(p.clips) <==> TransitionsFit(p.clips)
  {
    AcceptedIsLaid(p);
    var clips := p.clips;
    hide Accepted, Laid, FitsTransitions, Apart;
    if TransitionsFit(clips) {
      hide TransitionsFit;
      forall i, j | 0 <= i && i + 1 < j < |clips| ensures Apart(clips, i, j) {
        OuterClips(clips, i, j);
      }
    } else {
      var i :| 0 <= i < |clips| - 2 && !FitsTransitions(clips, i);
      InnerClip(clips, i);
      assert !Apart(clips, i, i + 2);
    }
  }

  /** Three seconds of three clips, faded into each other for two seconds each time. */
  function Crowded(): Plan {
    Plan("p", NoAudio,
         [ThreeSeconds("a", Transition(Crossfade, Some(2000))), ThreeSeconds("b", Transition(Crossfade, Some(2000))),
          ThreeSeconds("c", Transition(Cut, Some(0)))],
         Some([]), Output("o", "mp4", "h264", "none", Some(16), Some(16), Some(25)))
  }

  function ThreeSeconds(key: string, transition: Transition): Clip {
    Clip(key, RevisionRef(key, "r"), Some(0), Some(3000), None, transition)
  }

  lemma CrowdedIsLaid()
    ensures var clips := Crowded().clips;
            Laid(clips) && Total(clips, 3) == 5000 && Start(clips, 2) < End(clips, 0)
  {
    var clips := Crowded().clips;
    assert forall i :: 0 <= i < 3 ==> TrimmedClip(clips[i]) && Duration(clips[i]) == 3000;
    assert ValidTransition(clips, 0) && ValidTransition(clips, 1) && ValidTransition(clips, 2);
    assert Laid(clips);
    assert Total(clips, 1) == 3000 && Total(clips, 2) == 4000 && Total(clips, 3) == 5000;
  }

  lemma CrowdedIsValid()
    ensures var p := Crowded();
            ValidText(p.planKey, 120) && ValidOutput(p.output, p.audioMode) && ValidClips(p.clips, p.audioMode) && ValidRefs(Inputs(p.clips, []))
  {
    CrowdedIsLaid();
    ShortTexts();
    hide ValidText, ValidKey, ValidTransition, Total, Start, End;
  }

  /** The checks let a plan pass in which the first clip still plays when the third one begins. */
  lemma ThreeClipsMayOverlap()
    ensures Accepted(Crowded()) && Laid(Crowded().clips)
    ensures Start(Crowded().clips, 2) < End(Crowded().clips, 0)
  {
    CrowdedIsLaid();
    CrowdedIsValid();
    hide ValidText, ValidOutput, ValidClips, ValidRefs, Inputs, Laid, Total, Start, End;
  }

  lemma ShortTexts()
    ensures forall t :: t in {"p", "a", "b", "c", "o", "r"} ==> ValidText(t, 120) && ValidKey(t)
  {
  }
}
