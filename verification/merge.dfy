/**
  The structural half of clip merge/export (qtractorTracks::mergeClips,
  mergeExportClips and the extent and replacement steps shared by
  mergeExportAudioClips and mergeExportMidiClips).

  The selection extent `[selectStart, selectEnd)` is a min/max fold over the
  selected clips' selection ranges, seeded with the session length and 0.
  Each selected clip then receives exactly one operation: a resize to its
  left remnant when it starts before the extent, otherwise a resize to its
  right remnant when it ends after the extent, otherwise removal. One new
  clip over the extent, reading the freshly written file, closes the
  command.
 */
module Merge {
  import opened Clips

  /** Smallest selection start of the clips, seeded with `seed`. */
  function ExtentStart(clips: seq<Clip>, seed: nat): (r: nat)
    ensures r <= seed
    ensures forall i :: 0 <= i < |clips| ==> r <= clips[i].selectStart
    ensures r == seed || exists i :: 0 <= i < |clips| && clips[i].selectStart == r
  {
    if |clips| == 0 then seed
    else
      var prev := ExtentStart(clips[..|clips| - 1], seed);
      var c := clips[|clips| - 1];
      if prev > c.selectStart then c.selectStart else prev
  }

  /** Largest selection end of the clips, seeded with 0. */
  function ExtentEnd(clips: seq<Clip>): (r: nat)
    ensures forall i :: 0 <= i < |clips| ==> clips[i].selectEnd <= r
    ensures r == 0 || exists i :: 0 <= i < |clips| && clips[i].selectEnd == r
  {
    if |clips| == 0 then 0
    else
      var prev := ExtentEnd(clips[..|clips| - 1]);
      var c := clips[|clips| - 1];
      if prev < c.selectEnd then c.selectEnd else prev
  }

  /** The extent loop, as the merge/export code runs it over the selection. */
  method SelectionExtent(clips: seq<Clip>, sessionLength: nat) returns (selectStart: nat, selectEnd: nat)
    ensures selectStart == ExtentStart(clips, sessionLength)
    ensures selectEnd == ExtentEnd(clips)
  {
    selectStart, selectEnd := sessionLength, 0;
    var i := 0;
    while i < |clips|
      invariant 0 <= i <= |clips|
      invariant selectStart == ExtentStart(clips[..i], sessionLength)
      invariant selectEnd == ExtentEnd(clips[..i])
    {
      ExtentStep(clips, i, sessionLength);
      if selectStart > clips[i].selectStart {
        selectStart := clips[i].selectStart;
      }
      if selectEnd < clips[i].selectEnd {
        selectEnd := clips[i].selectEnd;
      }
      i := i + 1;
    }
    assert clips[..i] == clips;
  }

  /** One more clip of the prefix updates both folds the way the loop does. */
  lemma ExtentStep(clips: seq<Clip>, i: nat, seed: nat)
    requires i < |clips|
    ensures var prev := ExtentStart(clips[..i], seed);
      ExtentStart(clips[..i + 1], seed) == if prev > clips[i].selectStart then clips[i].selectStart else prev
    ensures var prev := ExtentEnd(clips[..i]);
      ExtentEnd(clips[..i + 1]) == if prev < clips[i].selectEnd then clips[i].selectEnd else prev
  {
    assert clips[..i + 1][..i] == clips[..i];
    assert clips[..i + 1][i] == clips[i];
  }

  /** Clip `c`'s selection lies within the clip and within `[a, b)`. */
  predicate InExtent(c: Clip, a: nat, b: nat) {
    c.SelectionWithin() && a <= c.selectStart && c.selectEnd <= b
  }

  predicate AllWellSelected(clips: seq<Clip>) {
    forall i :: 0 <= i < |clips| ==> clips[i].SelectionWithin()
  }

  /**
    For a non-empty selection of well-formed clips the extent is ordered and
    covers every selected range.
   */
  lemma ExtentCoversSelection(clips: seq<Clip>, sessionLength: nat)
    requires |clips| > 0 && AllWellSelected(clips)
    ensures ExtentStart(clips, sessionLength) <= ExtentEnd(clips)
    ensures forall i :: 0 <= i < |clips| ==>
      InExtent(clips[i], ExtentStart(clips, sessionLength), ExtentEnd(clips))
  {
    assert clips[0].selectStart <= clips[0].selectEnd;
  }

  /**
    The one operation the merge records for clip `c` against the extent
    `[a, b)`. The remnant it leaves lies inside the clip, outside the
    extent, and plays the same source frames as before. Removal happens
    exactly when the clip lies inside the extent.
   */
  function TrimOp(c: Clip, a: nat, b: nat): (r: ClipOp)
    requires InExtent(c, a, b)
    ensures Target(r) == c && (r.ResizeClip? || r.RemoveClip?)
    ensures r.RemoveClip? <==> a <= c.start && c.End() <= b
    ensures Outcome(r).Some? ==>
      var rem := Outcome(r).value;
      && rem.length > 0
      && (forall f: nat :: rem.Covers(f) ==> c.Covers(f) && !(a <= f < b))
      && (forall f: nat :: rem.Covers(f) ==> rem.SourceFrame(f) == c.SourceFrame(f))
    ensures c.start < a ==> Outcome(r).value.start == c.start && Outcome(r).value.End() == a
    ensures a <= c.start && b < c.End() ==> Outcome(r).value.start == b && Outcome(r).value.End() == c.End()
  {
    if a > c.start then
      ResizeClip(c, c.start, c.offset, a - c.start)
    else if b < c.End() then
      ResizeClip(c, b, c.offset + (b - c.start), c.End() - b)
    else
      RemoveClip(c)
  }

  /**
    Unless a clip sticks out of the extent on both sides, the remnant and the
    new merged clip together cover every frame the clip covered.
   */
  lemma TrimKeepsFootprint(c: Clip, a: nat, b: nat, f: nat)
    requires InExtent(c, a, b)
    requires !(c.start < a && b < c.End())
    requires c.Covers(f)
    ensures (a <= f < b) || (Outcome(TrimOp(c, a, b)).Some? && Outcome(TrimOp(c, a, b)).value.Covers(f))
  {
  }

  /**
    A clip that sticks out on both sides keeps only its left remnant: the
    frames after the extent are covered neither by the remnant nor by the
    merged clip.
   */
  lemma TrimDropsRightOfStraddlingClip(c: Clip, a: nat, b: nat, f: nat)
    requires InExtent(c, a, b)
    requires c.start < a && b < c.End()
    requires b <= f < c.End()
    ensures c.Covers(f) && !(a <= f < b)
    ensures !Outcome(TrimOp(c, a, b)).value.Covers(f)
  {
  }

  /** The merged clip that replaces the selection footprint. */
  function MergedClip(a: nat, b: nat, track: TrackRef, data: ClipData): (r: Clip)
    requires a <= b
    ensures r.start == a && r.End() == b && r.offset == 0
  {
    Clip(a, 0, b - a, 1.0, 0, 0, 0, 0, Some(track), data)
  }

  /** The trim operations of the selection, in selection order. */
  function TrimOps(clips: seq<Clip>, a: nat, b: nat): (r: ClipCommand)
    requires forall i :: 0 <= i < |clips| ==> InExtent(clips[i], a, b)
    ensures |r| == |clips|
    ensures forall i :: 0 <= i < |clips| ==> r[i] == TrimOp(clips[i], a, b)
  {
    if |clips| == 0 then [] else [TrimOp(clips[0], a, b)] + TrimOps(clips[1..], a, b)
  }

  /**
    The replacement command: exactly one trim or remove operation per
    selected clip, then one addition of the merged clip over `[a, b)`.
   */
  function MergeCommand(clips: seq<Clip>, a: nat, b: nat, merged: Clip): (r: ClipCommand)
    requires forall i :: 0 <= i < |clips| ==> InExtent(clips[i], a, b)
    requires merged.start == a && merged.End() == b
    ensures |r| == |clips| + 1
    ensures forall i :: 0 <= i < |clips| ==> r[i] == TrimOp(clips[i], a, b)
    ensures forall i :: 0 <= i < |clips| ==>
      Target(r[i]) == clips[i] && (r[i].ResizeClip? || r[i].RemoveClip?)
    ensures r[|clips|] == AddClip(merged)
    ensures forall i :: 0 <= i < |clips| ==> !r[i].AddClip?
  {
    TrimOps(clips, a, b) + [AddClip(merged)]
  }

  /**
    Environment outcomes the merge depends on but this model does not
    compute: whether the user picked a file name and the output file could
    be created and its header written, and the name chosen.
   */
  datatype ExportEnv = ExportEnv(fileReady: bool, filename: string)

  /**
    The replacement command for a non-empty selection on a typed track: the
    trim operations against the selection extent, then the merged clip.
   */
  function MergeReplacement(selection: seq<Clip>, track: TrackRef, sessionLength: nat, filename: string): (r: ClipCommand)
    requires |selection| > 0 && AllWellSelected(selection)
    ensures var a := ExtentStart(selection, sessionLength);
      var b := ExtentEnd(selection);
      && a <= b
      && |r| == |selection| + 1
      && (forall i :: 0 <= i < |selection| ==> r[i] == TrimOp(selection[i], a, b))
      && r[|selection|].AddClip?
      && r[|selection|].clip.start == a && r[|selection|].clip.End() == b
  {
    var a := ExtentStart(selection, sessionLength);
    var b := ExtentEnd(selection);
    ExtentCoversSelection(selection, sessionLength);
    // Only the reference to the merged file lives here; the events the MIDI
    // merge writes into it are modelled by MergeMidi.MidiMergeSequence.
    var data := if track.kind == Audio then AudioData(filename) else MidiData(filename, [], 0, 1, 0);
    MergeCommand(selection, a, b, MergedClip(a, b, track, data))
  }

  /** The track types merge/export dispatches on, with their own checks. */
  predicate MergeableTrack(track: TrackRef) {
    (track.kind == Audio && track.hasOutputBus) || track.kind == Midi
  }

  /**
    Merge the selected clips (qtractorTracks::mergeClips through
    mergeExportClips): `None` when the selection is empty, not on a single
    track, on an untyped track, on an audio track without output bus, or
    when the output file could not be prepared; otherwise the replacement
    command, which is never empty.
   */
  function MergeClips(selection: seq<Clip>, singleTrack: Option<TrackRef>, sessionLength: nat, env: ExportEnv): (r: Option<ClipCommand>)
    requires AllWellSelected(selection)
    ensures r.Some? <==> |selection| > 0 && singleTrack.Some? && MergeableTrack(singleTrack.value) && env.fileReady
    ensures r.Some? ==> r.value == MergeReplacement(selection, singleTrack.value, sessionLength, env.filename)
  {
    if |selection| < 1 || singleTrack.None? then None
    else if !MergeableTrack(singleTrack.value) || !env.fileReady then None
    else Some(MergeReplacement(selection, singleTrack.value, sessionLength, env.filename))
  }
}
