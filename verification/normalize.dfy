/**
  Clip normalization (qtractorTracks::normalizeClip, normalizeClipCommand
  and the MIDI scan callback midiClipNormalize).

  Each clip in the batch is evaluated on its own. A MIDI clip's gain is
  raised so that its loudest note-on reaches full scale (127), provided the
  peak is neither tiny nor already full; an audio clip's gain is divided by
  its peak sample under a similar guard. Every clip that passes the track
  checks contributes a gain operation, changed or not; the batch command is
  dropped when no clip contributed.
 */
module Normalize {
  import opened Clips
  import Batch

  /** Largest velocity over the note-on events, 0 when there are none. */
  function PeakVelocity(events: seq<MidiEvent>): (peak: Byte)
    ensures forall i :: 0 <= i < |events| && IsNoteOn(events[i]) ==> events[i].velocity <= peak
    ensures peak == 0 || exists i :: 0 <= i < |events| && IsNoteOn(events[i]) && events[i].velocity == peak
  {
    if |events| == 0 then 0
    else
      var prev := PeakVelocity(events[..|events| - 1]);
      var e := events[|events| - 1];
      if IsNoteOn(e) && prev < e.velocity then e.velocity else prev
  }

  /** The scan loop of the MIDI normalize callback. */
  method ScanPeakVelocity(events: seq<MidiEvent>) returns (max: Byte)
    ensures max == PeakVelocity(events)
  {
    max := 0;
    var i := 0;
    while i < |events|
      invariant 0 <= i <= |events|
      invariant max == PeakVelocity(events[..i])
    {
      assert events[..i + 1][..i] == events[..i];
      if IsNoteOn(events[i]) && max < events[i].velocity {
        max := events[i].velocity;
      }
      i := i + 1;
    }
    assert events[..i] == events;
  }

  /** Guard for the MIDI gain boost: 0x0c < peak < 0x7f. */
  predicate MidiPeakAdjustable(peak: nat) {
    0x0c < peak < 0x7f
  }

  /** Guard for the audio gain division: 0.01 < peak < 1.1. */
  predicate AudioPeakAdjustable(peak: real) {
    0.01 < peak < 1.1
  }

  /** New MIDI clip gain: the peak velocity, so scaled, reaches 127. */
  function MidiGain(gain: real, peak: Byte): (r: real)
    ensures MidiPeakAdjustable(peak) ==> r * (peak as real) == gain * 127.0
    ensures !MidiPeakAdjustable(peak) ==> r == gain
  {
    if MidiPeakAdjustable(peak) then gain * (127.0 / (peak as real)) else gain
  }

  /** New audio clip gain: the peak sample, so scaled, reaches 1.0. */
  function AudioGain(gain: real, peak: real): (r: real)
    ensures AudioPeakAdjustable(peak) ==> r * peak == gain
    ensures !AudioPeakAdjustable(peak) ==> r == gain
  {
    if AudioPeakAdjustable(peak) then gain / peak else gain
  }

  /** Whether `c` passes the checks of the per-clip normalize step. */
  predicate Normalizable(c: Clip) {
    && c.track.Some?
    && (c.track.value.kind == Audio ==> c.track.value.hasOutputBus && c.data.AudioData?)
    && (c.track.value.kind == Midi ==> c.data.MidiData?)
  }

  /**
    The per-clip normalize step: the gain operation it records, if any.
    `audioPeak` stands for the sample scan: the peak absolute sample value
    over the clip's (selected) range.
   */
  function NormalizeClipCommand(c: Clip, audioPeak: Clip -> real): (r: Option<ClipOp>)
    ensures r.Some? <==> Normalizable(c)
    ensures r.Some? ==> r.value.GainClip? && r.value.target == c
    ensures r.Some? && c.track.value.kind == Midi ==>
      var peak := PeakVelocity(c.data.events);
      && (MidiPeakAdjustable(peak) ==> r.value.gain * (peak as real) == c.gain * 127.0)
      && (!MidiPeakAdjustable(peak) ==> r.value.gain == c.gain)
    ensures r.Some? && c.track.value.kind == Audio ==>
      && (AudioPeakAdjustable(audioPeak(c)) ==> r.value.gain * audioPeak(c) == c.gain)
      && (!AudioPeakAdjustable(audioPeak(c)) ==> r.value.gain == c.gain)
    ensures r.Some? && c.track.value.kind == Untyped ==> r.value.gain == c.gain
  {
    match c.track
    case None => None
    case Some(t) =>
      match t.kind
      case Audio =>
        if !t.hasOutputBus || !c.data.AudioData? then None
        else Some(GainClip(c, AudioGain(c.gain, audioPeak(c))))
      case Midi =>
        if !c.data.MidiData? then None
        else Some(GainClip(c, MidiGain(c.gain, PeakVelocity(c.data.events))))
      case Untyped =>
        Some(GainClip(c, c.gain))
  }

  /** How many of the clips pass the checks of the per-clip step. */
  function CountNormalizable(clips: seq<Clip>): nat {
    if |clips| == 0 then 0
    else (if Normalizable(clips[0]) then 1 else 0) + CountNormalizable(clips[1..])
  }

  /** `op` is the operation the per-clip step records for some clip of `clips`. */
  ghost predicate StepOfSome(clips: seq<Clip>, audioPeak: Clip -> real, op: ClipOp) {
    exists i :: 0 <= i < |clips| && NormalizeClipCommand(clips[i], audioPeak) == Some(op)
  }

  /** The per-clip step run over the batch, one result per clip. */
  function GainSteps(clips: seq<Clip>, audioPeak: Clip -> real): seq<Option<ClipOp>> {
    seq(|clips|, i requires 0 <= i < |clips| => NormalizeClipCommand(clips[i], audioPeak))
  }

  /** As many steps record an operation as there are clips passing the checks. */
  lemma {:induction false} GainStepsCount(clips: seq<Clip>, audioPeak: Clip -> real)
    ensures Batch.CountSome(GainSteps(clips, audioPeak)) == CountNormalizable(clips)
  {
    if |clips| > 0 {
      GainStepsCount(clips[1..], audioPeak);
      assert GainSteps(clips, audioPeak)[1..] == GainSteps(clips[1..], audioPeak);
    }
  }

  /**
    The gain operations of a batch, in selection order: every clip that
    passes the checks contributes its own operation, and nothing else is
    recorded.
   */
  function GainOps(clips: seq<Clip>, audioPeak: Clip -> real): (ops: ClipCommand)
    ensures |ops| == CountNormalizable(clips) <= |clips|
    ensures |ops| == 0 <==> forall i :: 0 <= i < |clips| ==> !Normalizable(clips[i])
    ensures forall i :: 0 <= i < |clips| && Normalizable(clips[i]) ==>
      NormalizeClipCommand(clips[i], audioPeak).value in ops
    ensures forall j :: 0 <= j < |ops| ==> StepOfSome(clips, audioPeak, ops[j])
  {
    var steps := GainSteps(clips, audioPeak);
    GainStepsCount(clips, audioPeak);
    Batch.CollectHasAll(steps);
    assert forall i :: 0 <= i < |clips| ==> steps[i] == NormalizeClipCommand(clips[i], audioPeak);
    var ops := Batch.Collect(steps);
    assert forall j :: 0 <= j < |ops| ==> Some(ops[j]) in steps ==> StepOfSome(clips, audioPeak, ops[j]);
    ops
  }

  /**
    The order of the batch: each clip that passes the checks has its
    operation at the position given by the number of such clips before it.
   */
  lemma GainOpsInOrder(clips: seq<Clip>, audioPeak: Clip -> real, i: nat)
    requires i < |clips| && Normalizable(clips[i])
    ensures var ops := GainOps(clips, audioPeak);
      && CountNormalizable(clips[..i]) < |ops|
      && Some(ops[CountNormalizable(clips[..i])]) == NormalizeClipCommand(clips[i], audioPeak)
  {
    var steps := GainSteps(clips, audioPeak);
    Batch.CollectComplete(steps, i);
    assert steps[..i] == GainSteps(clips[..i], audioPeak);
    GainStepsCount(clips[..i], audioPeak);
  }

  /**
    The batch command: over the clip selection when there is one, else over
    the current clip (if any). `None` when no gain operation was recorded, in
    which case nothing is executed; otherwise the gain operations of exactly
    the batch's qualifying clips.
   */
  function NormalizeClip(selection: seq<Clip>, current: Option<Clip>, audioPeak: Clip -> real): (r: Option<ClipCommand>)
    ensures |selection| > 0 ==>
      (r.Some? <==> exists i :: 0 <= i < |selection| && Normalizable(selection[i]))
    ensures |selection| == 0 ==>
      (r.Some? <==> current.Some? && Normalizable(current.value))
    ensures r.Some? ==> |r.value| > 0 && forall j :: 0 <= j < |r.value| ==> r.value[j].GainClip?
    ensures r.Some? ==> r.value == GainOps(BatchClips(selection, current), audioPeak)
  {
    var ops := GainOps(BatchClips(selection, current), audioPeak);
    if |ops| == 0 then None else Some(ops)
  }
}
