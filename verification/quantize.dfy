/**
  MIDI clip quantization (qtractorTracks::quantizeClip and
  quantizeClipCommand).

  The grid step is `q = ticksPerBeat / snapPerBeat`. Every event whose time
  lies in the clip's (selected) tick range is snapped to the nearest grid
  line, ties rounding up; a note-on's duration is rounded up to a whole
  number of grid steps; every other event keeps its duration. Events
  outside the range are not touched. The edits are recorded as one
  resize operation per event in range.
 */
module Quantize {
  import opened Clips
  import Batch
  import opened Time

  /** Nearest multiple of `q` to `t`, ties rounding up. */
  function QuantizeTime(t: nat, q: nat): (r: nat)
    requires q > 0
    ensures r % q == 0
    ensures r <= t + q / 2 < r + q
  {
    FloorMultiple(t + q / 2, q);
    q * ((t + q / 2) / q)
  }

  /** Least multiple of `q` that is at least `d`. */
  function QuantizeDuration(d: nat, q: nat): (r: nat)
    requires q > 0
    ensures r % q == 0
    ensures d <= r < d + q
  {
    FloorMultiple(d + q - 1, q);
    q * ((d + q - 1) / q)
  }

  /** `q * (x / q)` is the greatest multiple of `q` not above `x`. */
  lemma FloorMultiple(x: nat, q: nat)
    requires q > 0
    ensures q * (x / q) <= x < q * (x / q) + q
    ensures (q * (x / q)) % q == 0
  {
    var k := x / q;
    Time.DivFloor(x, q);
    MultipleMod(k, q);
  }

  lemma MultipleMod(k: nat, q: nat)
    requires q > 0
    ensures (q * k) % q == 0
  {
    Time.MulDivCancel(k, q);
    assert q * k == k * q;
  }

  /** A multiple of `q` is its quotient times `q`. */
  lemma MultipleIsProduct(x: nat, q: nat)
    requires q > 0 && x % q == 0
    ensures x == (x / q) * q
  {
  }

  /** No grid line is closer to `t` than its quantized time. */
  lemma {:induction false} QuantizeTimeNearest(t: nat, q: nat, m: nat)
    requires q > 0 && m % q == 0
    ensures Dist(QuantizeTime(t, q), t) <= Dist(m, t)
  {
    var r := QuantizeTime(t, q);
    var k, j := r / q, m / q;
    MultipleIsProduct(r, q);
    MultipleIsProduct(m, q);
    if m < r {
      // m is at least one grid step below r
      Time.LessCancel(j, k, q);
      Time.MulMonotone(j + 1, k, q);
      assert (j + 1) * q == m + q;
    } else if r < m {
      Time.LessCancel(k, j, q);
      Time.MulMonotone(k + 1, j, q);
      assert (k + 1) * q == r + q;
    }
  }

  /** Every multiple of `q` that covers `d` is at least the quantized duration. */
  lemma {:induction false} QuantizeDurationLeast(d: nat, q: nat, m: nat)
    requires q > 0 && m % q == 0 && d <= m
    ensures QuantizeDuration(d, q) <= m
  {
    var r := QuantizeDuration(d, q);
    var k, j := r / q, m / q;
    MultipleIsProduct(r, q);
    MultipleIsProduct(m, q);
    assert (j + 1) * q == m + q;
    assert k * q < (j + 1) * q;
    Time.LessCancel(k, j + 1, q);
    Time.MulMonotone(k, j, q);
  }

  function Dist(a: nat, b: nat): nat {
    if a <= b then b - a else a - b
  }

  /** One event resize operation: event `index` gets `time` and `duration`. */
  datatype EventEdit = ResizeEventTime(index: nat, time: nat, duration: nat)

  /** The edit command attached to one MIDI clip. */
  datatype MidiEditCommand = MidiEditCommand(clip: Clip, edits: seq<EventEdit>)

  predicate InRange(e: MidiEvent, timeStart: nat, timeEnd: nat) {
    timeStart <= e.time < timeEnd
  }

  /** The effect quantization has on one event. */
  function QuantizeEvent(e: MidiEvent, timeStart: nat, timeEnd: nat, q: nat): (r: MidiEvent)
    requires q > 0
    ensures r.kind == e.kind && r.note == e.note && r.velocity == e.velocity
    ensures !InRange(e, timeStart, timeEnd) ==> r == e
    ensures InRange(e, timeStart, timeEnd) ==>
      && r.time % q == 0 && Dist(r.time, e.time) <= q / 2
      && (IsNoteOn(e) ==> r.duration % q == 0 && e.duration <= r.duration < e.duration + q)
      && (!IsNoteOn(e) ==> r.duration == e.duration)
  {
    if InRange(e, timeStart, timeEnd) then
      var d := if IsNoteOn(e) then QuantizeDuration(e.duration, q) else e.duration;
      e.(time := QuantizeTime(e.time, q), duration := d)
    else e
  }

  /** The sequence the quantize command leaves behind. */
  function QuantizeEvents(events: seq<MidiEvent>, timeStart: nat, timeEnd: nat, q: nat): (r: seq<MidiEvent>)
    requires q > 0
    ensures |r| == |events|
    ensures forall i :: 0 <= i < |events| ==> r[i] == QuantizeEvent(events[i], timeStart, timeEnd, q)
  {
    seq(|events|, i requires 0 <= i < |events| => QuantizeEvent(events[i], timeStart, timeEnd, q))
  }

  /** The resize operations recorded for events `i..`, in sequence order. */
  function EditsFrom(events: seq<MidiEvent>, i: nat, timeStart: nat, timeEnd: nat, q: nat): (r: seq<EventEdit>)
    requires q > 0
    ensures forall k :: 0 <= k < |r| ==> i <= r[k].index < |events|
    decreases |events| - i
  {
    if i >= |events| then []
    else
      var e := events[i];
      var here := if InRange(e, timeStart, timeEnd)
        then
          var qe := QuantizeEvent(e, timeStart, timeEnd, q);
          [ResizeEventTime(i, qe.time, qe.duration)]
        else [];
      here + EditsFrom(events, i + 1, timeStart, timeEnd, q)
  }

  function ApplyEdit(events: seq<MidiEvent>, edit: EventEdit): seq<MidiEvent> {
    if edit.index < |events| then
      events[edit.index := events[edit.index].(time := edit.time, duration := edit.duration)]
    else events
  }

  /** Executes the edits in order. */
  function ApplyEdits(events: seq<MidiEvent>, edits: seq<EventEdit>): seq<MidiEvent>
    decreases |edits|
  {
    if |edits| == 0 then events else ApplyEdits(ApplyEdit(events, edits[0]), edits[1..])
  }

  function CountInRange(events: seq<MidiEvent>, i: nat, timeStart: nat, timeEnd: nat): nat
    decreases |events| - i
  {
    if i >= |events| then 0
    else (if InRange(events[i], timeStart, timeEnd) then 1 else 0) + CountInRange(events, i + 1, timeStart, timeEnd)
  }

  /**
    Executing the recorded edits for events `i..` on a sequence that agrees
    with the original from `i` on quantizes exactly those events and keeps
    the ones before `i`.
   */
  lemma {:induction false} ApplyEditsFrom(events: seq<MidiEvent>, cur: seq<MidiEvent>, i: nat, timeStart: nat, timeEnd: nat, q: nat)
    requires q > 0 && |cur| == |events| && i <= |events|
    requires forall k :: i <= k < |events| ==> cur[k] == events[k]
    ensures var r := ApplyEdits(cur, EditsFrom(events, i, timeStart, timeEnd, q));
      && |r| == |events|
      && (forall k :: 0 <= k < i ==> r[k] == cur[k])
      && (forall k :: i <= k < |events| ==> r[k] == QuantizeEvent(events[k], timeStart, timeEnd, q))
    decreases |events| - i
  {
    if i < |events| {
      var e := events[i];
      var rest := EditsFrom(events, i + 1, timeStart, timeEnd, q);
      var qe := QuantizeEvent(e, timeStart, timeEnd, q);
      // the sequence the remaining edits start from
      var next := if InRange(e, timeStart, timeEnd) then cur[i := qe] else cur;
      if InRange(e, timeStart, timeEnd) {
        var edit := ResizeEventTime(i, qe.time, qe.duration);
        assert EditsFrom(events, i, timeStart, timeEnd, q) == [edit] + rest;
        assert ApplyEdit(cur, edit) == next;
        ApplyEditsCons(cur, edit, rest);
      } else {
        assert EditsFrom(events, i, timeStart, timeEnd, q) == rest;
        assert qe == e;
      }
      assert |next| == |events| && next[i] == qe;
      assert forall k :: i + 1 <= k < |events| ==> next[k] == events[k];
      ApplyEditsFrom(events, next, i + 1, timeStart, timeEnd, q);
      var r := ApplyEdits(next, rest);
      assert ApplyEdits(cur, EditsFrom(events, i, timeStart, timeEnd, q)) == r;
      assert r[i] == qe;
      assert forall k :: 0 <= k < i ==> r[k] == next[k] == cur[k];
    }
  }

  /** One edit is recorded per event in range. */
  lemma {:induction false} EditsCount(events: seq<MidiEvent>, i: nat, timeStart: nat, timeEnd: nat, q: nat)
    requires q > 0
    ensures |EditsFrom(events, i, timeStart, timeEnd, q)| == CountInRange(events, i, timeStart, timeEnd)
    decreases |events| - i
  {
    if i < |events| {
      EditsCount(events, i + 1, timeStart, timeEnd, q);
    }
  }

  lemma ApplyEditsCons(cur: seq<MidiEvent>, edit: EventEdit, rest: seq<EventEdit>)
    ensures ApplyEdits(cur, [edit] + rest) == ApplyEdits(ApplyEdit(cur, edit), rest)
  {
    assert ([edit] + rest)[0] == edit;
    assert ([edit] + rest)[1..] == rest;
  }

  /** The recorded edits, once executed, produce the quantized sequence. */
  lemma ApplyQuantizeEdits(events: seq<MidiEvent>, timeStart: nat, timeEnd: nat, q: nat)
    requires q > 0
    ensures ApplyEdits(events, EditsFrom(events, 0, timeStart, timeEnd, q)) == QuantizeEvents(events, timeStart, timeEnd, q)
    ensures |EditsFrom(events, 0, timeStart, timeEnd, q)| == CountInRange(events, 0, timeStart, timeEnd)
  {
    ApplyEditsFrom(events, events, 0, timeStart, timeEnd, q);
    EditsCount(events, 0, timeStart, timeEnd, q);
  }

  /** The clip's (selected) frame window, relative to the clip start. */
  function SelectedWindow(c: Clip): (r: (nat, nat))
    requires c.IsSelected() ==> c.SelectionWithin()
    ensures c.IsSelected() ==> c.start + r.0 == c.selectStart && r.0 + r.1 == c.selectEnd - c.start
    ensures !c.IsSelected() ==> r == (0, c.length)
  {
    if c.IsSelected() then (c.selectStart - c.start, c.selectEnd - c.selectStart) else (0, c.length)
  }

  /**
    The tick range `[timeStart, timeEnd)` of events to quantize: the selected
    window converted to ticks relative to the clip, less the sequence's own
    tick offset, with the start clamped at 0 instead of wrapping below it.
   */
  function QuantizeRange(c: Clip, ts: TimeScale, timeOffset: nat): (r: (nat, nat))
    requires ts.Valid()
    requires c.IsSelected() ==> c.SelectionWithin()
    ensures r.0 <= r.1
    ensures
      var (off, len) := SelectedWindow(c);
      var t0 := ts.TickFromFrame(c.start);
      var t1 := ts.TickFromFrame(c.start + c.offset + off);
      var t2 := ts.TickFromFrame(c.start + c.offset + off + len);
      && t0 <= t1 <= t2
      && (t1 - t0 > timeOffset ==> r.0 == t1 - t0 - timeOffset)
      && (t1 - t0 <= timeOffset ==> r.0 == 0)
      && r.1 - r.0 == t2 - t1
  {
    var (off, len) := SelectedWindow(c);
    var f1 := c.start + c.offset + off;
    Time.TickFromFrameMonotone(ts, c.start, f1);
    Time.TickFromFrameMonotone(ts, f1, f1 + len);
    var t0 := ts.TickFromFrame(c.start);
    var t1 := ts.TickFromFrame(f1);
    var start := t1 - t0;
    var start' := if start > timeOffset then start - timeOffset else 0;
    (start', start' + ts.TickFromFrame(f1 + len) - t1)
  }

  /**
    The per-clip quantize step: the edit command it adds, if any. Fails when
    the snap setting is below 1, the clip is on no track or on a non-MIDI
    track, or holds no MIDI sequence.
   */
  function QuantizeClipCommand(c: Clip, snapPerBeat: nat, ts: TimeScale): (r: Option<MidiEditCommand>)
    requires ts.Valid() && snapPerBeat <= ts.ticksPerBeat
    requires c.IsSelected() ==> c.SelectionWithin()
    ensures r.Some? <==> QuantizeApplies(c, snapPerBeat)
    ensures r.Some? ==>
      var q := ts.ticksPerBeat / snapPerBeat;
      var events := c.data.events;
      var (timeStart, timeEnd) := QuantizeRange(c, ts, c.data.timeOffset);
      && q > 0
      && r.value.clip == c
      && |r.value.edits| == CountInRange(events, 0, timeStart, timeEnd)
      && ApplyEdits(events, r.value.edits) == QuantizeEvents(events, timeStart, timeEnd, q)
  {
    if snapPerBeat < 1 then None
    else if c.track.None? || c.track.value.kind != Midi then None
    else if !c.data.MidiData? then None
    else
      var q := ts.ticksPerBeat / snapPerBeat;
      var events := c.data.events;
      var (timeStart, timeEnd) := QuantizeRange(c, ts, c.data.timeOffset);
      ApplyQuantizeEdits(events, timeStart, timeEnd, q);
      Some(MidiEditCommand(c, EditsFrom(events, 0, timeStart, timeEnd, q)))
  }

  predicate QuantizeApplies(c: Clip, snapPerBeat: nat) {
    snapPerBeat >= 1 && c.track.Some? && c.track.value.kind == Midi && c.data.MidiData?
  }

  /** How many of the clips the per-clip step quantizes. */
  function CountApplies(clips: seq<Clip>, snapPerBeat: nat): nat {
    if |clips| == 0 then 0
    else (if QuantizeApplies(clips[0], snapPerBeat) then 1 else 0) + CountApplies(clips[1..], snapPerBeat)
  }

  /** Selected clips have their selection inside the clip. */
  predicate WellSelected(clips: seq<Clip>) {
    forall i :: 0 <= i < |clips| ==> (clips[i].IsSelected() ==> clips[i].SelectionWithin())
  }

  /** `cmd` is the command the per-clip step adds for some clip of `clips`. */
  ghost predicate CommandOfSome(clips: seq<Clip>, snapPerBeat: nat, ts: TimeScale, cmd: MidiEditCommand)
    requires ts.Valid() && snapPerBeat <= ts.ticksPerBeat && WellSelected(clips)
  {
    exists i :: 0 <= i < |clips| && QuantizeClipCommand(clips[i], snapPerBeat, ts) == Some(cmd)
  }

  /** The per-clip step run over the batch, one result per clip. */
  function QuantizeSteps(clips: seq<Clip>, snapPerBeat: nat, ts: TimeScale): seq<Option<MidiEditCommand>>
    requires ts.Valid() && snapPerBeat <= ts.ticksPerBeat && WellSelected(clips)
  {
    seq(|clips|, i requires 0 <= i < |clips| => QuantizeClipCommand(clips[i], snapPerBeat, ts))
  }

  /** As many steps add a command as there are clips the step applies to. */
  lemma {:induction false} QuantizeStepsCount(clips: seq<Clip>, snapPerBeat: nat, ts: TimeScale)
    requires ts.Valid() && snapPerBeat <= ts.ticksPerBeat && WellSelected(clips)
    ensures Batch.CountSome(QuantizeSteps(clips, snapPerBeat, ts)) == CountApplies(clips, snapPerBeat)
  {
    if |clips| > 0 {
      QuantizeStepsCount(clips[1..], snapPerBeat, ts);
      assert QuantizeSteps(clips, snapPerBeat, ts)[1..] == QuantizeSteps(clips[1..], snapPerBeat, ts);
    }
  }

  /**
    The per-clip commands of a batch, in selection order: every clip the
    step applies to contributes its own command, and nothing else is added.
   */
  function QuantizeAll(clips: seq<Clip>, snapPerBeat: nat, ts: TimeScale): (r: seq<MidiEditCommand>)
    requires ts.Valid() && snapPerBeat <= ts.ticksPerBeat && WellSelected(clips)
    ensures |r| == CountApplies(clips, snapPerBeat) <= |clips|
    ensures |r| == 0 <==> forall i :: 0 <= i < |clips| ==> !QuantizeApplies(clips[i], snapPerBeat)
    ensures forall i :: 0 <= i < |clips| && QuantizeApplies(clips[i], snapPerBeat) ==>
      QuantizeClipCommand(clips[i], snapPerBeat, ts).value in r
    ensures forall j :: 0 <= j < |r| ==> CommandOfSome(clips, snapPerBeat, ts, r[j])
  {
    var steps := QuantizeSteps(clips, snapPerBeat, ts);
    QuantizeStepsCount(clips, snapPerBeat, ts);
    Batch.CollectHasAll(steps);
    assert forall i :: 0 <= i < |clips| ==> steps[i] == QuantizeClipCommand(clips[i], snapPerBeat, ts);
    var r := Batch.Collect(steps);
    assert forall j :: 0 <= j < |r| ==> Some(r[j]) in steps ==> CommandOfSome(clips, snapPerBeat, ts, r[j]);
    r
  }

  /**
    The order of the batch: each clip the step applies to has its command
    at the position given by the number of such clips before it.
   */
  lemma QuantizeAllInOrder(clips: seq<Clip>, snapPerBeat: nat, ts: TimeScale, i: nat)
    requires ts.Valid() && snapPerBeat <= ts.ticksPerBeat && WellSelected(clips)
    requires i < |clips| && QuantizeApplies(clips[i], snapPerBeat)
    ensures var r := QuantizeAll(clips, snapPerBeat, ts);
      && CountApplies(clips[..i], snapPerBeat) < |r|
      && Some(r[CountApplies(clips[..i], snapPerBeat)]) == QuantizeClipCommand(clips[i], snapPerBeat, ts)
  {
    var steps := QuantizeSteps(clips, snapPerBeat, ts);
    Batch.CollectComplete(steps, i);
    QuantizeStepsPrefix(clips, snapPerBeat, ts, i);
    QuantizeStepsCount(clips[..i], snapPerBeat, ts);
  }

  lemma QuantizeStepsPrefix(clips: seq<Clip>, snapPerBeat: nat, ts: TimeScale, i: nat)
    requires ts.Valid() && snapPerBeat <= ts.ticksPerBeat && WellSelected(clips)
    requires i <= |clips|
    ensures WellSelected(clips[..i])
    ensures QuantizeSteps(clips, snapPerBeat, ts)[..i] == QuantizeSteps(clips[..i], snapPerBeat, ts)
  {
  }

  /**
    The batch command: over the clip selection when there is one, else over
    the current clip. `None` when no clip was quantized, in which case
    nothing is executed; otherwise the commands of exactly the batch's
    qualifying clips.
   */
  function QuantizeClip(selection: seq<Clip>, current: Option<Clip>, snapPerBeat: nat, ts: TimeScale): (r: Option<seq<MidiEditCommand>>)
    requires ts.Valid() && snapPerBeat <= ts.ticksPerBeat
    requires WellSelected(selection)
    requires current.Some? && current.value.IsSelected() ==> current.value.SelectionWithin()
    ensures |selection| > 0 ==>
      (r.Some? <==> exists i :: 0 <= i < |selection| && QuantizeApplies(selection[i], snapPerBeat))
    ensures |selection| == 0 ==>
      (r.Some? <==> current.Some? && QuantizeApplies(current.value, snapPerBeat))
    ensures snapPerBeat < 1 ==> r.None?
    ensures r.Some? ==> r.value == QuantizeAll(BatchClips(selection, current), snapPerBeat, ts)
  {
    var cmds := QuantizeAll(BatchClips(selection, current), snapPerBeat, ts);
    if |cmds| == 0 then None else Some(cmds)
  }
}
