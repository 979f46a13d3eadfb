/**
  The event copy of MIDI merge/export
  (qtractorTracks::mergeExportMidiClips).

  The selection extent is converted to the tick range `[timeStart, timeEnd)`.
  For each selected clip the code skips the events that start before
  `timeStart` and copies events until the first one at or after `timeEnd`;
  on a time-ordered sequence these are exactly the events inside the range.
  Each copy is re-timed relative to `timeStart`; a note-on gets its velocity
  scaled by the clip gain and masked to 7 bits, and its duration cut so the
  note ends by `timeEnd`.
 */
module MergeMidi {
  import opened Clips
  import opened Time
  import Merge

  predicate Sorted(events: seq<MidiEvent>) {
    forall i, j :: 0 <= i < j < |events| ==> events[i].time <= events[j].time
  }

  /** Event `e` of a clip starting at tick `clipTick` falls in `[timeStart, timeEnd)`. */
  predicate InWindow(e: MidiEvent, clipTick: nat, timeStart: nat, timeEnd: nat) {
    timeStart <= clipTick + e.time < timeEnd
  }

  /** The first loop: skip events that start before `timeStart`. */
  function DropBefore(events: seq<MidiEvent>, clipTick: nat, timeStart: nat): (r: seq<MidiEvent>)
    ensures |r| <= |events| && r == events[|events| - |r|..]
    ensures forall i :: 0 <= i < |events| - |r| ==> clipTick + events[i].time < timeStart
    ensures |r| > 0 ==> timeStart <= clipTick + r[0].time
  {
    if |events| == 0 || timeStart <= clipTick + events[0].time then events
    else
      var rest := DropBefore(events[1..], clipTick, timeStart);
      assert forall i :: 1 <= i < |events| ==> events[i] == events[1..][i - 1];
      rest
  }

  /** The second loop: take events while they start before `timeEnd`. */
  function TakeBefore(events: seq<MidiEvent>, clipTick: nat, timeEnd: nat): (r: seq<MidiEvent>)
    ensures |r| <= |events| && r == events[..|r|]
    ensures forall i :: 0 <= i < |r| ==> clipTick + r[i].time < timeEnd
    ensures |r| < |events| ==> timeEnd <= clipTick + events[|r|].time
  {
    if |events| == 0 || timeEnd <= clipTick + events[0].time then []
    else [events[0]] + TakeBefore(events[1..], clipTick, timeEnd)
  }

  /** Reference definition: the events inside the range, in sequence order. */
  function InWindowEvents(events: seq<MidiEvent>, clipTick: nat, timeStart: nat, timeEnd: nat): seq<MidiEvent> {
    if |events| == 0 then []
    else
      (if InWindow(events[0], clipTick, timeStart, timeEnd) then [events[0]] else [])
      + InWindowEvents(events[1..], clipTick, timeStart, timeEnd)
  }

  lemma {:induction false} NoneInWindowFromEnd(events: seq<MidiEvent>, clipTick: nat, timeStart: nat, timeEnd: nat)
    requires forall i :: 0 <= i < |events| ==> timeEnd <= clipTick + events[i].time
    ensures InWindowEvents(events, clipTick, timeStart, timeEnd) == []
  {
    if |events| > 0 {
      NoneInWindowFromEnd(events[1..], clipTick, timeStart, timeEnd);
    }
  }

  lemma {:induction false} TakeIsWindow(events: seq<MidiEvent>, clipTick: nat, timeStart: nat, timeEnd: nat)
    requires Sorted(events)
    requires forall i :: 0 <= i < |events| ==> timeStart <= clipTick + events[i].time
    ensures TakeBefore(events, clipTick, timeEnd) == InWindowEvents(events, clipTick, timeStart, timeEnd)
  {
    if |events| > 0 {
      if timeEnd <= clipTick + events[0].time {
        NoneInWindowFromEnd(events, clipTick, timeStart, timeEnd);
      } else {
        SortedTail(events);
        TakeIsWindow(events[1..], clipTick, timeStart, timeEnd);
      }
    }
  }

  /** In a time-ordered sequence every event starts no earlier than the first. */
  lemma SortedFromFirst(events: seq<MidiEvent>, clipTick: nat, timeStart: nat)
    requires Sorted(events) && |events| > 0 && timeStart <= clipTick + events[0].time
    ensures forall i :: 0 <= i < |events| ==> timeStart <= clipTick + events[i].time
  {
  }

  lemma SortedTail(events: seq<MidiEvent>)
    requires Sorted(events) && |events| > 0
    ensures Sorted(events[1..])
  {
    forall i, j | 0 <= i < j < |events| - 1
      ensures events[1..][i].time <= events[1..][j].time
    {
      assert events[1..][i] == events[i + 1] && events[1..][j] == events[j + 1];
    }
  }

  /**
    On a time-ordered sequence the two loops copy exactly the events inside
    the range, in order.
   */
  lemma {:induction false} CopiedAreInWindow(events: seq<MidiEvent>, clipTick: nat, timeStart: nat, timeEnd: nat)
    requires Sorted(events)
    ensures TakeBefore(DropBefore(events, clipTick, timeStart), clipTick, timeEnd)
         == InWindowEvents(events, clipTick, timeStart, timeEnd)
  {
    if |events| > 0 {
      if timeStart <= clipTick + events[0].time {
        SortedFromFirst(events, clipTick, timeStart);
        TakeIsWindow(events, clipTick, timeStart, timeEnd);
      } else {
        var tail := events[1..];
        SortedTail(events);
        CopiedAreInWindow(tail, clipTick, timeStart, timeEnd);
        assert DropBefore(events, clipTick, timeStart) == DropBefore(tail, clipTick, timeStart);
        assert InWindowEvents(events, clipTick, timeStart, timeEnd) == InWindowEvents(tail, clipTick, timeStart, timeEnd);
      }
    }
  }

  /**
    A note-on's scaled velocity: the scaled value truncated to a byte, then
    masked with 0x7f. The mask wraps rather than clamps: a scaled value of
    128 to 255 loses its top bit.
   */
  function ScaledVelocity(gain: real, velocity: Byte): (r: Byte)
    ensures r <= 0x7f
    ensures 0.0 <= gain * (velocity as real) < 128.0 ==> r == (gain * (velocity as real)).Floor
    ensures 128.0 <= gain * (velocity as real) < 256.0 ==> r == (gain * (velocity as real)).Floor - 128
  {
    ((gain * (velocity as real)).Floor % 256) % 128
  }

  /** A velocity-64 note copied at double gain comes out with velocity 0. */
  lemma LoudNoteWraps()
    ensures ScaledVelocity(2.0, 64) == 0
    ensures ScaledVelocity(2.0, 100) == 72
  {
    assert (2.0 * (64 as real)).Floor == 128;
    assert (2.0 * (100 as real)).Floor == 200;
  }

  /** The copy of one event of a clip starting at tick `clipTick`. */
  function CopyEvent(e: MidiEvent, clipTick: nat, timeStart: nat, timeEnd: nat, gain: real): (r: MidiEvent)
    requires InWindow(e, clipTick, timeStart, timeEnd)
    ensures r.kind == e.kind && r.note == e.note
    ensures r.time == clipTick + e.time - timeStart
    ensures r.time < timeEnd - timeStart
    ensures IsNoteOn(e) ==>
      && r.velocity == ScaledVelocity(gain, e.velocity)
      && r.velocity <= 0x7f
      && r.time + r.duration <= timeEnd - timeStart
      && (clipTick + e.time + e.duration <= timeEnd ==> r.duration == e.duration)
      && (clipTick + e.time + e.duration > timeEnd ==> r.time + r.duration == timeEnd - timeStart)
    ensures !IsNoteOn(e) ==> r.velocity == e.velocity && r.duration == e.duration
  {
    var timeEvent := clipTick + e.time;
    var moved := e.(time := timeEvent - timeStart);
    if IsNoteOn(e) then
      var d := if timeEvent + e.duration > timeEnd then timeEnd - timeEvent else e.duration;
      moved.(velocity := ScaledVelocity(gain, e.velocity), duration := d)
    else moved
  }

  function CopyAll(events: seq<MidiEvent>, clipTick: nat, timeStart: nat, timeEnd: nat, gain: real): (r: seq<MidiEvent>)
    requires forall i :: 0 <= i < |events| ==> InWindow(events[i], clipTick, timeStart, timeEnd)
    ensures |r| == |events|
    ensures forall i :: 0 <= i < |events| ==> r[i] == CopyEvent(events[i], clipTick, timeStart, timeEnd, gain)
  {
    seq(|events|, i requires 0 <= i < |events| => CopyEvent(events[i], clipTick, timeStart, timeEnd, gain))
  }

  /** A MIDI clip's events are kept in time order. */
  predicate OrderedData(c: Clip) {
    c.data.MidiData? ==> Sorted(c.data.events)
  }

  /** In-window events are, in particular, the ones the copy may re-time. */
  lemma InWindowEventsInWindow(events: seq<MidiEvent>, clipTick: nat, timeStart: nat, timeEnd: nat)
    ensures var picked := InWindowEvents(events, clipTick, timeStart, timeEnd);
      forall i :: 0 <= i < |picked| ==> InWindow(picked[i], clipTick, timeStart, timeEnd)
  {
    if |events| > 0 {
      InWindowEventsInWindow(events[1..], clipTick, timeStart, timeEnd);
    }
  }

  /**
    The copies one clip contributes to the merged sequence: the re-timed
    copies of exactly its events inside the range.
   */
  function ClipCopies(c: Clip, ts: TimeScale, timeStart: nat, timeEnd: nat): (r: seq<MidiEvent>)
    requires ts.Valid() && OrderedData(c)
    ensures c.data.MidiData? ==>
      var clipTick := ts.TickFromFrame(c.start);
      var picked := InWindowEvents(c.data.events, clipTick, timeStart, timeEnd);
      && (forall i :: 0 <= i < |picked| ==> InWindow(picked[i], clipTick, timeStart, timeEnd))
      && r == CopyAll(picked, clipTick, timeStart, timeEnd, c.gain)
    ensures !c.data.MidiData? ==> r == []
  {
    if !c.data.MidiData? then []
    else
      var clipTick := ts.TickFromFrame(c.start);
      CopiedAreInWindow(c.data.events, clipTick, timeStart, timeEnd);
      InWindowEventsInWindow(c.data.events, clipTick, timeStart, timeEnd);
      var picked := TakeBefore(DropBefore(c.data.events, clipTick, timeStart), clipTick, timeEnd);
      CopyAll(picked, clipTick, timeStart, timeEnd, c.gain)
  }

  /** Every event of a merged sequence lies in the range and ends by its end. */
  ghost predicate FitsRange(events: seq<MidiEvent>, length: nat) {
    forall i :: 0 <= i < |events| ==>
      && events[i].time < length
      && (IsNoteOn(events[i]) ==> events[i].velocity <= 0x7f && events[i].time + events[i].duration <= length)
  }

  lemma FitsAppend(a: seq<MidiEvent>, b: seq<MidiEvent>, length: nat)
    requires FitsRange(a, length) && FitsRange(b, length)
    ensures FitsRange(a + b, length)
  {
    forall i | |a| <= i < |a| + |b|
      ensures (a + b)[i] == b[i - |a|]
    {
    }
  }

  lemma ClipCopiesFit(c: Clip, ts: TimeScale, timeStart: nat, timeEnd: nat)
    requires ts.Valid() && timeStart <= timeEnd && OrderedData(c)
    ensures FitsRange(ClipCopies(c, ts, timeStart, timeEnd), timeEnd - timeStart)
  {
  }

  /** `e` is one of the copies some clip of `clips` contributes. */
  ghost predicate CopiedFromSome(clips: seq<Clip>, ts: TimeScale, timeStart: nat, timeEnd: nat, e: MidiEvent)
    requires ts.Valid()
    requires forall i :: 0 <= i < |clips| ==> OrderedData(clips[i])
  {
    exists i :: 0 <= i < |clips| && e in ClipCopies(clips[i], ts, timeStart, timeEnd)
  }

  /** All the copies of all the clips, counted with multiplicity. */
  function CopiesBag(clips: seq<Clip>, ts: TimeScale, timeStart: nat, timeEnd: nat): multiset<MidiEvent>
    requires ts.Valid()
    requires forall i :: 0 <= i < |clips| ==> OrderedData(clips[i])
  {
    if |clips| == 0 then multiset{}
    else multiset(ClipCopies(clips[0], ts, timeStart, timeEnd)) + CopiesBag(clips[1..], ts, timeStart, timeEnd)
  }

  /**
    The merged sequence in insertion order: the copies of every selected
    clip, clip after clip. It holds every copy of every clip, as many times
    as the clips produce it, and nothing else, and all of it fits the range.
   */
  function MergeEvents(clips: seq<Clip>, ts: TimeScale, timeStart: nat, timeEnd: nat): (r: seq<MidiEvent>)
    requires ts.Valid() && timeStart <= timeEnd
    requires forall i :: 0 <= i < |clips| ==> OrderedData(clips[i])
    ensures FitsRange(r, timeEnd - timeStart)
    ensures forall i, e :: 0 <= i < |clips| && e in ClipCopies(clips[i], ts, timeStart, timeEnd) ==> e in r
    ensures forall j :: 0 <= j < |r| ==> CopiedFromSome(clips, ts, timeStart, timeEnd, r[j])
    ensures multiset(r) == CopiesBag(clips, ts, timeStart, timeEnd)
  {
    if |clips| == 0 then []
    else
      ClipCopiesFit(clips[0], ts, timeStart, timeEnd);
      var rest := MergeEvents(clips[1..], ts, timeStart, timeEnd);
      var here := ClipCopies(clips[0], ts, timeStart, timeEnd);
      FitsAppend(here, rest, timeEnd - timeStart);
      FromFirst(clips, ts, timeStart, timeEnd);
      MergedFromSome(clips, ts, timeStart, timeEnd, here, rest);
      assert forall i :: 1 <= i < |clips| ==> clips[i] == clips[1..][i - 1];
      here + rest
  }

  /** Prepending the first clip's copies keeps every event a copy of some clip. */
  lemma MergedFromSome(clips: seq<Clip>, ts: TimeScale, timeStart: nat, timeEnd: nat, here: seq<MidiEvent>, rest: seq<MidiEvent>)
    requires ts.Valid() && |clips| > 0
    requires forall i :: 0 <= i < |clips| ==> OrderedData(clips[i])
    requires forall j :: 0 <= j < |here| ==> CopiedFromSome(clips, ts, timeStart, timeEnd, here[j])
    requires forall j :: 0 <= j < |rest| ==> CopiedFromSome(clips[1..], ts, timeStart, timeEnd, rest[j])
    ensures forall j :: 0 <= j < |here + rest| ==> CopiedFromSome(clips, ts, timeStart, timeEnd, (here + rest)[j])
  {
    forall j | 0 <= j < |here + rest|
      ensures CopiedFromSome(clips, ts, timeStart, timeEnd, (here + rest)[j])
    {
      if j < |here| {
        assert (here + rest)[j] == here[j];
      } else {
        assert (here + rest)[j] == rest[j - |here|];
        FromLater(clips, ts, timeStart, timeEnd, rest[j - |here|]);
      }
    }
  }

  lemma FromFirst(clips: seq<Clip>, ts: TimeScale, timeStart: nat, timeEnd: nat)
    requires ts.Valid() && |clips| > 0
    requires forall i :: 0 <= i < |clips| ==> OrderedData(clips[i])
    ensures var here := ClipCopies(clips[0], ts, timeStart, timeEnd);
      forall j :: 0 <= j < |here| ==> CopiedFromSome(clips, ts, timeStart, timeEnd, here[j])
  {
    var here := ClipCopies(clips[0], ts, timeStart, timeEnd);
    forall j | 0 <= j < |here|
      ensures CopiedFromSome(clips, ts, timeStart, timeEnd, here[j])
    {
      assert here[j] in here;
    }
  }

  lemma FromLater(clips: seq<Clip>, ts: TimeScale, timeStart: nat, timeEnd: nat, e: MidiEvent)
    requires ts.Valid() && |clips| > 0
    requires forall i :: 0 <= i < |clips| ==> OrderedData(clips[i])
    requires CopiedFromSome(clips[1..], ts, timeStart, timeEnd, e)
    ensures CopiedFromSome(clips, ts, timeStart, timeEnd, e)
  {
    var i :| 0 <= i < |clips| - 1 && e in ClipCopies(clips[1..][i], ts, timeStart, timeEnd);
    assert clips[1..][i] == clips[i + 1];
  }

  /**
    The merged MIDI sequence of a selection: the extent is taken in frames,
    converted to ticks, and every clip's in-range events copied; the result
    holds exactly the copies of the selected clips, each as many times as
    they produce it, all inside the range.
   */
  function MidiMergeSequence(selection: seq<Clip>, ts: TimeScale, sessionLength: nat): (r: seq<MidiEvent>)
    requires ts.Valid()
    requires |selection| > 0 && Merge.AllWellSelected(selection)
    requires forall i :: 0 <= i < |selection| ==> OrderedData(selection[i])
    ensures
      var timeStart := ts.TickFromFrame(Merge.ExtentStart(selection, sessionLength));
      var timeEnd := ts.TickFromFrame(Merge.ExtentEnd(selection));
      && timeStart <= timeEnd
      && FitsRange(r, timeEnd - timeStart)
      && (forall i, e :: 0 <= i < |selection| && e in ClipCopies(selection[i], ts, timeStart, timeEnd) ==> e in r)
      && (forall j :: 0 <= j < |r| ==> CopiedFromSome(selection, ts, timeStart, timeEnd, r[j]))
      && multiset(r) == CopiesBag(selection, ts, timeStart, timeEnd)
  {
    Merge.ExtentCoversSelection(selection, sessionLength);
    var selectStart := Merge.ExtentStart(selection, sessionLength);
    var selectEnd := Merge.ExtentEnd(selection);
    Time.TickFromFrameMonotone(ts, selectStart, selectEnd);
    MergeEvents(selection, ts, ts.TickFromFrame(selectStart), ts.TickFromFrame(selectEnd))
  }

  const U64: nat := 0x1_0000_0000_0000_0000

  /**
    The source computes the re-timing offset `clipTick - timeStart` in 64-bit
    unsigned arithmetic, which wraps when the clip starts before the range.
    Adding the event time wraps back, so every copied event still gets the
    intended relative time.
   */
  lemma WrappedOffsetAgrees(clipTick: nat, time: nat, timeStart: nat)
    requires clipTick < U64 && time < U64 && timeStart < U64
    requires timeStart <= clipTick + time
    requires clipTick + time - timeStart < U64
    ensures ((clipTick as int - timeStart as int) % U64 + time) % U64 == clipTick + time - timeStart
  {
    var d := clipTick as int - timeStart as int;
    if d < 0 {
      assert d % U64 == d + U64;
      assert (d + U64 + time) % U64 == d + time;
    } else {
      assert d % U64 == d;
    }
  }
}
