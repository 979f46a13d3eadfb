/**
  The session's clip and event data, as immutable values.

  A clip is a placed, trimmed window onto source material: it starts at
  frame `start` on its track, plays `length` frames, and reads its source from
  frame `offset` on. A MIDI clip owns a time-ordered sequence of events whose
  times are ticks relative to the clip. Edits are recorded as lists of
  primitive operations (a clip command) rather than applied in place.
 */
module Clips {

  datatype Option<T> = None | Some(value: T)

  /** An 8-bit unsigned value (MIDI note and velocity fields). */
  type Byte = x: nat | x < 256

  datatype TrackType = Untyped | Audio | Midi

  /** What a clip can see of the track it belongs to. */
  datatype TrackRef = TrackRef(kind: TrackType, hasOutputBus: bool)

  datatype EventType =
    | NoteOff | NoteOn | KeyPress | Controller | ProgramChange
    | ChannelPressure | PitchBend | SysEx

  /** A MIDI event: `time` and `duration` in ticks relative to its clip. */
  datatype MidiEvent = MidiEvent(kind: EventType, time: nat, duration: nat, note: Byte, velocity: Byte)

  /**
    The variant part of a clip. `timeOffset` is the tick offset of the
    sequence within its source, `trackChannel` the SMF track or channel the
    clip reads, `revision` the counter that forces the event data back to
    disk when it is reset.
   */
  datatype ClipData =
    | AudioData(filename: string)
    | MidiData(filename: string, events: seq<MidiEvent>, timeOffset: nat, trackChannel: nat, revision: nat)

  datatype Clip = Clip(
    start: nat,
    offset: nat,
    length: nat,
    gain: real,
    fadeIn: nat,
    fadeOut: nat,
    selectStart: nat,
    selectEnd: nat,
    track: Option<TrackRef>,
    data: ClipData)
  {
    /** First frame after the clip. */
    function End(): nat {
      start + length
    }

    predicate IsSelected() {
      selectStart < selectEnd
    }

    /** The selection sub-range lies within the clip's frame extent. */
    predicate SelectionWithin() {
      start <= selectStart <= selectEnd <= End()
    }

    /** Frame `f` of the timeline plays from this clip. */
    predicate Covers(f: nat) {
      start <= f < End()
    }

    /** The source frame heard at timeline frame `f`. */
    function SourceFrame(f: nat): nat
      requires Covers(f)
    {
      offset + (f - start)
    }
  }

  /** The primitive operations a clip command is made of. */
  datatype ClipOp =
    | AddClip(clip: Clip)
    | RemoveClip(target: Clip)
    | MoveClip(target: Clip, start: nat, offset: nat, length: nat)
    | ResizeClip(target: Clip, start: nat, offset: nat, length: nat)
    | GainClip(target: Clip, gain: real)

  type ClipCommand = seq<ClipOp>

  /** The clip an operation leaves on the track, if any. */
  function Outcome(op: ClipOp): Option<Clip> {
    match op
    case AddClip(c) => Some(c)
    case RemoveClip(_) => None
    case MoveClip(c, s, o, l) => Some(c.(start := s, offset := o, length := l))
    case ResizeClip(c, s, o, l) => Some(c.(start := s, offset := o, length := l))
    case GainClip(c, g) => Some(c.(gain := g))
  }

  /** The clip an operation acts on (the new clip for an addition). */
  function Target(op: ClipOp): Clip {
    match op
    case AddClip(c) => c
    case RemoveClip(c) => c
    case MoveClip(c, _, _, _) => c
    case ResizeClip(c, _, _, _) => c
    case GainClip(c, _) => c
  }

  predicate IsNoteOn(e: MidiEvent) {
    e.kind == NoteOn
  }

  /**
    The clips a batch edit runs over: the clip selection when there is one,
    else the current clip, else nothing.
   */
  function BatchClips(selection: seq<Clip>, current: Option<Clip>): seq<Clip> {
    if |selection| > 0 then selection else if current.Some? then [current.value] else []
  }
}
