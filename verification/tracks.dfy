/**
  Track-level rules of the tracks widget: zoom stepping, the new-clip
  prototype, importing files as clips onto a track or as new tracks, and
  keeping MIDI tracks that share a bus and channel on the same bank and
  program.

  The files an import reads are described by what opening them would
  report (`SourceFile`), so that the rules about which clips and tracks are
  created, and where, can be stated without any file access.
 */
module TrackRules {
  import opened Clips
  import opened Time

  // ---------------------------------------------------------------------
  // Zoom

  /**
    One zoom step (horizontal or vertical): the stepped value is clamped to
    `[zoomMin, zoomMax]`; `None` means the session is left alone because the
    clamped value equals the current one.
   */
  function ZoomStep(current: int, step: int, zoomMin: int, zoomMax: int): (r: Option<int>)
    ensures r.Some? ==> r.value != current
    ensures zoomMin <= zoomMax && r.Some? ==> zoomMin <= r.value <= zoomMax
    ensures zoomMin <= current + step <= zoomMax ==>
      (r.Some? <==> step != 0) && (r.Some? ==> r.value == current + step)
    ensures current + step < zoomMin ==> (r.Some? <==> current != zoomMin) && (r.Some? ==> r.value == zoomMin)
    ensures zoomMin <= current + step && zoomMax < current + step ==>
      (r.Some? <==> current != zoomMax) && (r.Some? ==> r.value == zoomMax)
  {
    var z := current + step;
    var clamped := if z < zoomMin then zoomMin else if z > zoomMax then zoomMax else z;
    if clamped == current then None else Some(clamped)
  }

  /**
    Zooming is saturating: once a step lands on a bound, a further step in
    the same direction changes nothing.
   */
  lemma ZoomSaturates(current: int, step: int, zoomMin: int, zoomMax: int)
    requires zoomMin <= zoomMax && zoomMin <= current <= zoomMax
    requires ZoomStep(current, step, zoomMin, zoomMax).Some?
    ensures var v := ZoomStep(current, step, zoomMin, zoomMax).value;
      (step > 0 && v == zoomMax ==> ZoomStep(v, step, zoomMin, zoomMax).None?)
      && (step < 0 && v == zoomMin ==> ZoomStep(v, step, zoomMin, zoomMax).None?)
  {
  }

  // ---------------------------------------------------------------------
  // MIDI track aliases

  /** The MIDI-relevant state of a session track. */
  datatype Track = Track(kind: TrackType, bus: string, channel: nat, bankSelMethod: int, bank: int, program: int)

  /** Track `t` plays through the same bus and channel as MIDI track `m`. */
  predicate Aliases(t: Track, m: Track) {
    t.kind == Midi && t.bus == m.bus && t.channel == m.channel
  }

  predicate SamePatch(t: Track, m: Track) {
    t.bankSelMethod == m.bankSelMethod && t.bank == m.bank && t.program == m.program
  }

  /**
    Bring every other MIDI track on the edited track's bus and channel to
    its bank-select method, bank and program. Afterwards all such aliases
    share the edited track's patch; every other track, the edited one
    included, is untouched, and no track changes anything but its patch.
   */
  function UpdateMidiTrack(tracks: seq<Track>, edited: nat): (r: seq<Track>)
    requires edited < |tracks|
    ensures |r| == |tracks|
    ensures r[edited] == tracks[edited]
    ensures forall k :: 0 <= k < |r| && k != edited && Aliases(tracks[k], tracks[edited]) ==>
      SamePatch(r[k], tracks[edited])
    ensures forall k :: 0 <= k < |r| && !(k != edited && Aliases(tracks[k], tracks[edited])) ==>
      r[k] == tracks[k]
    ensures forall k :: 0 <= k < |r| ==>
      r[k].kind == tracks[k].kind && r[k].bus == tracks[k].bus && r[k].channel == tracks[k].channel
  {
    var m := tracks[edited];
    seq(|tracks|, k requires 0 <= k < |tracks| =>
      if k != edited && Aliases(tracks[k], m)
      then tracks[k].(bankSelMethod := m.bankSelMethod, bank := m.bank, program := m.program)
      else tracks[k])
  }

  /** Running the alias update twice is the same as running it once. */
  lemma UpdateMidiTrackIdempotent(tracks: seq<Track>, edited: nat)
    requires edited < |tracks|
    ensures UpdateMidiTrack(UpdateMidiTrack(tracks, edited), edited) == UpdateMidiTrack(tracks, edited)
  {
    var once := UpdateMidiTrack(tracks, edited);
    var twice := UpdateMidiTrack(once, edited);
    forall k | 0 <= k < |tracks|
      ensures twice[k] == once[k]
    {
      if k != edited && Aliases(once[k], once[edited]) {
        assert Aliases(tracks[k], tracks[edited]);
      }
    }
  }

  /**
    After the update the edited track and all its aliases form one group
    with a single patch: any two of them agree.
   */
  lemma AliasesShareOnePatch(tracks: seq<Track>, edited: nat, j: nat, k: nat)
    requires edited < |tracks| && j < |tracks| && k < |tracks|
    requires j == edited || Aliases(tracks[j], tracks[edited])
    requires k == edited || Aliases(tracks[k], tracks[edited])
    ensures SamePatch(UpdateMidiTrack(tracks, edited)[j], UpdateMidiTrack(tracks, edited)[k])
  {
  }

  // ---------------------------------------------------------------------
  // New clip

  /** What creating a new clip leads to. */
  datatype NewClipOutcome =
    | NoNewClip
      /** An audio clip prototype, handed to the clip properties dialog. */
    | ClipDialog(prototype: Clip)
      /** A blank MIDI clip, added at once (and opened in its editor). */
    | MidiClipAdded(command: ClipCommand)

  /**
    The new clip goes on the current track, else the first one. An audio
    clip starts at the edit head and waits for the dialog. A MIDI clip
    starts at the edit head, spans up to the edit tail when the tail is past
    the head and one bar otherwise, reads channel `midiChannel` of a format
    0 file or track 1 of a format 1 file, and starts at revision 1.
   */
  function NewClip(current: Option<TrackRef>, first: Option<TrackRef>, midiChannel: nat,
                   editHead: nat, editTail: nat, ts: TimeScale, beatsPerBar: nat,
                   format: nat, filename: string): (r: NewClipOutcome)
    requires ts.Valid()
    ensures var track := if current.Some? then current else first;
      && (r.NoNewClip? <==> track.None? || track.value.kind == Untyped)
      && (r.ClipDialog? <==> track.Some? && track.value.kind == Audio)
      && (r.MidiClipAdded? <==> track.Some? && track.value.kind == Midi)
    ensures r.ClipDialog? ==> r.prototype.start == editHead && r.prototype.data.AudioData?
    ensures r.MidiClipAdded? ==>
      && |r.command| == 1 && r.command[0].AddClip?
      && var c := r.command[0].clip;
      && c.start == editHead
      && (editTail > editHead ==> c.End() == editTail)
      && (editTail <= editHead ==> c.length == ts.FrameFromTick(ts.ticksPerBeat * beatsPerBar))
      && c.data.MidiData? && c.data.filename == filename && c.data.events == []
      && c.data.trackChannel == (if format == 0 then midiChannel else 1)
      && c.data.revision == 1
  {
    var track := if current.Some? then current else first;
    if track.None? then NoNewClip
    else
      match track.value.kind
      case Untyped => NoNewClip
      case Audio => ClipDialog(Clip(editHead, 0, 0, 1.0, 0, 0, 0, 0, track, AudioData(filename)))
      case Midi =>
        var length := if editTail > editHead then editTail - editHead
                      else ts.FrameFromTick(ts.ticksPerBeat * beatsPerBar);
        var channel := if format == 0 then midiChannel else 1;
        MidiClipAdded([AddClip(Clip(editHead, 0, length, 1.0, 0, 0, 0, 0, track,
                                    MidiData(filename, [], 0, channel, 1)))])
  }

  /**
    The default length of a blank MIDI clip is one bar: converted back to
    ticks it never exceeds the bar's tick length, and it only grows with
    the bar.
   */
  lemma NewClipDefaultLengthIsOneBar(ts: TimeScale, beatsPerBar: nat, longer: nat)
    requires ts.Valid() && beatsPerBar <= longer
    ensures ts.TickFromFrame(ts.FrameFromTick(ts.ticksPerBeat * beatsPerBar)) <= ts.ticksPerBeat * beatsPerBar
    ensures ts.FrameFromTick(ts.ticksPerBeat * beatsPerBar) <= ts.FrameFromTick(ts.ticksPerBeat * longer)
  {
    var bar := ts.ticksPerBeat * beatsPerBar;
    PositiveProduct(ts.bpm, ts.ticksPerBeat);
    ScaleBack(bar, ts.FrameRate(), ts.TickRate());
    MulMonotone(beatsPerBar, longer, ts.ticksPerBeat);
    assert bar <= ts.ticksPerBeat * longer;
    FrameFromTickMonotone(ts, bar, ts.ticksPerBeat * longer);
  }

  // ---------------------------------------------------------------------
  // Files to import

  /** One track (SMF format 1) or channel (format 0) of a MIDI file. */
  datatype Part = Part(length: nat, channel: nat)

  /**
    What opening a file would report: whether it opens, its SMF format and
    track count (MIDI), the clip length it yields (audio, or a MIDI file
    read as a whole), and the clip length and MIDI channel of each of its
    tracks or channels.
   */
  datatype SourceFile = SourceFile(path: string, opens: bool, format: nat, tracks: nat, length: nat, parts: seq<Part>)

  /** A track or channel a file does not report is empty. */
  function PartAt(f: SourceFile, k: nat): Part {
    if k < |f.parts| then f.parts[k] else Part(0, 0)
  }

  /** The clips lie end to end from `start` on, in order. */
  ghost predicate Abutting(clips: seq<Clip>, start: nat) {
    && (|clips| > 0 ==> clips[0].start == start)
    && (forall k :: 0 <= k < |clips| - 1 ==> clips[k + 1].start == clips[k].End())
  }

  // ---------------------------------------------------------------------
  // Import onto the current track

  /** How many of the files open. */
  function CountOpens(files: seq<SourceFile>): nat {
    if |files| == 0 then 0 else (if files[0].opens then 1 else 0) + CountOpens(files[1..])
  }

  /** The files an import onto a track of kind `kind` turns into clips. */
  function Imported(files: seq<SourceFile>, kind: TrackType): (r: seq<SourceFile>)
    ensures |r| <= |files|
    ensures kind == Midi ==> |r| == CountOpens(files)
    ensures kind == Audio ==> r == files
    ensures kind == Untyped ==> r == []
    ensures kind == Midi ==> forall j :: 0 <= j < |r| ==> r[j].opens && r[j] in files
    ensures kind == Midi ==> forall j :: 0 <= j < |files| && files[j].opens ==> files[j] in r
  {
    if |files| == 0 || kind == Untyped then []
    else if kind == Audio || files[0].opens then [files[0]] + Imported(files[1..], kind)
    else Imported(files[1..], kind)
  }

  /**
    A MIDI import keeps the files in list order: a file that opens sits at
    the position given by the number of opening files before it.
   */
  lemma {:induction false} ImportedInOrder(files: seq<SourceFile>, j: nat)
    requires j < |files| && files[j].opens
    ensures CountOpens(files[..j]) < |Imported(files, Midi)|
    ensures Imported(files, Midi)[CountOpens(files[..j])] == files[j]
  {
    if j == 0 {
      assert files[..0] == [];
    } else {
      ImportedInOrder(files[1..], j - 1);
      assert files[..j][1..] == files[1..][..j - 1];
      assert files[1..][j - 1] == files[j];
    }
  }

  /** The track-channel an imported MIDI file is read from. */
  function ImportTrackChannel(midiChannel: nat, f: SourceFile): nat {
    if f.format == 1 then midiChannel + 1 else midiChannel
  }

  /** The clip an imported file becomes, placed at `start`. */
  function ImportedClip(f: SourceFile, track: TrackRef, midiChannel: nat, start: nat): Clip {
    var data := if track.kind == Midi
                then MidiData(f.path, [], 0, ImportTrackChannel(midiChannel, f), 0)
                else AudioData(f.path);
    Clip(start, 0, f.length, 1.0, 0, 0, 0, 0, Some(track), data)
  }

  /**
    The clips of an import onto `track` from the files it takes, one per
    file, each placed where the previous one ends (a file that is skipped
    never moves the start on).
   */
  function ImportRun(imported: seq<SourceFile>, track: TrackRef, midiChannel: nat, start: nat): (r: seq<Clip>)
    ensures |r| == |imported|
    ensures Abutting(r, start)
    ensures forall k :: 0 <= k < |r| ==>
      && r[k].length == imported[k].length && r[k].offset == 0 && r[k].track == Some(track)
      && r[k].data.filename == imported[k].path
      && (track.kind == Midi ==> r[k].data.MidiData? && r[k].data.trackChannel == ImportTrackChannel(midiChannel, imported[k]))
      && (track.kind != Midi ==> r[k].data.AudioData?)
  {
    if |imported| == 0 then []
    else
      var c := ImportedClip(imported[0], track, midiChannel, start);
      var rest := ImportRun(imported[1..], track, midiChannel, start + imported[0].length);
      assert forall k :: 1 <= k < |imported| ==> imported[k] == imported[1..][k - 1];
      [c] + rest
  }

  /** What an import leads to. */
  datatype ImportOutcome =
    | NoImport
    | NewAudioTracks(tracks: seq<NewTrack>)
    | ClipsImported(command: ClipCommand)

  /**
    Import files at `start`: onto the current track (else the first) as one
    clip-addition per imported file, or as new audio tracks when the session
    has no track at all. Nothing happens for an empty file list.
   */
  function ImportClips(files: seq<SourceFile>, current: Option<TrackRef>, first: Option<TrackRef>,
                       midiChannel: nat, start: nat, dropSpan: bool): (r: ImportOutcome)
    ensures r.NoImport? <==> |files| == 0
    ensures var track := if current.Some? then current else first;
      && (r.NewAudioTracks? <==> |files| > 0 && track.None?)
      && (r.NewAudioTracks? ==> Some(r.tracks) == AddAudioTracks(files, start, dropSpan))
      && (r.ClipsImported? ==>
            && var imported := Imported(files, track.value.kind);
            && |r.command| == |imported|
            && (forall k :: 0 <= k < |r.command| ==>
                  r.command[k].AddClip? && r.command[k].clip.data.filename == imported[k].path
                  && r.command[k].clip.length == imported[k].length)
            && Abutting(seq(|r.command|, k requires 0 <= k < |r.command| => r.command[k].clip), start))
  {
    var track := if current.Some? then current else first;
    if |files| == 0 then NoImport
    else if track.None? then
      NewAudioTracks(AddAudioTracks(files, start, dropSpan).value)
    else
      var clips := ImportRun(Imported(files, track.value.kind), track.value, midiChannel, start);
      var command := seq(|clips|, k requires 0 <= k < |clips| => AddClip(clips[k]));
      assert seq(|command|, k requires 0 <= k < |command| => command[k].clip) == clips;
      ClipsImported(command)
  }

  // ---------------------------------------------------------------------
  // Import as new tracks

  /**
    A track an import creates, with its clips. The clips' own `track` field
    is left `None`: they belong to the enclosing track.
   */
  datatype NewTrack = NewTrack(kind: TrackType, midiChannel: nat, clips: seq<Clip>)

  function AudioClipAt(f: SourceFile, start: nat): (c: Clip)
    ensures c.start == start && c.length == f.length && c.data == AudioData(f.path)
  {
    Clip(start, 0, f.length, 1.0, 0, 0, 0, 0, None, AudioData(f.path))
  }

  /** The files as one run of clips, each placed where the previous one ends. */
  function SpanClips(files: seq<SourceFile>, start: nat): (r: seq<Clip>)
    ensures |r| == |files|
    ensures Abutting(r, start)
    ensures forall k :: 0 <= k < |r| ==> r[k].length == files[k].length && r[k].data == AudioData(files[k].path)
  {
    if |files| == 0 then []
    else [AudioClipAt(files[0], start)] + SpanClips(files[1..], start + files[0].length)
  }

  /**
    Import audio files as new tracks: with drop-span on, one track holding
    every file as a clip, end to end from `start`; otherwise one track per
    file, every clip at `start`. `None` (nothing executed) for no files.
   */
  function AddAudioTracks(files: seq<SourceFile>, start: nat, dropSpan: bool): (r: Option<seq<NewTrack>>)
    ensures r.Some? <==> |files| > 0
    ensures r.Some? ==> forall t :: 0 <= t < |r.value| ==> r.value[t].kind == Audio
    ensures r.Some? && dropSpan ==>
      && |r.value| == 1
      && |r.value[0].clips| == |files|
      && Abutting(r.value[0].clips, start)
      && (forall k :: 0 <= k < |files| ==>
            r.value[0].clips[k].length == files[k].length && r.value[0].clips[k].data == AudioData(files[k].path))
    ensures r.Some? && !dropSpan ==>
      && |r.value| == |files|
      && (forall t :: 0 <= t < |files| ==>
            |r.value[t].clips| == 1
            && r.value[t].clips[0].start == start
            && r.value[t].clips[0].length == files[t].length
            && r.value[t].clips[0].data == AudioData(files[t].path))
  {
    if |files| == 0 then None
    else if dropSpan then Some([NewTrack(Audio, 0, SpanClips(files, start))])
    else Some(seq(|files|, t requires 0 <= t < |files| => NewTrack(Audio, 0, [AudioClipAt(files[t], start)])))
  }

  // ---------------------------------------------------------------------
  // Import MIDI files as new tracks

  /** How many tracks a MIDI file is split into: its SMF tracks for format 1, else the 16 channels. */
  function PartCount(f: SourceFile): nat {
    if f.format == 1 then f.tracks else 16
  }

  /** Track-channel `ch` of file `f` has data worth a track. */
  predicate Kept(f: SourceFile, ch: nat) {
    f.opens && ch < PartCount(f) && PartAt(f, ch).length > 0
  }

  /** `t` is the new track made from track-channel `ch` of `f`, its clip at `start`. */
  predicate MakesTrack(t: NewTrack, f: SourceFile, ch: nat, start: nat) {
    t == NewTrack(Midi, PartAt(f, ch).channel,
                  [Clip(start, 0, PartAt(f, ch).length, 1.0, 0, 0, 0, 0, None, MidiData(f.path, [], 0, ch, 0))])
  }

  /** `t` is the track of some kept track-channel of some file. */
  ghost predicate FromKept(t: NewTrack, files: seq<SourceFile>, start: nat) {
    exists i, c :: 0 <= i < |files| && Kept(files[i], c) && MakesTrack(t, files[i], c, start)
  }

  /** Some track of `tracks` is the one of track-channel `c` of `f`. */
  ghost predicate Yields(tracks: seq<NewTrack>, f: SourceFile, c: nat, start: nat) {
    exists k :: 0 <= k < |tracks| && MakesTrack(tracks[k], f, c, start)
  }

  ghost predicate AnyKept(files: seq<SourceFile>) {
    exists i, c :: 0 <= i < |files| && Kept(files[i], c)
  }

  /** The new tracks of one file's track-channels `ch` and up, empty ones dropped. */
  function PartTracks(f: SourceFile, ch: nat, start: nat): seq<NewTrack>
    decreases PartCount(f) - ch
  {
    if ch >= PartCount(f) then []
    else
      var rest := PartTracks(f, ch + 1, start);
      var t := NewTrack(Midi, PartAt(f, ch).channel,
                        [Clip(start, 0, PartAt(f, ch).length, 1.0, 0, 0, 0, 0, None, MidiData(f.path, [], 0, ch, 0))]);
      if PartAt(f, ch).length > 0 then [t] + rest else rest
  }

  /** The new tracks of all files, file after file; files that do not open are skipped. */
  function FileTracks(files: seq<SourceFile>, start: nat): seq<NewTrack> {
    if |files| == 0 then []
    else
      var here := if files[0].opens then PartTracks(files[0], 0, start) else [];
      here + FileTracks(files[1..], start)
  }

  /** How many of the track-channels `ch` and up of `f` are kept. */
  function KeptFrom(f: SourceFile, ch: nat): nat
    decreases PartCount(f) - ch
  {
    if ch >= PartCount(f) then 0
    else (if Kept(f, ch) then 1 else 0) + KeptFrom(f, ch + 1)
  }

  /** How many track-channels are kept over all the files. */
  function KeptCount(files: seq<SourceFile>): nat {
    if |files| == 0 then 0 else KeptFrom(files[0], 0) + KeptCount(files[1..])
  }

  /** A file that opens makes one track per kept track-channel. */
  lemma {:induction false} PartTracksCount(f: SourceFile, ch: nat, start: nat)
    ensures |if f.opens then PartTracks(f, ch, start) else []| == KeptFrom(f, ch)
    decreases PartCount(f) - ch
  {
    if ch < PartCount(f) {
      PartTracksCount(f, ch + 1, start);
    }
  }

  /** One track per kept track-channel, over all the files. */
  lemma {:induction false} FileTracksCount(files: seq<SourceFile>, start: nat)
    ensures |FileTracks(files, start)| == KeptCount(files)
  {
    if |files| > 0 {
      PartTracksCount(files[0], 0, start);
      FileTracksCount(files[1..], start);
    }
  }

  /**
    Within a file, the track of kept track-channel `c` comes after those of
    the kept track-channels below it.
   */
  lemma {:induction false} PartTracksAt(f: SourceFile, ch: nat, start: nat, c: nat)
    requires ch <= c && Kept(f, c)
    ensures KeptFrom(f, c) <= KeptFrom(f, ch)
    ensures KeptFrom(f, ch) - KeptFrom(f, c) < |PartTracks(f, ch, start)|
    ensures MakesTrack(PartTracks(f, ch, start)[KeptFrom(f, ch) - KeptFrom(f, c)], f, c, start)
    decreases PartCount(f) - ch
  {
    if ch < c {
      PartTracksAt(f, ch + 1, start, c);
      var k := KeptFrom(f, ch + 1) - KeptFrom(f, c);
      if PartAt(f, ch).length > 0 {
        assert PartTracks(f, ch, start)[k + 1] == PartTracks(f, ch + 1, start)[k];
      } else {
        assert PartTracks(f, ch, start)[k] == PartTracks(f, ch + 1, start)[k];
      }
    }
  }

  /** The tracks come file by file, and within a file channel by channel. */
  lemma {:induction false} FileTracksAt(files: seq<SourceFile>, start: nat, i: nat, c: nat)
    requires i < |files| && Kept(files[i], c)
    ensures KeptFrom(files[i], c) <= KeptFrom(files[i], 0)
    ensures var k := KeptCount(files[..i]) + (KeptFrom(files[i], 0) - KeptFrom(files[i], c));
      k < |FileTracks(files, start)| && MakesTrack(FileTracks(files, start)[k], files[i], c, start)
  {
    var here := if files[0].opens then PartTracks(files[0], 0, start) else [];
    PartTracksCount(files[0], 0, start);
    if i == 0 {
      assert files[..0] == [];
      PartTracksAt(files[0], 0, start, c);
      var k := KeptFrom(files[0], 0) - KeptFrom(files[0], c);
      assert FileTracks(files, start)[k] == here[k];
    } else {
      assert files[i] == files[1..][i - 1];
      FileTracksAt(files[1..], start, i - 1, c);
      assert files[..i][1..] == files[1..][..i - 1];
      var k := KeptCount(files[1..][..i - 1]) + (KeptFrom(files[i], 0) - KeptFrom(files[i], c));
      assert FileTracks(files, start)[|here| + k] == FileTracks(files[1..], start)[k];
    }
  }

  /** Every track of a file comes from a kept track-channel of it. */
  lemma {:induction false} PartTracksSound(f: SourceFile, ch: nat, start: nat, k: nat)
    requires f.opens && k < |PartTracks(f, ch, start)|
    ensures exists c :: ch <= c && Kept(f, c) && MakesTrack(PartTracks(f, ch, start)[k], f, c, start)
    decreases PartCount(f) - ch
  {
    if PartAt(f, ch).length > 0 {
      if k == 0 {
        assert Kept(f, ch) && MakesTrack(PartTracks(f, ch, start)[k], f, ch, start);
      } else {
        PartTracksSound(f, ch + 1, start, k - 1);
      }
    } else {
      PartTracksSound(f, ch + 1, start, k);
    }
  }

  /** Every kept track-channel of a file yields a track. */
  lemma {:induction false} PartTracksComplete(f: SourceFile, ch: nat, start: nat, c: nat)
    requires ch <= c && Kept(f, c)
    ensures exists k :: 0 <= k < |PartTracks(f, ch, start)| && MakesTrack(PartTracks(f, ch, start)[k], f, c, start)
    decreases PartCount(f) - ch
  {
    if c == ch {
      assert MakesTrack(PartTracks(f, ch, start)[0], f, c, start);
    } else {
      PartTracksComplete(f, ch + 1, start, c);
      var k :| 0 <= k < |PartTracks(f, ch + 1, start)| && MakesTrack(PartTracks(f, ch + 1, start)[k], f, c, start);
      if PartAt(f, ch).length > 0 {
        assert PartTracks(f, ch, start)[k + 1] == PartTracks(f, ch + 1, start)[k];
      } else {
        assert PartTracks(f, ch, start)[k] == PartTracks(f, ch + 1, start)[k];
      }
    }
  }

  lemma {:induction false} FileTracksSound(files: seq<SourceFile>, start: nat, k: nat)
    requires k < |FileTracks(files, start)|
    ensures FromKept(FileTracks(files, start)[k], files, start)
  {
    var here := if files[0].opens then PartTracks(files[0], 0, start) else [];
    if k < |here| {
      PartTracksSound(files[0], 0, start, k);
      var c :| Kept(files[0], c) && MakesTrack(here[k], files[0], c, start);
      assert MakesTrack(FileTracks(files, start)[k], files[0], c, start);
    } else {
      FileTracksSound(files[1..], start, k - |here|);
      var i, c :| 0 <= i < |files[1..]| && Kept(files[1..][i], c)
                  && MakesTrack(FileTracks(files[1..], start)[k - |here|], files[1..][i], c, start);
      assert MakesTrack(FileTracks(files, start)[k], files[i + 1], c, start);
    }
  }

  lemma {:induction false} FileTracksComplete(files: seq<SourceFile>, start: nat, i: nat, c: nat)
    requires i < |files| && Kept(files[i], c)
    ensures Yields(FileTracks(files, start), files[i], c, start)
  {
    var here := if files[0].opens then PartTracks(files[0], 0, start) else [];
    if i == 0 {
      PartTracksComplete(files[0], 0, start, c);
      var k :| 0 <= k < |here| && MakesTrack(here[k], files[0], c, start);
      assert FileTracks(files, start)[k] == here[k];
    } else {
      assert files[i] == files[1..][i - 1];
      FileTracksComplete(files[1..], start, i - 1, c);
      var k :| 0 <= k < |FileTracks(files[1..], start)| && MakesTrack(FileTracks(files[1..], start)[k], files[i], c, start);
      assert FileTracks(files, start)[|here| + k] == FileTracks(files[1..], start)[k];
    }
  }

  /**
    Import MIDI files as new tracks, one per non-empty SMF track (format 1)
    or channel (format 0) of every file that opens. Every clip starts at
    `start` snapped to the tick grid (the frame of its tick, which never
    lies after it). `None` (nothing executed) when no track was kept.
   */
  function AddMidiTracks(files: seq<SourceFile>, start: nat, ts: TimeScale): (r: Option<seq<NewTrack>>)
    requires ts.Valid()
    ensures var snapped := ts.FrameFromTick(ts.TickFromFrame(start));
      && snapped <= start
      && (r.Some? <==> AnyKept(files))
      && (r.Some? ==> |r.value| == KeptCount(files) > 0)
      && (r.Some? ==> forall k :: 0 <= k < |r.value| ==> FromKept(r.value[k], files, snapped))
      && (r.Some? ==> forall i, c :: 0 <= i < |files| && Kept(files[i], c) ==> Yields(r.value, files[i], c, snapped))
  {
    var snapped := ts.FrameFromTick(ts.TickFromFrame(start));
    FrameTickRoundTrip(ts, start);
    var tracks := FileTracks(files, snapped);
    AllFileTracks(files, snapped);
    FileTracksCount(files, snapped);
    if |tracks| == 0 then None else Some(tracks)
  }

  /** Both directions of the keep rule, for every track and every track-channel. */
  lemma {:induction false} AllFileTracks(files: seq<SourceFile>, start: nat)
    ensures forall k :: 0 <= k < |FileTracks(files, start)| ==> FromKept(FileTracks(files, start)[k], files, start)
    ensures forall i, c :: 0 <= i < |files| && Kept(files[i], c) ==> Yields(FileTracks(files, start), files[i], c, start)
    ensures |FileTracks(files, start)| > 0 <==> AnyKept(files)
  {
    var tracks := FileTracks(files, start);
    forall k | 0 <= k < |tracks|
      ensures FromKept(tracks[k], files, start)
    {
      FileTracksSound(files, start, k);
    }
    forall i, c | 0 <= i < |files| && Kept(files[i], c)
      ensures Yields(tracks, files[i], c, start)
    {
      FileTracksComplete(files, start, i, c);
    }
    if |tracks| > 0 {
      FileTracksSound(files, start, 0);
    }
    if AnyKept(files) {
      var i, c :| 0 <= i < |files| && Kept(files[i], c);
      FileTracksComplete(files, start, i, c);
    }
  }

  /**
    The order of the new MIDI tracks: file by file, and within a file
    channel by channel. The track of kept track-channel `c` of file `i`
    follows the tracks of the files before it and those of the kept
    track-channels of the same file below `c`.
   */
  lemma AddMidiTracksInOrder(files: seq<SourceFile>, start: nat, ts: TimeScale, i: nat, c: nat)
    requires ts.Valid() && i < |files| && Kept(files[i], c)
    ensures AddMidiTracks(files, start, ts).Some?
    ensures KeptFrom(files[i], c) <= KeptFrom(files[i], 0)
    ensures var tracks := AddMidiTracks(files, start, ts).value;
      var k := KeptCount(files[..i]) + (KeptFrom(files[i], 0) - KeptFrom(files[i], c));
      k < |tracks| && MakesTrack(tracks[k], files[i], c, ts.FrameFromTick(ts.TickFromFrame(start)))
  {
    FileTracksAt(files, ts.FrameFromTick(ts.TickFromFrame(start)), i, c);
  }
}
