# qtractor clip editing, modelled in Dafny

This project models the clip-editing arithmetic of qtractor's track widget
(`qtractorTracks`). The widget is a Qt class, but most of what it does to a
session is plain arithmetic over clips, frames and ticks:

- splitting a clip at the play-head;
- normalizing clip gain to the MIDI velocity peak or the audio sample peak;
- quantizing MIDI event times and note durations to the snap grid;
- merging the selected clips of one track into a single new clip (merge/export):
  - the selection extent;
  - the trim or remove operation each merged clip receives;
  - the audio write-window schedule and per-window mixing;
  - the MIDI event copy into the merged sequence;
- the smaller track rules:
  - zoom clamping;
  - the blank MIDI clip of "new clip";
  - start positions across an import batch;
  - keeping only non-empty MIDI track-channels;
  - bank and program sync between MIDI tracks that share a bus and channel.

Everything is modelled as pure functions over immutable values. An edit is
not applied in place: it is returned as the list of primitive clip
operations the session would execute (`Clips.ClipCommand`), or as the
per-event resize list of a MIDI edit command (`Quantize.MidiEditCommand`).

Modules:

| file | module | contents |
|---|---|---|
| `time.dfy` | `Time` | single-tempo frame/tick conversion and its arithmetic lemmas |
| `clips.dfy` | `Clips` | clips, MIDI events, clip operations |
| `split.dfy` | `Split` | split at the play-head |
| `batch.dfy` | `Batch` | the batch loop shared by normalize and quantize |
| `normalize.dfy` | `Normalize` | peak velocity, gain decisions, the batch command |
| `quantize.dfy` | `Quantize` | grid snapping, the tick range, the edit list, the batch command |
| `merge.dfy` | `Merge` | selection extent, trim operations, the replacement command, dispatch |
| `merge_audio.dfy` | `MergeAudio` | write-window schedule, buffer seek, per-window mix span |
| `merge_midi.dfy` | `MergeMidi` | the event copy into the merged MIDI sequence |
| `tracks.dfy` | `TrackRules` | zoom, MIDI track aliases, new clip, imports, new tracks |

Conventions:

- Frames and ticks are `nat`, standing for the source's `unsigned long`.
- Clip gain is `real`, standing for the source's `float`.
- A MIDI clip's events are a `seq` kept in time order, as the session's sequences keep them.
- The time scale has one tempo node. `TickFromFrame` and `FrameFromTick` both round down. The tempo node's conversion code is not part of this model, so this rounding is the model's choice.

## Model

| member | source | states |
|---|---|---|
| Time.TickFromFrameMonotone | src/qtractorTracks.cpp:1338-1339 | converting the extent to ticks keeps its order, so the merged tick range is never reversed |
| Time.FrameFromTickMonotone | src/qtractorTracks.cpp:402-406 | converting ticks to frames keeps order |
| Time.FrameTickRoundTrip | src/qtractorTracks.cpp:1756-1799 | the frame of a frame's tick never lies after the frame |
| Split.RightClone | src/qtractorTracks.cpp:500-506 | the clone starts at the play-head and ends where the clip ends; its offset advances by the cut; it inherits the fade-out, gain, data and track, and has no fade-in |
| Split.SplitClip | src/qtractorTracks.cpp:486-512 | a command exists exactly when start < play-head < end; the original keeps [start, play-head) with its offset; with a clone, the clone takes [play-head, end) and the two pieces tile the clip with every frame playing the same source frame; without one, only the move is recorded and the frames from the play-head to the end are covered by nothing the command leaves |
| Split.TilesBySourceFrame | src/qtractorTracks.cpp:497-506 | two abutting pieces with continuous offsets cover the clip with no gap or overlap, at the same source frames |
| Normalize.PeakVelocity | src/qtractorTracks.cpp:557-568 | the result bounds every note-on velocity and is attained by a note-on, or is 0 |
| Normalize.ScanPeakVelocity | src/qtractorTracks.cpp:561-567 | the scan loop computes the peak velocity |
| Normalize.MidiGain | src/qtractorTracks.cpp:664-667 | when 0x0c < peak < 0x7f the new gain times the peak equals the old gain times 127; otherwise the gain is kept |
| Normalize.AudioGain | src/qtractorTracks.cpp:652-653 | when 0.01 < peak < 1.1 the new gain times the peak equals the old gain; otherwise the gain is kept |
| Normalize.NormalizeClipCommand | src/qtractorTracks.cpp:607-675 | a gain operation on the clip is recorded exactly when the clip passes the track checks, even when the gain is unchanged; its gain follows the MIDI or audio rule, or is unchanged on an untyped track |
| Batch.Collect | src/qtractorTracks.cpp:584-591 | the batch keeps the results of the clips whose step produced one: as many as there are such clips, each one of the steps' results, none when no step produced anything |
| Batch.CollectComplete | src/qtractorTracks.cpp:691-698 | every result a step produced is kept, at the position given by the number of producing steps before it |
| Normalize.GainOps | src/qtractorTracks.cpp:584-591 | as many operations as there are clips passing the checks; every such clip's operation is in the batch, and every operation is some clip's own step; empty exactly when no clip passes the checks |
| Normalize.GainOpsInOrder | src/qtractorTracks.cpp:584-591 | each clip that passes the checks has its operation at the position given by the number of such clips before it |
| Normalize.NormalizeClip | src/qtractorTracks.cpp:572-604 | the batch runs over the selection, else the current clip; a command exists exactly when some clip passes the checks; it is never empty, and it is the gain operations of exactly those clips |
| Quantize.QuantizeTime | src/qtractorTracks.cpp:771-772 | the snapped time is a multiple of q and lies within q/2 of the time, ties rounding up |
| Quantize.QuantizeTimeNearest | src/qtractorTracks.cpp:772 | no multiple of q is closer to the time than the snapped time |
| Quantize.QuantizeDuration | src/qtractorTracks.cpp:774-775 | the rounded duration is a multiple of q, at least the duration and less than q above it |
| Quantize.QuantizeDurationLeast | src/qtractorTracks.cpp:775 | every multiple of q that covers the duration is at least the rounded duration |
| Quantize.QuantizeEvent | src/qtractorTracks.cpp:768-777 | an event outside the range is untouched; one inside gets a grid time; a note-on gets a rounded-up duration; every other event keeps its duration; kind, note and velocity never change |
| Quantize.QuantizeEvents | src/qtractorTracks.cpp:766-778 | the quantized sequence is the event rule applied position by position |
| Quantize.EditsFrom | src/qtractorTracks.cpp:766-778 | every recorded edit names an event of the sequence at or after the scan position |
| Quantize.ApplyEditsFrom | src/qtractorTracks.cpp:766-778 | replaying the edits recorded from a position on quantizes exactly the events from there on, and keeps the earlier ones |
| Quantize.EditsCount | src/qtractorTracks.cpp:766-778 | the scan records exactly one edit per event in range |
| Quantize.ApplyQuantizeEdits | src/qtractorTracks.cpp:766-778 | replaying all recorded edits yields the quantized sequence, with one edit per event in range |
| Quantize.SelectedWindow | src/qtractorTracks.cpp:739-745 | a selected clip uses its selection, relative to the clip start; otherwise the whole clip |
| Quantize.QuantizeRange | src/qtractorTracks.cpp:754-764 | the range start is the window start's tick distance from the clip start less the sequence offset, clamped at 0 instead of wrapping; the range is as long in ticks as the window |
| Quantize.QuantizeClipCommand | src/qtractorTracks.cpp:713-786 | no command for snap < 1, no track, a non-MIDI track or no sequence; otherwise the edits, replayed, give the quantized sequence, one per event in range |
| Quantize.QuantizeAll | src/qtractorTracks.cpp:691-698 | as many commands as there are clips the step applies to; every such clip's command is in the batch, and every command is some clip's own; empty exactly when no clip qualifies |
| Quantize.QuantizeAllInOrder | src/qtractorTracks.cpp:691-698 | each clip the step applies to has its command at the position given by the number of such clips before it |
| Quantize.QuantizeClip | src/qtractorTracks.cpp:679-710 | the batch runs over the selection, else the current clip; a command exists exactly when some clip qualifies, and is then the commands of exactly those clips; never one when snap < 1 |
| Merge.ExtentStart | src/qtractorTracks.cpp:1075-1082 | the start fold is at most the session length and every selection start, and is one of them |
| Merge.ExtentEnd | src/qtractorTracks.cpp:1076-1082 | the end fold is at least every selection end, and is one of them or 0 |
| Merge.ExtentStep | src/qtractorTracks.cpp:1079-1082 | one more clip lowers the start fold to its selection start, or raises the end fold to its selection end, only when that extends the extent |
| Merge.SelectionExtent | src/qtractorTracks.cpp:1327-1335 | the extent loop computes both folds |
| Merge.ExtentCoversSelection | src/qtractorTracks.cpp:1075-1085 | for a non-empty, well-formed selection the extent is ordered and contains every clip's selection |
| Merge.TrimOp | src/qtractorTracks.cpp:1203-1229 | each clip gets one resize or remove; removal exactly when the clip lies inside the extent; a remnant is non-empty, inside the clip, outside the extent and plays the same source frames; it is the left part when the clip starts before the extent, else the right part |
| Merge.TrimKeepsFootprint | src/qtractorTracks.cpp:1209-1229 | unless the clip sticks out on both sides, every frame it covered is in the extent or in its remnant |
| Merge.TrimDropsRightOfStraddlingClip | src/qtractorTracks.cpp:1209-1216 | a clip sticking out on both sides loses its frames after the extent: neither its remnant nor the merged clip covers them |
| Merge.MergedClip | src/qtractorTracks.cpp:1232-1236 | the merged clip spans exactly the extent from source offset 0 |
| Merge.TrimOps | src/qtractorTracks.cpp:1200-1230 | one trim operation per selected clip, in selection order |
| Merge.MergeCommand | src/qtractorTracks.cpp:1198-1237 | the command is one resize or remove per clip, targeting it, followed by one clip addition and no other addition |
| Merge.MergeReplacement | src/qtractorTracks.cpp:1436-1443 | the replacement is the trim operations against the ordered extent, then a new clip over exactly the extent |
| Merge.MergeClips | src/qtractorTracks.cpp:909-961 | a command exists exactly when the selection is non-empty, on a single track that is MIDI or audio with an output bus, and the output file was prepared; it is the replacement |
| MergeAudio.WrittenStep | src/qtractorTracks.cpp:1160-1168 | each pass writes the next window of the range, full unless it reaches the range end |
| MergeAudio.WriteSchedule | src/qtractorTracks.cpp:1122-1174 | the windows are contiguous from the range start, full but for the last, which ends at the range end; the frames written total the range length; nothing is written for an empty range or a zero buffer |
| MergeAudio.WrittenAll | src/qtractorTracks.cpp:1128 | once the loop condition fails, the windows written end at the range end and total its length, or nothing was written for an empty range or zero buffer |
| MergeAudio.SeekOffset | src/qtractorTracks.cpp:1112-1118 | a clip is first seeked to the range start when that lies strictly inside it, else to its beginning |
| MergeAudio.MixSpan | src/qtractorTracks.cpp:1141-1158 | a clip is mixed into a window exactly when they overlap; the mix starts where the overlap starts, at the clip's first frame or the window's, and runs to the window end; the frame placed at a window position is the clip's frame at the same timeline position |
| MergeMidi.DropBefore | src/qtractorTracks.cpp:1399-1402 | the skip loop drops a prefix of events that all start before the range, and stops at one that does not |
| MergeMidi.TakeBefore | src/qtractorTracks.cpp:1403-1419 | the copy loop takes a prefix of events that all start before the range end, and stops at one that does not |
| MergeMidi.CopiedAreInWindow | src/qtractorTracks.cpp:1399-1419 | on a time-ordered sequence the two loops pick exactly the events inside the range, in order |
| MergeMidi.ScaledVelocity | src/qtractorTracks.cpp:1409-1413 | the scaled velocity is at most 127; it equals the scaled value when that is below 128, and the scaled value less 128 when that is from 128 to 255, because the mask wraps |
| MergeMidi.LoudNoteWraps | src/qtractorTracks.cpp:1412-1413 | a velocity-64 note copied at gain 2 gets velocity 0, and a velocity-100 note gets 72 |
| MergeMidi.CopyEvent | src/qtractorTracks.cpp:1404-1416 | a copy is re-timed relative to the range start and lies in the range; a note-on gets the scaled velocity, ends by the range end, and keeps its duration when it already did; other events keep velocity and duration |
| MergeMidi.CopyAll | src/qtractorTracks.cpp:1403-1419 | the copies are the per-event copy applied position by position |
| MergeMidi.ClipCopies | src/qtractorTracks.cpp:1391-1420 | a MIDI clip contributes the copies of exactly its events inside the range; other clips contribute nothing |
| MergeMidi.ClipCopiesFit | src/qtractorTracks.cpp:1404-1416 | every copy lies in the range and every copied note ends by its end with velocity at most 127 |
| MergeMidi.MergeEvents | src/qtractorTracks.cpp:1358-1421 | the merged sequence is, as a multiset, the copies of all clips together, so each copy appears as often as the clips produce it; every copy of every clip is in it, every event in it is some clip's copy, and it fits the range |
| MergeMidi.MidiMergeSequence | src/qtractorTracks.cpp:1326-1421 | the tick range of the extent is ordered; the merged sequence is, as a multiset, the copies of the selected clips, and it fits the range |
| MergeMidi.WrappedOffsetAgrees | src/qtractorTracks.cpp:1395-1406 | the 64-bit wrapped offset plus the event time wraps back to the event's time relative to the range start |
| TrackRules.ZoomStep | src/qtractorTracks.cpp:155-195 | the stepped zoom is clamped to the bounds, and nothing changes when the clamped value equals the current one |
| TrackRules.ZoomSaturates | src/qtractorTracks.cpp:160-168 | once a step lands on a bound, another step the same way changes nothing |
| TrackRules.UpdateMidiTrack | src/qtractorTracks.cpp:1909-1932 | every other MIDI track on the same bus and channel takes the edited track's bank-select method, bank and program; all other tracks and all other fields are unchanged |
| TrackRules.UpdateMidiTrackIdempotent | src/qtractorTracks.cpp:1918-1931 | running the sync a second time changes nothing |
| TrackRules.AliasesShareOnePatch | src/qtractorTracks.cpp:1918-1931 | after the sync the edited track and all its aliases agree pairwise on the patch |
| TrackRules.NewClip | src/qtractorTracks.cpp:360-454 | on the current (else first) track: nothing for no or untyped track; an audio prototype at the edit head for the dialog; a blank MIDI clip at the edit head, up to the edit tail or one bar long, on the channel its format asks for, at revision 1 |
| TrackRules.NewClipDefaultLengthIsOneBar | src/qtractorTracks.cpp:402-406 | the default MIDI length converts back to at most one bar of ticks and grows with the bar |
| TrackRules.Imported | src/qtractorTracks.cpp:819-895 | an audio track imports every file; a MIDI track exactly the files that open, as many as open; an untyped track none |
| TrackRules.ImportedInOrder | src/qtractorTracks.cpp:819-895 | a MIDI import keeps list order: each file that opens sits at the position given by the number of opening files before it |
| TrackRules.ImportRun | src/qtractorTracks.cpp:819-895 | one clip per imported file, end to end from the import start, on the track, reading the file; MIDI clips read the track's channel plus one for a format 1 file |
| TrackRules.ImportClips | src/qtractorTracks.cpp:790-898 | nothing for no files; new audio tracks when the session has no track; else one clip addition per imported file, end to end |
| TrackRules.AudioClipAt | src/qtractorTracks.cpp:1687-1689 | the clip reads the file at the given start |
| TrackRules.SpanClips | src/qtractorTracks.cpp:1686-1698 | with drop-span on, the files become clips end to end from the start |
| TrackRules.AddAudioTracks | src/qtractorTracks.cpp:1637-1726 | nothing for no files; with drop-span on, one track holds the files end to end, each clip as long as its file, so each starts where the previous one ended; with it off, one track per file, every clip at the start with its file's length |
| TrackRules.PartTracksSound | src/qtractorTracks.cpp:1775-1816 | every track made from one file comes from a non-empty track-channel of it |
| TrackRules.PartTracksComplete | src/qtractorTracks.cpp:1775-1816 | every non-empty track-channel of a file yields a track |
| TrackRules.FileTracksSound | src/qtractorTracks.cpp:1766-1816 | every new track comes from a non-empty track-channel of a file that opens |
| TrackRules.FileTracksComplete | src/qtractorTracks.cpp:1766-1816 | every non-empty track-channel of a file that opens yields a track |
| TrackRules.AllFileTracks | src/qtractorTracks.cpp:1766-1816 | both directions of the keep rule at once; some track is made exactly when some track-channel is kept |
| TrackRules.AddMidiTracks | src/qtractorTracks.cpp:1730-1843 | a track is made for exactly the non-empty track-channels, one each, (SMF tracks for format 1, 16 channels otherwise) of the files that open, each clip at the snapped start, never after the given start; nothing when none is kept |
| TrackRules.FileTracksCount | src/qtractorTracks.cpp:1766-1816 | one track per non-empty track-channel of a file that opens: as many tracks as there are kept track-channels |
| TrackRules.FileTracksAt | src/qtractorTracks.cpp:1766-1816 | tracks come file by file and channel by channel: a kept track-channel's track sits after the tracks of the earlier files and of the file's lower channels |
| TrackRules.AddMidiTracksInOrder | src/qtractorTracks.cpp:1730-1843 | the command adds, for each kept track-channel, its track at the position given by the kept track-channels before it, with its clip at the snapped start |

## Left out

- Qt user interface: layout, dialogs, progress bar, cursors, message log, track colours and names. Widget plumbing with no arithmetic.
- File I/O: opening, reading and writing audio and MIDI files, tempo-map export, and the SMF header. Whatever opening a file would report is an input (`TrackRules.SourceFile`, `Merge.ExportEnv`), and so is the name the user picks.
- Audio sample work: buffer setup, `seek`, `inSync`, `readMix`, and the floating-point sample scan of audio normalize (src/qtractorTracks.cpp:527-553). Only the frame bookkeeping is modelled. The audio peak is a parameter of `Normalize.NormalizeClipCommand`.
- The tempo map is reduced to one tempo node (`Time.TimeScale`). The map's cursor lookups are not part of this model.
- Session lock, `execute`, undo history and `stabilize`. Commands are returned, and "executed" means "not `None`".
- Normalize.NormalizeClipCommand: the peak is taken over the whole MIDI sequence, not only the selected part of the clip. `clipExport`, which restricts the scan to the selection, is not part of this model.
- Normalize.Normalizable: a clip whose data kind does not match its track's kind is refused. The source uses an unchecked cast there, so such a clip cannot arise in a consistent session.
- Split.RightClone: `cloneClip` is not part of this model. The clone copies the clip, has no fade-in, and has its selection cleared. Whether the clone could be made is the `cloned` input of `Split.SplitClip`.
- Quantize.QuantizeClipCommand: requires `snapPerBeat <= ticksPerBeat`, so the grid step `q` is positive. With a larger snap, `q` is 0. The source then divides by zero at the first event inside the range (lines 769-772). When no event lies in the range, it records an empty edit and returns true. The model covers neither case.
- Quantize.QuantizeClipCommand: the revision reset to 0 (line 781) is not modelled.
- MergeMidi.ClipCopies: requires every MIDI clip's events in time order, as the session's sequences keep them. The skip loop (lines 1401-1402) passes over leading events before the range and stops at the first that is not. On an unordered sequence, later events before the range then reach the copy loop, which copies them too.
- MergeMidi.MergeEvents: gives the copies in insertion order, clip after clip. The time-ordered insertion of `insertEvent` is not part of this model.
- MergeMidi.CopyEvent: scales velocity by the clip's constant gain. The per-frame gain envelope (fades) is not modelled.
- MergeMidi.CopyEvent: computes in unbounded integers. The source's 64-bit wrap of `iTimeClip - iTimeStart` is shown harmless by `MergeMidi.WrappedOffsetAgrees`.
- MergeMidi.ScaledVelocity: models the float-to-byte cast as floor, then modulo 256. The source's cast is undefined for values outside the byte range.
- MergeMidi.MidiMergeSequence: the SMF format, track count and the merged sequence's channel, bank and program are file-header matters and are left out.
- Time.FrameTickRoundTrip: floor rounding in both conversions is an assumption of the model, not a property of the source's tempo node. The same holds for the snapped start of `TrackRules.AddMidiTracks` never lying after the given start, and for `TrackRules.NewClipDefaultLengthIsOneBar`, whose bound on the default MIDI length rests on the same floor rounding.
- TrackRules.ZoomStep: `ZoomMin` and `ZoomMax` are declared in a header that is not part of this model, so they are parameters. The time-scale and session-length refresh after a horizontal step is left out.
- TrackRules.UpdateMidiTrack: the MIDI bus patch update after the sync (from line 1934) calls into the MIDI engine, which is not part of this model.
- TrackRules.ImportRun: a clip's length is the length its file reports. The source learns it by opening every file but the last, which affects no start.
- TrackRules.AddMidiTracks: the session flag of the first imported track-channel (line 1788) is not modelled.
- addMidiTrackChannel (src/qtractorTracks.cpp:1847-1905) imports one given track-channel with no keep rule. It is not one of the rules modelled here.
- src/qtractorLv2Plugin.h declares LV2 plugin hosting over foreign C APIs. It has no logic to model.

The merge's trimming is modelled as written. A clip that sticks out of the extent on both sides gets only its left remnant, so its frames after the extent disappear from the track. `Merge.TrimDropsRightOfStraddlingClip` states this. A selection extent computed from clips' selections normally contains each selected clip; only a clip whose selection covers just its middle straddles it.
