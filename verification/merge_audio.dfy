/**
  The frame bookkeeping of audio merge/export
  (qtractorTracks::mergeExportAudioClips).

  The merged range `[selectStart, selectEnd)` is streamed in windows of
  `bufferSize` frames; every window is written in full except the last,
  which is cut at `selectEnd`. Within a window each clip that overlaps it is
  mixed in at the right place. The sample data itself (reading, mixing with
  gain, writing) is outside this model; what is modelled is which frames go
  where.
 */
module MergeAudio {
  import opened Clips

  /** One write to the output file: `count` frames for timeline frame `start` on. */
  datatype Window = Window(start: nat, count: nat)

  function TotalFrames(ws: seq<Window>): nat {
    if |ws| == 0 then 0 else TotalFrames(ws[..|ws| - 1]) + ws[|ws| - 1].count
  }

  /** The windows are contiguous from `from`, each of at most `size` frames, all but the last full. */
  ghost predicate Contiguous(ws: seq<Window>, from: nat, size: nat) {
    && (|ws| > 0 ==> ws[0].start == from)
    && (forall i :: 0 <= i < |ws| ==> 0 < ws[i].count <= size)
    && (forall i :: 0 <= i < |ws| - 1 ==> ws[i].count == size && ws[i + 1].start == ws[i].start + size)
  }

  /** What the merge loop has written once it reaches window start `frameStart`. */
  ghost predicate WrittenUpTo(ws: seq<Window>, frameStart: nat, selectStart: nat, selectEnd: nat, size: nat) {
    && selectStart <= frameStart
    && Contiguous(ws, selectStart, size)
    && (|ws| == 0 ==> frameStart == selectStart)
    && (size == 0 ==> ws == [])
    && (|ws| > 0 ==>
          && selectStart < selectEnd
          && ws[|ws| - 1].start + ws[|ws| - 1].count == Min(frameStart, selectEnd)
          && (frameStart < selectEnd ==> ws[|ws| - 1].count == size)
          && TotalFrames(ws) == Min(frameStart, selectEnd) - selectStart)
    && (|ws| == 0 ==> TotalFrames(ws) == 0)
  }

  /** The size of the window the loop writes at `frameStart`. */
  function WindowCount(frameStart: nat, selectEnd: nat, size: nat): nat
    requires frameStart < selectEnd
  {
    var frameEnd := frameStart + size;
    if frameEnd > selectEnd then size - (frameEnd - selectEnd) else size
  }

  lemma WrittenStep(ws: seq<Window>, frameStart: nat, selectStart: nat, selectEnd: nat, size: nat)
    requires WrittenUpTo(ws, frameStart, selectStart, selectEnd, size)
    requires frameStart < selectEnd && frameStart + size > selectStart
    ensures WrittenUpTo(ws + [Window(frameStart, WindowCount(frameStart, selectEnd, size))],
                        frameStart + size, selectStart, selectEnd, size)
  {
    var w := Window(frameStart, WindowCount(frameStart, selectEnd, size));
    AppendWindow(ws, w, selectStart, size);
  }

  /**
    The write schedule of the merge loop. It writes exactly the frames of
    `[selectStart, selectEnd)`, in order, in full windows but for the last;
    nothing at all when the range is empty (or the buffer size is 0, which
    stops the loop before its first pass).
   */
  method WriteSchedule(selectStart: nat, selectEnd: nat, bufferSize: nat) returns (ws: seq<Window>)
    ensures Contiguous(ws, selectStart, bufferSize)
    ensures |ws| == 0 <==> selectEnd <= selectStart || bufferSize == 0
    ensures |ws| > 0 ==> ws[|ws| - 1].start + ws[|ws| - 1].count == selectEnd
    ensures TotalFrames(ws) == if selectStart < selectEnd && bufferSize > 0 then selectEnd - selectStart else 0
  {
    ws := [];
    var frameStart := selectStart;
    var frameEnd := frameStart + bufferSize;
    while frameStart < selectEnd && frameEnd > selectStart
      invariant frameEnd == frameStart + bufferSize
      invariant WrittenUpTo(ws, frameStart, selectStart, selectEnd, bufferSize)
      decreases selectEnd - frameStart
    {
      var count := if frameEnd > selectEnd then bufferSize - (frameEnd - selectEnd) else bufferSize;
      assert count == WindowCount(frameStart, selectEnd, bufferSize);
      WrittenStep(ws, frameStart, selectStart, selectEnd, bufferSize);
      ws := ws + [Window(frameStart, count)];
      frameStart := frameEnd;
      frameEnd := frameStart + bufferSize;
    }
    WrittenAll(ws, frameStart, selectStart, selectEnd, bufferSize);
  }

  /** Once the loop stops, the schedule covers the whole range. */
  lemma WrittenAll(ws: seq<Window>, frameStart: nat, selectStart: nat, selectEnd: nat, size: nat)
    requires WrittenUpTo(ws, frameStart, selectStart, selectEnd, size)
    requires !(frameStart < selectEnd && frameStart + size > selectStart)
    ensures |ws| == 0 <==> selectEnd <= selectStart || size == 0
    ensures |ws| > 0 ==> ws[|ws| - 1].start + ws[|ws| - 1].count == selectEnd
    ensures TotalFrames(ws) == if selectStart < selectEnd && size > 0 then selectEnd - selectStart else 0
  {
  }

  lemma AppendWindow(ws: seq<Window>, w: Window, from: nat, size: nat)
    requires Contiguous(ws, from, size)
    requires 0 < w.count <= size
    requires |ws| == 0 ==> w.start == from
    requires |ws| > 0 ==> ws[|ws| - 1].count == size && w.start == ws[|ws| - 1].start + size
    ensures Contiguous(ws + [w], from, size)
    ensures TotalFrames(ws + [w]) == TotalFrames(ws) + w.count
  {
    assert (ws + [w])[..|ws|] == ws;
  }

  function Min(a: nat, b: nat): nat {
    if a <= b then a else b
  }

  /**
    The read-ahead position each clip's buffer is first seeked to: the
    clip-relative frame of `selectStart` when the merge starts strictly
    inside the clip, else the clip's beginning.
   */
  function SeekOffset(c: Clip, selectStart: nat): (r: nat)
    ensures r > 0 ==> c.start < selectStart < c.End() && c.start + r == selectStart
    ensures c.start < selectStart < c.End() ==> c.start + r == selectStart
    ensures r < c.length || r == 0
  {
    if selectStart > c.start && selectStart < c.End() then selectStart - c.start else 0
  }

  /**
    How one clip is mixed into the window `[frameStart, frameEnd)`: `count`
    frames from clip-relative frame `source` on, placed at `dest` frames into
    the window.
   */
  datatype Mix = Mix(dest: nat, source: nat, count: nat)

  /**
    The per-window mixing decision. A clip that starts inside the window is
    mixed from its first frame at its start position; a clip already playing
    at the window start is mixed from the window start. Either way the mix
    runs to the window's end and the frame placed at `dest` is the clip's
    frame `source`. For a clip of positive length, a mix happens exactly when
    the clip and the window overlap, and the mix starts where the overlap
    starts: at the clip's first frame or at the window's.
   */
  function MixSpan(c: Clip, frameStart: nat, frameEnd: nat): (r: Option<Mix>)
    requires frameStart < frameEnd
    ensures r.Some? ==> r.value.dest + r.value.count == frameEnd - frameStart
    ensures r.Some? ==> frameStart + r.value.dest == c.start + r.value.source
    ensures r.Some? ==> r.value.source == 0 || r.value.dest == 0
    ensures r.Some? && c.length > 0 ==> r.value.source < c.length
    ensures c.length > 0 ==> (r.Some? <==> c.start < frameEnd && frameStart < c.End())
  {
    if frameStart < c.start && frameEnd > c.start then
      Some(Mix(c.start - frameStart, 0, frameEnd - c.start))
    else if frameStart >= c.start && frameStart < c.End() then
      Some(Mix(0, frameStart - c.start, frameEnd - frameStart))
    else
      None
  }
}
