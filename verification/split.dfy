/**
  Splitting a clip at the play-head (qtractorTracks::splitClip).

  The clip keeps its left part `[start, playHead)` through a move operation;
  when the clone can be made, it receives the right part `[playHead, end)` with its source offset
  advanced by the same amount, so every frame still plays the same source
  frame as before. The clone inherits the fade-out length; it does not
  inherit the fade-in.
 */
module Split {
  import opened Clips

  /** The right-hand piece: a clone of `c` starting at `playHead`. */
  function RightClone(c: Clip, playHead: nat): (r: Clip)
    requires c.start <= playHead <= c.End()
    ensures r.start == playHead && r.End() == c.End()
    ensures r.offset == c.offset + (playHead - c.start)
    ensures r.fadeIn == 0 && r.fadeOut == c.fadeOut
    ensures r.gain == c.gain && r.data == c.data && r.track == c.track
  {
    c.(start := playHead,
       offset := c.offset + (playHead - c.start),
       length := c.End() - playHead,
       fadeIn := 0,
       selectStart := 0,
       selectEnd := 0)
  }

  /**
    The split command: a move of the original onto its left part and, when
    the clone could be made (`cloned`), the addition of the right clone. No
    command unless the play-head lies strictly inside the clip. Without the
    clone the move still runs, so the frames from the play-head on are no
    longer covered by anything the command leaves.
   */
  function SplitClip(c: Clip, playHead: nat, cloned: bool): (r: Option<ClipCommand>)
    ensures r.Some? <==> c.start < playHead < c.End()
    ensures r.Some? ==>
      && |r.value| == (if cloned then 2 else 1)
      && r.value[0].MoveClip? && Target(r.value[0]) == c
      && Outcome(r.value[0]).Some?
      && var left := Outcome(r.value[0]).value;
         left.start == c.start && left.offset == c.offset && left.End() == playHead
    ensures r.Some? && cloned ==>
      && r.value[1].AddClip?
      && Outcome(r.value[1]).Some?
      && Tiles(Outcome(r.value[0]).value, Outcome(r.value[1]).value, c)
      && var left := Outcome(r.value[0]).value;
         var right := Outcome(r.value[1]).value;
         && left.End() == right.start
         && right.offset == left.offset + left.length
         && right.fadeOut == c.fadeOut && right.fadeIn == 0
    ensures r.Some? && !cloned ==>
      forall f: nat :: playHead <= f < c.End() ==> c.Covers(f) && !Outcome(r.value[0]).value.Covers(f)
  {
    if c.start >= playHead || playHead >= c.End() then
      None
    else
      var move := MoveClip(c, c.start, c.offset, playHead - c.start);
      if cloned then
        var cmd := [move, AddClip(RightClone(c, playHead))];
        TilesBySourceFrame(Outcome(cmd[0]).value, Outcome(cmd[1]).value, c);
        Some(cmd)
      else
        Some([move])
  }

  /**
    `left` and `right` together replace `whole`: every frame `whole` covers is
    covered by exactly one of them and plays the same source frame there,
    and neither covers a frame `whole` does not.
   */
  ghost predicate Tiles(left: Clip, right: Clip, whole: Clip) {
    && (forall f: nat :: whole.Covers(f) <==> left.Covers(f) || right.Covers(f))
    && (forall f: nat :: !(left.Covers(f) && right.Covers(f)))
    && (forall f: nat :: left.Covers(f) ==> whole.Covers(f) && left.SourceFrame(f) == whole.SourceFrame(f))
    && (forall f: nat :: right.Covers(f) ==> whole.Covers(f) && right.SourceFrame(f) == whole.SourceFrame(f))
  }

  /** Two abutting pieces with continuous source offsets tile their union. */
  lemma TilesBySourceFrame(left: Clip, right: Clip, whole: Clip)
    requires left.start == whole.start && left.offset == whole.offset
    requires left.End() == right.start && right.End() == whole.End()
    requires right.offset == left.offset + left.length
    ensures Tiles(left, right, whole)
  {
  }
}
