/**
  The session time scale, reduced to a single tempo.

  The session converts between sample frames (audio time) and MIDI ticks
  (musical time) through a tempo map. This model keeps one tempo node for
  the whole session: `bpm` beats per minute at `sampleRate` frames per second
  and `ticksPerBeat` ticks per beat. Both conversions round down; the
  tempo node's own conversion code is not part of this model, so the
  rounding is a choice of the model.
 */
module Time {

  datatype TimeScale = TimeScale(sampleRate: nat, bpm: nat, ticksPerBeat: nat) {

    predicate Valid() {
      sampleRate > 0 && bpm > 0 && ticksPerBeat > 0
    }

    /** Ticks per minute: the numerator of the frame-to-tick ratio. */
    function TickRate(): nat {
      bpm * ticksPerBeat
    }

    /** Frames per minute: the denominator of the frame-to-tick ratio. */
    function FrameRate(): nat {
      60 * sampleRate
    }

    function TickFromFrame(frame: nat): nat
      requires Valid()
    {
      Scale(frame, TickRate(), FrameRate())
    }

    function FrameFromTick(tick: nat): nat
      requires Valid()
    {
      PositiveProduct(bpm, ticksPerBeat);
      Scale(tick, FrameRate(), TickRate())
    }
  }

  /** `x` scaled by the ratio `num / den`, rounded down. */
  function Scale(x: nat, num: nat, den: nat): nat
    requires den > 0
  {
    x * num / den
  }

  lemma PositiveProduct(a: nat, b: nat)
    requires a > 0 && b > 0
    ensures a * b > 0
  {
    MulMonotone(1, a, b);
  }

  lemma {:induction false} MulMonotone(a: nat, b: nat, d: nat)
    requires a <= b
    ensures a * d <= b * d
  {
    var k := b - a;
    assert b * d == a * d + k * d;
  }

  /** `MulMonotone` as an implication, for use where the order is not yet known. */
  lemma MulMonotoneIf(a: nat, b: nat, d: nat)
    ensures a <= b ==> a * d <= b * d
  {
    if a <= b {
      MulMonotone(a, b, d);
    }
  }

  /** Multiplying by a positive factor reflects strict order back. */
  lemma LessCancel(a: nat, b: nat, n: nat)
    requires n > 0 && a * n < b * n
    ensures a < b
  {
    MulMonotoneIf(b, a, n);
  }

  /** Integer division by a positive divisor does not reverse order. */
  lemma {:induction false} DivMonotone(x: nat, y: nat, d: nat)
    requires x <= y && d > 0
    ensures x / d <= y / d
  {
    var qx, qy := x / d, y / d;
    assert qx * d <= x;
    assert y < qy * d + d;
    MulMonotoneIf(qy + 1, qx, d);
  }

  /** A later frame never maps to an earlier tick. */
  lemma TickFromFrameMonotone(ts: TimeScale, a: nat, b: nat)
    requires ts.Valid() && a <= b
    ensures ts.TickFromFrame(a) <= ts.TickFromFrame(b)
  {
    ScaleMonotone(a, b, ts.TickRate(), ts.FrameRate());
  }

  /** A later tick never maps to an earlier frame. */
  lemma FrameFromTickMonotone(ts: TimeScale, a: nat, b: nat)
    requires ts.Valid() && a <= b
    ensures ts.FrameFromTick(a) <= ts.FrameFromTick(b)
  {
    PositiveProduct(ts.bpm, ts.ticksPerBeat);
    ScaleMonotone(a, b, ts.FrameRate(), ts.TickRate());
  }

  lemma {:induction false} ScaleMonotone(a: nat, b: nat, num: nat, den: nat)
    requires a <= b && den > 0
    ensures Scale(a, num, den) <= Scale(b, num, den)
  {
    MulMonotone(a, b, num);
    DivMonotone(a * num, b * num, den);
  }

  /**
    Converting a frame to ticks and back never moves it later: both
    conversions round down, so the round trip lands on or before the frame.
   */
  lemma {:induction false} FrameTickRoundTrip(ts: TimeScale, frame: nat)
    requires ts.Valid()
    ensures ts.FrameFromTick(ts.TickFromFrame(frame)) <= frame
  {
    var n, d := ts.TickRate(), ts.FrameRate();
    PositiveProduct(ts.bpm, ts.ticksPerBeat);
    ScaleBack(frame, n, d);
  }

  lemma {:induction false} ScaleBack(x: nat, n: nat, d: nat)
    requires n > 0 && d > 0
    ensures Scale(Scale(x, n, d), d, n) <= x
  {
    var t := Scale(x, n, d);
    DivFloor(x * n, d);
    assert t * d <= x * n;
    DivMonotone(t * d, x * n, n);
    MulDivCancel(x, n);
  }

  lemma DivFloor(a: nat, d: nat)
    requires d > 0
    ensures (a / d) * d <= a
  {
  }

  lemma MulDivCancel(x: nat, n: nat)
    requires n > 0
    ensures x * n / n == x
  {
    var q := x * n / n;
    DivFloor(x * n, n);
    assert x * n < q * n + n;
    MulMonotoneIf(q + 1, x, n);
    MulMonotoneIf(x + 1, q, n);
  }
}
