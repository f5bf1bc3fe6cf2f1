/** Window-based DCTCP in fixed-point arithmetic: fractions are 32-bit numbers over 2^32 - 1. */
module Dctcp {
  import opened Words

  const MSS: uint32 := 1400
  const ONE: uint32 := 0xFFFF_FFFF       // the fixed-point 1
  const LIMIT_64 := 0x1_0000_0000_0000_0000

  /** Counters of one control interval. */
  datatype Stats = Stats(drops: uint32, ecnBytes: uint32, ackBytes: uint32)

  function Clamp(win: uint32, txLen: uint32): uint32 {
    var w := if win < MSS then MSS else win;
    if w > txLen then txLen else w
  }

  /** Add `n` unless the 32-bit sum wraps or stays the same. */
  function Grow(win: uint32, n: uint32): uint32 {
    if Add(win, n) > win then Add(win, n) else win
  }

  /** The marked fraction of the acknowledged bytes. */
  function Sample(s: Stats): uint32
    requires s.ackBytes > 0
  {
    FractionBound(Min(s.ecnBytes, s.ackBytes), s.ackBytes);
    (Min(s.ecnBytes, s.ackBytes) * ONE) / s.ackBytes
  }

  lemma FractionBound(a: nat, b: nat)
    requires a <= b && b > 0
    ensures 0 <= (a * ONE) / b <= ONE
  {
    assert a * ONE <= b * ONE;
    DivBound(a * ONE, b, 0, ONE);
  }

  lemma DivBound(x: int, d: nat, lo: int, hi: int)
    requires d > 0 && lo * d <= x <= hi * d
    ensures lo <= x / d <= hi
  {
    var q := x / d;
    assert x == q * d + x % d && 0 <= x % d < d;
    assert (q + 1) * d == q * d + d && (hi + 1) * d == hi * d + d;
    Cancel(lo, q + 1, d);
    Cancel(q, hi + 1, d);
  }

  lemma Cancel(a: int, b: int, d: nat)
    requires a * d < b * d
    ensures a < b
  {
  }

  lemma Distribute(a: int, x: int, y: int)
    ensures a * x + a * y == a * (x + y)
  {
  }

  lemma Scale(a: int, b: int, d: nat)
    requires a <= b
    ensures a * d <= b * d
  {
  }

  /** The exponentially weighted average of the marked fraction. */
  function Ewma(old': uint32, sample: uint32, weight: uint32): uint32 {
    EwmaBetween(old', sample, weight);
    (sample * weight + old' * (ONE - weight)) / ONE
  }

  /** The average lies between its old value and the sample, and no product or sum on the way
      exceeds 64 bits. */
  lemma EwmaBetween(old': uint32, sample: uint32, weight: uint32)
    ensures sample * weight + old' * (ONE - weight) < LIMIT_64
    ensures Min(old', sample) <= (sample * weight + old' * (ONE - weight)) / ONE <= Max(old', sample)
  {
    var lo, hi := Min(old', sample), Max(old', sample);
    var rest := ONE - weight;
    Scale(lo, sample, weight);
    Scale(sample, hi, weight);
    Scale(lo, old', rest);
    Scale(old', hi, rest);
    Distribute(lo, weight, rest);
    Distribute(hi, weight, rest);
    Scale(hi, ONE, ONE);
    DivBound(sample * weight + old' * rest, ONE, lo, hi);
  }

  /** The window reduced by half the marked fraction. */
  function Cut(win: uint32, ecn: uint32): uint32 {
    CutBounds(win, ecn);
    (win * (ONE - ecn / 2)) / ONE
  }

  /** A cut leaves between half and all of the window, in 64-bit arithmetic. */
  lemma CutBounds(win: uint32, ecn: uint32)
    ensures win * (ONE - ecn / 2) < LIMIT_64
    ensures win / 2 <= (win * (ONE - ecn / 2)) / ONE <= win
  {
    var f := ONE - ecn / 2;
    Scale(0x8000_0000, f, win);
    Scale(f, ONE, win);
    assert (win / 2) * ONE <= 0x8000_0000 * win;
    DivBound(win * f, ONE, win / 2, win);
  }

  /** One segment per window of acknowledged bytes. */
  function Increment(s: Stats, win: uint32): (incr: uint32)
    requires win >= MSS
  {
    IncrementBound(s.ackBytes, win);
    (s.ackBytes * MSS) / win
  }

  lemma IncrementBound(acked: uint32, win: uint32)
    requires win >= MSS
    ensures acked * MSS < LIMIT_64 && 0 <= (acked * MSS) / win <= acked
  {
    Scale(MSS, win, acked);
    DivBound(acked * MSS, win, 0, acked);
  }

  datatype Control = Control(window: uint32, ecnRate: uint32, slowStart: bool, rexmits: uint32)

  predicate Congested(c: Control, s: Stats) {
    s.drops > 0 || s.ecnBytes > 0 || c.rexmits > 0
  }

  /** The averaged marked fraction after an interval. */
  function EcnAfter(c: Control, s: Stats, weight: uint32): uint32 {
    if (c.slowStart && !Congested(c, s)) || s.drops > 0 || c.rexmits > 0 || s.ackBytes == 0 then c.ecnRate
    else Ewma(c.ecnRate, Sample(s), weight)
  }

  /** The window after an interval, before it is clamped. */
  function Target(c: Control, s: Stats, weight: uint32): uint32
    requires c.window >= MSS
  {
    if c.slowStart && !Congested(c, s) then Grow(c.window, s.ackBytes)
    else if s.drops > 0 || c.rexmits > 0 then c.window / 2
    else if (if s.ackBytes > 0 then Min(s.ecnBytes, s.ackBytes) else s.ecnBytes) > 0
    then Cut(c.window, EcnAfter(c, s, weight))
    else Grow(c.window, Increment(s, c.window))
  }

  // ------------------------------------------------------------- what is computed, exactly

  /** `q` is `x / d` rounded down. */
  predicate Rounds(x: int, d: nat, q: int) {
    0 <= x - q * d < d
  }

  lemma DivRounds(x: int, d: nat)
    requires d > 0
    ensures Rounds(x, d, x / d)
  {
    assert x == d * (x / d) + x % d;
  }

  /** The sample is the marked part of the acknowledged bytes, as a fraction of `ONE`. */
  lemma SampleExact(s: Stats)
    requires s.ackBytes > 0
    ensures Rounds((if s.ecnBytes < s.ackBytes then s.ecnBytes else s.ackBytes) * ONE, s.ackBytes, Sample(s))
    ensures s.ecnBytes >= s.ackBytes ==> Sample(s) == ONE
  {
    DivRounds(Min(s.ecnBytes, s.ackBytes) * ONE, s.ackBytes);
    if s.ecnBytes >= s.ackBytes {
      WholeFraction(s.ackBytes);
    }
  }

  lemma WholeFraction(b: nat)
    requires b > 0
    ensures (b * ONE) / b == ONE
  {
    DivBound(b * ONE, b, ONE, ONE);
  }

  /** The average moves towards the sample by the weighted distance, rounded down. */
  lemma EwmaMoves(old': uint32, sample: uint32, weight: uint32)
    ensures Rounds((sample - old') * weight, ONE, Ewma(old', sample, weight) - old')
  {
    var x := sample * weight + old' * (ONE - weight);
    DivRounds(x, ONE);
    assert old' * (ONE - weight) == old' * ONE - old' * weight;
    assert (sample - old') * weight == sample * weight - old' * weight;
  }

  /** It never moves away from the sample, and it does move while the weighted distance is at least
      the fixed-point 1, downwards already while there is any. */
  lemma EwmaApproaches(old': uint32, sample: uint32, weight: uint32)
    ensures old' <= sample ==> old' <= Ewma(old', sample, weight) <= sample
    ensures sample <= old' ==> sample <= Ewma(old', sample, weight) <= old'
    ensures old' < sample && weight * (sample - old') >= ONE ==> old' < Ewma(old', sample, weight)
    ensures sample < old' && weight > 0 ==> Ewma(old', sample, weight) < old'
  {
    hide Ewma;
    EwmaInside(old', sample, weight);
    EwmaMoves(old', sample, weight);
    var e := Ewma(old', sample, weight) - old';
    assert weight * (sample - old') == (sample - old') * weight;
    if sample < old' && weight > 0 && e >= 0 {
      NegativeProduct(sample - old', weight);
    }
  }

  lemma NegativeProduct(a: int, b: int)
    requires a < 0 < b
    ensures a * b < 0
  {
  }

  lemma EwmaInside(old': uint32, sample: uint32, weight: uint32)
    ensures Min(old', sample) <= Ewma(old', sample, weight) <= Max(old', sample)
  {
    EwmaBetween(old', sample, weight);
  }

  /** The average after `n` intervals with the same sample. */
  function Averaged(old': uint32, sample: uint32, weight: uint32, n: nat): uint32
    decreases n
  {
    if n == 0 then old' else Averaged(Ewma(old', sample, weight), sample, weight, n - 1)
  }

  /** Under a constant sample the average settles: after as many intervals as the distance, the
      weighted distance that is left is less than the fixed-point 1, and from above none is. */
  lemma {:induction false} AverageSettles(old': uint32, sample: uint32, weight: uint32, n: nat)
    requires n >= (if old' <= sample then sample - old' else old' - sample) && weight > 0
    ensures var e := Averaged(old', sample, weight, n);
            if old' <= sample then old' <= e <= sample && weight * (sample - e) < ONE else e == sample
    decreases n
  {
    hide Ewma;
    if n > 0 {
      EwmaApproaches(old', sample, weight);
      var e := Ewma(old', sample, weight);
      if old' < sample && weight * (sample - old') < ONE {
        StaysPut(old', sample, weight, n);
      } else {
        AverageSettles(e, sample, weight, n - 1);
      }
    }
  }

  /** Below the sample, with less than the fixed-point 1 to go, the average does not move. */
  lemma {:induction false} StaysPut(old': uint32, sample: uint32, weight: uint32, n: nat)
    requires old' <= sample && weight * (sample - old') < ONE
    ensures Averaged(old', sample, weight, n) == old'
    decreases n
  {
    hide Ewma;
    if n > 0 {
      EwmaMoves(old', sample, weight);
      EwmaApproaches(old', sample, weight);
      assert weight * (sample - old') == (sample - old') * weight;
      StaysPut(old', sample, weight, n - 1);
    }
  }

  /** A cut takes the window times half the average, rounded up. */
  lemma CutExact(win: uint32, ecn: uint32)
    ensures 0 <= (win - Cut(win, ecn)) * ONE - win * (ecn / 2) < ONE
  {
    var x := win * (ONE - ecn / 2);
    DivRounds(x, ONE);
    assert x == win * ONE - win * (ecn / 2);
    assert (win - x / ONE) * ONE == win * ONE - (x / ONE) * ONE;
  }

  /** An average of at least 2 strictly cuts every window that is not empty. */
  lemma CutIsStrict(win: uint32, ecn: uint32)
    requires win > 0 && ecn >= 2
    ensures Cut(win, ecn) < win
  {
    hide Cut;
    CutExact(win, ecn);
    assert win * (ecn / 2) > 0 by { PositiveProduct(win, ecn / 2); }
  }

  lemma PositiveProduct(a: int, b: int)
    requires a > 0 && b > 0
    ensures a * b > 0
  {
  }

  /** The increment is one segment for each window of acknowledged bytes. */
  lemma IncrementExact(s: Stats, win: uint32)
    requires win >= MSS
    ensures Rounds(s.ackBytes * MSS, win, Increment(s, win))
  {
    DivRounds(s.ackBytes * MSS, win);
  }

  /** The window after an interval, before it is clamped, by what happened in it: slow start adds
      what was acknowledged, losses halve, marks cut by the new average, and otherwise one segment
      is added for each window acknowledged; growth that would overflow 32 bits is left out. */
  lemma WindowAfter(c: Control, s: Stats, weight: uint32)
    requires c.window >= MSS
    ensures var w, e := Target(c, s, weight), EcnAfter(c, s, weight);
            var lost := s.drops > 0 || c.rexmits > 0;
            && (c.slowStart && !lost && s.ecnBytes == 0 ==>
                  w == if c.window + s.ackBytes < MOD then c.window + s.ackBytes else c.window)
            && (lost ==> w == c.window / 2)
            && (!lost && s.ecnBytes > 0 ==> TakesHalf(c.window, w, e))
            && (!lost && s.ecnBytes == 0 && !c.slowStart ==>
                  exists incr: uint32 :: Rounds(s.ackBytes * MSS, c.window, incr)
                                         && w == if c.window + incr < MOD then c.window + incr else c.window)
  {
    hide Cut, Increment, EcnAfter, Rounds, TakesHalf;
    CutTakesHalf(c.window, EcnAfter(c, s, weight));
    IncrementExact(s, c.window);
    assert Rounds(s.ackBytes * MSS, c.window, Increment(s, c.window));
  }

  /** From `win` to `w` the window loses itself times half the average, rounded up. */
  predicate TakesHalf(win: uint32, w: uint32, ecn: uint32) {
    0 <= (win - w) * ONE - win * (ecn / 2) < ONE
  }

  lemma CutTakesHalf(win: uint32, ecn: uint32)
    ensures TakesHalf(win, Cut(win, ecn), ecn)
  {
    CutExact(win, ecn);
  }

  /** The average after an interval: it moves by the weighted distance to the marked fraction, except
      after losses, without acknowledged bytes and in undisturbed slow start. */
  lemma AverageAfter(c: Control, s: Stats, weight: uint32)
    ensures var e := EcnAfter(c, s, weight);
            if s.drops > 0 || c.rexmits > 0 || s.ackBytes == 0 || (c.slowStart && s.ecnBytes == 0) then e == c.ecnRate
            else Rounds((Sample(s) - c.ecnRate) * weight, ONE, e - c.ecnRate)
  {
    hide Ewma, Sample, Rounds;
    if s.ackBytes > 0 {
      EwmaMoves(c.ecnRate, Sample(s), weight);
    }
  }

  /** A fully marked interval strictly cuts the window, as soon as the average is at least 2. */
  lemma MarkedIntervalCuts(c: Control, s: Stats, weight: uint32)
    requires c.window >= MSS && s.drops == 0 && c.rexmits == 0 && 0 < s.ackBytes <= s.ecnBytes
    ensures EcnAfter(c, s, weight) >= c.ecnRate
    ensures EcnAfter(c, s, weight) >= 2 ==> Target(c, s, weight) < c.window
  {
    hide Cut, Ewma, Sample, Increment;
    SampleExact(s);
    EwmaApproaches(c.ecnRate, Sample(s), weight);
    if EcnAfter(c, s, weight) >= 2 {
      CutIsStrict(c.window, EcnAfter(c, s, weight));
    }
  }

  // ----------------------------------------------------------------------------- runs

  /** One control interval: its counters, and the retransmissions noted during it. */
  datatype Interval = Interval(stats: Stats, rexmits: uint32)

  function Step(c: Control, x: Interval, weight: uint32, txLen: uint32): Control
    requires c.window >= MSS
  {
    var c1 := c.(rexmits := x.rexmits);
    Control(Clamp(Target(c1, x.stats, weight), txLen), EcnAfter(c1, x.stats, weight),
            c.slowStart && !Congested(c1, x.stats), 0)
  }

  /** An interval leaves the target alone if it is between one segment and the send buffer, and takes
      the nearer of the two otherwise.  Slow start lasts until the first sign of congestion, and
      retransmissions are counted afresh. */
  lemma StepClamps(c: Control, x: Interval, weight: uint32, txLen: uint32)
    requires c.window >= MSS && txLen >= MSS
    ensures var c', w := Step(c, x, weight, txLen), Target(c.(rexmits := x.rexmits), x.stats, weight);
            && (MSS <= w <= txLen ==> c'.window == w)
            && (w < MSS ==> c'.window == MSS) && (txLen < w ==> c'.window == txLen)
            && (c'.slowStart <==> c.slowStart && x.stats.drops == 0 && x.stats.ecnBytes == 0 && x.rexmits == 0)
            && c'.rexmits == 0 && c'.ecnRate == EcnAfter(c.(rexmits := x.rexmits), x.stats, weight)
  {
    hide Target, EcnAfter;
  }

  /** Congestion never enlarges the window and takes at most half of it; without congestion
      the window does not shrink. */
  lemma TargetBounds(c: Control, s: Stats, weight: uint32)
    requires c.window >= MSS
    ensures c.window / 2 <= Target(c, s, weight)
    ensures s.drops > 0 || s.ecnBytes > 0 || c.rexmits > 0 ==> Target(c, s, weight) <= c.window
    ensures s.drops == 0 && s.ecnBytes == 0 && c.rexmits == 0 ==> c.window <= Target(c, s, weight)
  {
    hide Cut, Ewma, Sample, Increment, EcnAfter;
    CutBetween(c.window, EcnAfter(c, s, weight));
  }

  lemma CutBetween(win: uint32, ecn: uint32)
    ensures win / 2 <= Cut(win, ecn) <= win
  {
    CutBounds(win, ecn);
  }

  lemma EcnBetween(c: Control, s: Stats, weight: uint32, lo: nat, hi: nat)
    requires lo <= c.ecnRate <= hi && (s.ackBytes > 0 ==> lo <= Sample(s) <= hi)
    ensures lo <= EcnAfter(c, s, weight) <= hi
  {
    hide Sample;
    if s.ackBytes > 0 {
      EwmaBetween(c.ecnRate, Sample(s), weight);
    }
  }

  ghost function Run(c: Control, xs: seq<Interval>, weight: uint32, txLen: uint32): (c': Control)
    requires c.window >= MSS && txLen >= MSS
    decreases |xs|
  {
    if xs == [] then c else Run(Step(c, xs[0], weight, txLen), xs[1..], weight, txLen)
  }

  /** Every run of intervals, whatever their counters say, keeps the window between one
      segment and the send buffer, never goes back to slow start, and keeps the averaged
      fraction within any bounds that hold for its start and all samples. */
  lemma {:induction false} RunBounded(c: Control, xs: seq<Interval>, weight: uint32, txLen: uint32, lo: nat, hi: nat)
    requires c.window >= MSS && txLen >= MSS && lo <= c.ecnRate <= hi
    requires forall x :: x in xs && x.stats.ackBytes > 0 ==> lo <= Sample(x.stats) <= hi
    ensures var c' := Run(c, xs, weight, txLen);
            && MSS <= c'.window && (xs != [] ==> c'.window <= txLen)
            && lo <= c'.ecnRate <= hi
            && (c'.slowStart ==> c.slowStart)
    decreases |xs|
  {
    hide Sample, EcnAfter, Target;
    if xs != [] {
      assert xs[0] in xs;
      EcnBetween(c.(rexmits := xs[0].rexmits), xs[0].stats, weight, lo, hi);
      RunBounded(Step(c, xs[0], weight, txLen), xs[1..], weight, txLen, lo, hi);
    }
  }

  class Connection {
    const txLen: uint32
    var window: uint32
    var ecnRate: uint32
    var slowStart: bool
    var rexmits: uint32

    function State(): Control
      reads this
    {
      Control(window, ecnRate, slowStart, rexmits)
    }

    constructor (txLen: uint32)
      ensures State() == Control(2 * MSS, 0, true, 0) && this.txLen == txLen
    {
      this.txLen := txLen;
      window, ecnRate, slowStart, rexmits := 2 * MSS, 0, true, 0;
    }

    /** One interval.  With a send buffer of at least one segment the window stays between one
        segment and the buffer, whatever the counters say. */
    method Update(stats: Stats, weight: uint32)
      requires window >= MSS && txLen >= MSS
      modifies this
      ensures MSS <= window <= txLen
      ensures State() == Step(old(State()), Interval(stats, old(rexmits)), weight, txLen)
    {
      var win := window;
      if slowStart {
        if stats.drops == 0 && stats.ecnBytes == 0 && rexmits == 0 {
          if Add(win, stats.ackBytes) > win {
            win := Add(win, stats.ackBytes);
          }
        } else {
          slowStart := false;
        }
      }
      if !slowStart {
        if stats.drops > 0 || rexmits > 0 {
          win := win / 2;
        } else {
          var ecnBytes := stats.ecnBytes;
          if stats.ackBytes > 0 {
            ecnBytes := if ecnBytes <= stats.ackBytes then ecnBytes else stats.ackBytes;
            var sample := Sample(stats);
            ecnRate := Ewma(ecnRate, sample, weight);
          }
          if ecnBytes > 0 {
            win := Cut(win, ecnRate);
          } else {
            var incr := Increment(stats, win);
            if Add(win, incr) > win {
              win := Add(win, incr);
            }
          }
        }
      }
      if win < MSS {
        win := MSS;
      }
      if win > txLen {
        win := txLen;
      }
      window := win;
      rexmits := 0;
    }
  }
}
