/**
 * The decorative waveform of the player screen as data: the order in which
 * the bars are created, the number of bars a playback position highlights,
 * and the playback position a tap on a bar or on the container seeks to.
 * Times are exact reals; the single- and double-precision rounding of the
 * app is not modelled.
 */
module Waveform {
  import opened Wrappers
  import opened SwiftInt

  /** `createWaveformViews` runs its loop 39 times and creates two bars per round. */
  const PairCount: nat := 39
  const BarCount: nat := 2 * PairCount

  /** The bar drawn below the midline (`leftWaveform`) and the one above it (`rightWaveform`). */
  datatype Side = Left | Right

  /** A bar, identified by its loop round (its column on screen) and its side. */
  datatype Bar = Bar(column: nat, side: Side)

  /** The bar at position `index` of the `waveforms` array. */
  function BarAt(index: nat): (bar: Bar)
    ensures IndexOf(bar) == index
    ensures bar.column < PairCount <==> index < BarCount
  {
    Bar(index / 2, if index % 2 == 0 then Left else Right)
  }

  /** The position of a bar of column below `PairCount` in the `waveforms` array. */
  function IndexOf(bar: Bar): (index: nat)
    ensures index / 2 == bar.column
    ensures index % 2 == 0 <==> bar.side == Left
    ensures bar.column < PairCount <==> index < BarCount
  {
    2 * bar.column + if bar.side == Left then 0 else 1
  }

  /** `IndexOf` and `BarAt` are inverse: the array holds every column's left and right bar exactly once. */
  lemma BarAtIndexOf(index: nat, bar: Bar)
    ensures IndexOf(BarAt(index)) == index
    ensures BarAt(IndexOf(bar)) == bar
    ensures BarAt(index) == bar <==> index == IndexOf(bar)
  {
  }

  ghost predicate IsLayout(bars: seq<Bar>) {
    |bars| == BarCount && forall i :: 0 <= i < |bars| ==> bars[i] == BarAt(i)
  }

  /** `createWaveformViews`: per round, append the left bar, then the right bar. */
  method CreateWaveformLayout() returns (bars: seq<Bar>)
    ensures |bars| == BarCount
    ensures forall i :: 0 <= i < |bars| ==> bars[i] == BarAt(i)
  {
    bars := [];
    for index := 0 to PairCount
      invariant |bars| == 2 * index
      invariant forall i :: 0 <= i < |bars| ==> bars[i] == BarAt(i)
    {
      bars := bars + [Bar(index, Left)];
      bars := bars + [Bar(index, Right)];
    }
  }

  /** `firstIndex(of:)`: the first position holding `bar`, or `None` if there is none. */
  method FirstIndex(bars: seq<Bar>, bar: Bar) returns (index: Option<nat>)
    ensures index.Some? ==> index.value < |bars| && bars[index.value] == bar
    ensures index.Some? ==> forall j :: 0 <= j < index.value ==> bars[j] != bar
    ensures index.None? <==> bar !in bars
  {
    var i := 0;
    while i < |bars|
      invariant 0 <= i <= |bars|
      invariant bar !in bars[..i]
    {
      if bars[i] == bar {
        return Some(i);
      }
      i := i + 1;
    }
    assert bars[..i] == bars;
    return None;
  }

  /** In the layout a bar is found exactly when its column exists, and then at `IndexOf(bar)`. */
  lemma LayoutLookup(bars: seq<Bar>, bar: Bar)
    requires IsLayout(bars)
    ensures bar in bars <==> bar.column < PairCount
    ensures bar.column < PairCount ==> IndexOf(bar) < |bars| && bars[IndexOf(bar)] == bar
    ensures forall j :: 0 <= j < |bars| && bars[j] == bar ==> j == IndexOf(bar)
  {
    forall j | 0 <= j < |bars| && bars[j] == bar
      ensures j == IndexOf(bar)
    {
      BarAtIndexOf(j, bar);
    }
    if bar.column < PairCount {
      assert bars[IndexOf(bar)] == BarAt(IndexOf(bar));
      BarAtIndexOf(0, bar);
    }
  }

  /** `currentTime / duration`, the share of the track already played. */
  function Progress(currentTime: real, duration: real): (p: real)
    requires duration != 0.0
    ensures p * duration == currentTime
  {
    currentTime / duration
  }

  /** Inside the track the progress lies in `0..1`, is 1 exactly at the end, and grows with the position. */
  lemma ProgressBounds(t: real, u: real, duration: real)
    requires duration > 0.0
    ensures 0.0 <= t <= duration ==> 0.0 <= Progress(t, duration) <= 1.0
    ensures 0.0 <= t <= duration ==> (Progress(t, duration) == 1.0 <==> t == duration)
    ensures t < 0.0 ==> Progress(t, duration) < 0.0
    ensures t <= u ==> Progress(t, duration) <= Progress(u, duration)
  {
    DivSelf(duration);
    if t <= u {
      DivMonotonic(t, u, duration);
    }
    if 0.0 <= t <= duration {
      DivMonotonic(0.0, t, duration);
      DivMonotonic(t, duration, duration);
      if t < duration {
        DivBelowOne(t, duration);
      }
    }
    if t < 0.0 {
      DivBelowZero(t, duration);
    }
  }

  /** `Int(progress * Float(numberOfWaveforms))`, the number of bars already played. */
  function Completed(progress: real, count: nat): (c: int)
    ensures 0.0 <= progress <= 1.0 ==> 0 <= c <= count
    ensures progress <= 0.0 ==> c <= 0
  {
    ScaledBounds(progress, count);
    TruncateBounds(progress * count as real, count);
    Truncate(progress * count as real)
  }

  lemma ScaledBounds(progress: real, count: nat)
    ensures 0.0 <= progress <= 1.0 ==> 0.0 <= progress * count as real <= count as real
    ensures progress <= 0.0 ==> progress * count as real <= 0.0
  {
    if 0.0 <= progress <= 1.0 {
      MulMonotonic(progress, 1.0, count as real);
      NonNegativeProduct(progress, count as real);
    }
    if progress <= 0.0 {
      MulMonotonic(progress, 0.0, count as real);
    }
  }

  /** The highlight of every bar after a tick: bar `i` is white iff `i < completed`. */
  function Highlights(completed: int, count: nat): (h: seq<bool>)
    ensures |h| == count
    ensures forall i, j :: 0 <= i <= j < count && h[j] ==> h[i]
    ensures completed >= count ==> forall i :: 0 <= i < count ==> h[i]
    ensures completed <= 0 ==> forall i :: 0 <= i < count ==> !h[i]
  {
    seq(count, i => i < completed)
  }

  function CountHighlighted(h: seq<bool>): nat {
    if h == [] then 0 else CountHighlighted(h[..|h| - 1]) + if h[|h| - 1] then 1 else 0
  }

  /** The number of highlighted bars is `completed`, clipped to `0..count`. */
  lemma {:induction false} HighlightedCount(completed: int, count: nat)
    ensures CountHighlighted(Highlights(completed, count))
         == if completed <= 0 then 0 else if completed >= count then count else completed
  {
    if count > 0 {
      var h := Highlights(completed, count);
      assert h[..count - 1] == Highlights(completed, count - 1);
      HighlightedCount(completed, count - 1);
    }
  }

  /** A later playback position highlights every bar an earlier one does. */
  lemma HighlightsMonotonic(t: real, u: real, duration: real)
    requires duration > 0.0 && t <= u
    ensures forall i :: 0 <= i < BarCount && Highlights(Completed(Progress(t, duration), BarCount), BarCount)[i]
                    ==> Highlights(Completed(Progress(u, duration), BarCount), BarCount)[i]
  {
    ProgressBounds(t, u, duration);
    CompletedMonotonic(Progress(t, duration), Progress(u, duration));
  }

  lemma CompletedMonotonic(p: real, q: real)
    requires p <= q
    ensures Completed(p, BarCount) <= Completed(q, BarCount)
  {
    TruncateMonotonic(p * BarCount as real, q * BarCount as real);
  }

  /** Every bar is highlighted exactly when the whole track has played. */
  lemma CompletedAtEnd(currentTime: real, duration: real)
    requires duration > 0.0 && 0.0 <= currentTime <= duration
    ensures Completed(Progress(currentTime, duration), BarCount) == BarCount <==> currentTime == duration
  {
    ProgressBounds(currentTime, currentTime, duration);
    CompletedOfFraction(Progress(currentTime, duration));
  }

  lemma CompletedOfFraction(p: real)
    requires 0.0 <= p <= 1.0
    ensures Completed(p, BarCount) == BarCount <==> p == 1.0
  {
  }

  lemma HalfwayExample()
    ensures Completed(Progress(50.0, 100.0), BarCount) == 39
    ensures forall i :: 0 <= i < BarCount ==> (Highlights(39, BarCount)[i] <==> i <= 38)
  {
    assert Progress(50.0, 100.0) == 0.5;
    assert 0.5 * BarCount as real == 39.0;
  }

  // Small facts of real arithmetic. The solver often proves them alone, but
  // stating them as separate lemmas keeps the proofs above stable across seeds.

  lemma PositiveProduct(a: real, b: real)
    requires a > 0.0 && b > 0.0
    ensures a * b > 0.0
  {
  }

  lemma NonNegativeProduct(a: real, b: real)
    requires a >= 0.0 && b >= 0.0
    ensures a * b >= 0.0
  {
  }

  lemma MulMonotonic(a: real, b: real, c: real)
    requires a <= b && c >= 0.0
    ensures a * c <= b * c
  {
    NonNegativeProduct(b - a, c);
  }

  lemma DivMonotonic(t: real, u: real, d: real)
    requires d > 0.0 && t <= u
    ensures t / d <= u / d
  {
    assert u / d - t / d == (u - t) / d;
  }

  lemma DivBelowOne(t: real, d: real)
    requires d > 0.0 && t < d
    ensures t / d < 1.0
  {
    var p := t / d;
    assert p * d == t;
    assert (p - 1.0) * d < 0.0;
  }

  lemma DivBelowZero(t: real, d: real)
    requires d > 0.0 && t < 0.0
    ensures t / d < 0.0
  {
    var p := t / d;
    assert p * d == t;
  }

  lemma DivSelf(d: real)
    requires d != 0.0
    ensures d / d == 1.0
  {
  }

  /** `Double(index) / Double(waveforms.count) * duration`, the position a tap on a bar seeks to. */
  function BarPosition(index: nat, count: nat, duration: real): (position: real)
    requires index < count
    ensures duration != 0.0 ==> Progress(position, duration) == index as real / count as real
  {
    index as real / count as real * duration
  }

  /** A bar tap seeks inside the track; the first bar seeks to its start. */
  lemma BarPositionBounds(index: nat, count: nat, duration: real)
    requires index < count && duration > 0.0
    ensures 0.0 <= BarPosition(index, count, duration) < duration
    ensures index == 0 ==> BarPosition(index, count, duration) == 0.0
  {
    var f := index as real / count as real;
    DivBelowOne(index as real, count as real);
    PositiveProduct(1.0 - f, duration);
    NonNegativeProduct(f, duration);
  }

  /** Later bars seek to strictly later positions. */
  lemma BarPositionIncreasing(i: nat, j: nat, count: nat, duration: real)
    requires i < j < count && duration > 0.0
    ensures BarPosition(i, count, duration) < BarPosition(j, count, duration)
  {
    var f, g := i as real / count as real, j as real / count as real;
    assert g - f == (j - i) as real / count as real;
    PositiveProduct(g - f, duration);
  }

  /** After a tap on bar `index` the next tick highlights exactly the bars before it. */
  lemma BarPositionHighlightsBefore(index: nat, duration: real)
    requires index < BarCount && duration != 0.0
    ensures Completed(Progress(BarPosition(index, BarCount, duration), duration), BarCount) == index
  {
    var f := index as real / BarCount as real;
    assert Progress(BarPosition(index, BarCount, duration), duration) == f;
    assert f * BarCount as real == index as real;
  }

  /** `Double(percentage) * duration`, the position a tap on the container seeks to; it is not clamped. */
  function FractionPosition(fraction: real, duration: real): (position: real)
    ensures duration != 0.0 ==> Progress(position, duration) == fraction
  {
    fraction * duration
  }

  lemma FractionPositionBounds(fraction: real, duration: real)
    requires duration > 0.0
    ensures FractionPosition(0.0, duration) == 0.0 && FractionPosition(1.0, duration) == duration
    ensures 0.0 <= fraction <= 1.0 ==> 0.0 <= FractionPosition(fraction, duration) <= duration
    ensures fraction > 1.0 ==> FractionPosition(fraction, duration) > duration
    ensures fraction < 0.0 ==> FractionPosition(fraction, duration) < 0.0
  {
    if fraction > 1.0 {
      PositiveProduct(fraction - 1.0, duration);
    } else if fraction < 0.0 {
      PositiveProduct(-fraction, duration);
    } else {
      MulMonotonic(fraction, 1.0, duration);
      NonNegativeProduct(fraction, duration);
    }
  }

  /** After a tap at `fraction` the next tick highlights `Int(fraction * count)` bars. */
  lemma FractionPositionHighlights(fraction: real, duration: real, count: nat)
    requires duration != 0.0
    ensures Completed(Progress(FractionPosition(fraction, duration), duration), count)
         == Truncate(fraction * count as real)
  {
    assert Progress(FractionPosition(fraction, duration), duration) == fraction;
  }
}
