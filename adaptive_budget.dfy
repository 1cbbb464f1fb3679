/** The viewer's render-state controller: the draw budget, the FPS window and
    the decimated render data derived from them, plus the coarser copy kept
    for picking. */
module Viewer {
  import opened PointCloud
  import opened Decimation
  import GspLoader

  const InitialBudget: nat := 200000
  const MinBudget: nat := 50000
  const BudgetGate: nat := 20000
  const WindowSize: nat := 20
  const AdjustInterval: real := 0.5
  const SlowFps: real := 45.0
  const FastFps: real := 58.0
  const PickBudget: nat := 80000

  function Min(a: nat, b: nat): nat { if a < b then a else b }
  function Max(a: nat, b: nat): nat { if a < b then b else a }

  /** `data.activeCount || data.count || 0`. */
  function ActiveCount(d: Cloud): nat
  {
    OrElse(d.activeCount, OrElse(d.count, 0))
  }

  /** The instantaneous frame rate of a frame, `1 / Math.max(delta, 0.001)`. */
  function FpsSample(delta: real): (f: real)
    ensures 0.0 < f <= 1000.0
  {
    var dt := if delta > 0.001 then delta else 0.001;
    assert 1.0 / dt <= 1000.0 by {
      assert (1.0 / dt) * dt == 1.0;
    }
    1.0 / dt
  }

  /** The FPS window after `push(f)` and, when it holds more than 20, `shift()`. */
  function Window(samples: seq<real>, f: real): (w: seq<real>)
    ensures |w| > 0 && w[|w| - 1] == f
    ensures |samples| < WindowSize ==> w == samples + [f]
    ensures |samples| >= WindowSize ==> |w| == |samples| && w == samples[1..] + [f]
  {
    var pushed := samples + [f];
    if |pushed| > WindowSize then pushed[1..] else pushed
  }

  /** `fpsSamples.reduce((a, b) => a + b, 0)`. */
  function Sum(s: seq<real>): real
  {
    if s == [] then 0.0 else Sum(s[..|s| - 1]) + s[|s| - 1]
  }

  function Average(s: seq<real>): real
    requires |s| > 0
  {
    Sum(s) / |s| as real
  }

  lemma {:induction false} SumBounds(s: seq<real>, lo: real, hi: real)
    requires forall k :: 0 <= k < |s| ==> lo <= s[k] <= hi
    ensures |s| as real * lo <= Sum(s) <= |s| as real * hi
  {
    if s != [] {
      var init := s[..|s| - 1];
      assert forall k :: 0 <= k < |init| ==> init[k] == s[k];
      SumBounds(init, lo, hi);
      assert |s| as real * lo == |init| as real * lo + lo;
      assert |s| as real * hi == |init| as real * hi + hi;
    }
  }

  lemma {:induction false} SumStrictlyBelow(s: seq<real>, t: real)
    requires |s| > 0 && forall k :: 0 <= k < |s| ==> s[k] < t
    ensures Sum(s) < |s| as real * t
  {
    var init := s[..|s| - 1];
    assert forall k :: 0 <= k < |init| ==> init[k] == s[k];
    if init != [] {
      SumStrictlyBelow(init, t);
    }
  }

  lemma {:induction false} SumStrictlyAbove(s: seq<real>, t: real)
    requires |s| > 0 && forall k :: 0 <= k < |s| ==> s[k] > t
    ensures Sum(s) > |s| as real * t
  {
    var init := s[..|s| - 1];
    assert forall k :: 0 <= k < |init| ==> init[k] == s[k];
    if init != [] {
      SumStrictlyAbove(init, t);
    }
  }

  /** The average of a window lies between its smallest and largest samples. */
  lemma AverageWithin(s: seq<real>, lo: real, hi: real)
    requires |s| > 0 && forall k :: 0 <= k < |s| ==> lo <= s[k] <= hi
    ensures lo <= Average(s) <= hi
  {
    SumBounds(s, lo, hi);
    var n := |s| as real;
    assert Average(s) * n == Sum(s);
  }

  lemma AverageBelow(s: seq<real>, t: real)
    requires |s| > 0 && forall k :: 0 <= k < |s| ==> s[k] < t
    ensures Average(s) < t
  {
    SumStrictlyBelow(s, t);
    assert Average(s) * |s| as real == Sum(s);
  }

  lemma AverageAbove(s: seq<real>, t: real)
    requires |s| > 0 && forall k :: 0 <= k < |s| ==> s[k] > t
    ensures Average(s) > t
  {
    SumStrictlyAbove(s, t);
    assert Average(s) * |s| as real == Sum(s);
  }

  /** `next` before the change gate: a cut on a slow window, a raise on a fast one. */
  function ProposedBudget(b: nat, avg: real, active: nat): nat
  {
    if avg < SlowFps then
      var cut := (b as real * 0.8).Floor;
      if cut > MinBudget then cut else MinBudget
    else if avg > FastFps then
      var grow := (b as real * 1.1).Floor;
      if active < grow then active else grow
    else b
  }

  /** The budget after one evaluated tick: the proposal passes only when it
      moves the budget by at least 20,000 points. */
  function NextBudget(b: nat, avg: real, active: nat): nat
  {
    var next := ProposedBudget(b, avg, active);
    if next - b >= BudgetGate as int || b - next >= BudgetGate as int then next else b
  }

  /** `Math.floor(b * 0.8)` takes a fifth of `b` away, rounded up. */
  lemma CutFloor(b: nat)
    ensures b - (b as real * 0.8).Floor == (b + 4) / 5
  {
    var q, r := b / 5, b % 5;
    assert b as real * 0.8 == (4 * q) as real + r as real * 0.8;
    if r == 0 { assert (b as real * 0.8).Floor == 4 * q; }
    else if r == 1 { assert (b as real * 0.8).Floor == 4 * q; }
    else if r == 2 { assert (b as real * 0.8).Floor == 4 * q + 1; }
    else if r == 3 { assert (b as real * 0.8).Floor == 4 * q + 2; }
    else { assert (b as real * 0.8).Floor == 4 * q + 3; }
  }

  /** `Math.floor(b * 1.1)` adds a tenth of `b`, rounded down. */
  lemma GrowFloor(b: nat)
    ensures (b as real * 1.1).Floor == b + b / 10
  {
    var q, r := b / 10, b % 10;
    assert b as real * 1.1 == (b + q) as real + r as real / 10.0;
  }

  /** No tick moves the budget by less than the gate. */
  lemma NextBudgetGated(b: nat, avg: real, active: nat)
    ensures var r := NextBudget(b, avg, active);
      r == b || r - b >= BudgetGate as int || b - r >= BudgetGate as int
  {
  }

  /** A window averaging between 45 and 58 FPS leaves the budget alone. */
  lemma MidBandKeepsBudget(b: nat, avg: real, active: nat)
    requires SlowFps <= avg <= FastFps
    ensures NextBudget(b, avg, active) == b
  {
  }

  /** A slow window cuts a budget of at least 99,996 by a fifth, leaves a
      budget between 30,001 and 99,995 alone (the cut would be under 20,000
      points), and lifts a budget of at most 30,000 to the 50,000 floor. */
  lemma SlowWindow(b: nat, avg: real, active: nat)
    requires avg < SlowFps
    ensures b >= 99996 ==> NextBudget(b, avg, active) == (b as real * 0.8).Floor < b
    ensures 30000 < b < 99996 ==> NextBudget(b, avg, active) == b
    ensures b <= 30000 ==> NextBudget(b, avg, active) == MinBudget
  {
    CutFloor(b);
  }

  /** A fast window never takes the budget above the active count, and raises
      it only from 200,000 points up, when a tenth of it is at least 20,000;
      a budget above the active count falls to it once the gap reaches 20,000. */
  lemma FastWindow(b: nat, avg: real, active: nat)
    requires avg > FastFps
    ensures b <= active ==>
      (NextBudget(b, avg, active) > b <==> b >= 200000 && active >= b + BudgetGate)
      && NextBudget(b, avg, active) >= b && NextBudget(b, avg, active) <= active
    ensures b > active ==>
      NextBudget(b, avg, active) == (if b >= active + BudgetGate then active else b)
  {
    GrowFloor(b);
  }

  /** Over any run the budget stays at most the active count, or the 50,000
      floor when the active count is smaller. */
  lemma NextBudgetBounded(b: nat, avg: real, active: nat)
    requires b <= Max(MinBudget, active)
    ensures NextBudget(b, avg, active) <= Max(MinBudget, active)
  {
    CutFloor(b);
    GrowFloor(b);
  }

  /** The copy hit-tested in inspect mode, `decimateData(data, 80000)`. */
  function PickData(data: Option<Cloud>, inspectMode: bool): (r: Option<Cloud>)
    ensures r.Some? <==> inspectMode && data.Some?
    ensures r.Some? ==> SourceCount(r.value) <= PickBudget as real
  {
    if inspectMode && data.Some? then
      DecimatedWithinBudget(data.value, PickBudget);
      Some(Decimated(data.value, PickBudget))
    else None
  }

  /** The `Viewer` component's per-dataset state. */
  class ViewerState {
    var data: Option<Cloud>
    var drawBudget: nat
    var renderData: Option<Cloud>
    var lastAdjust: real
    var fpsSamples: seq<real>

    ghost predicate Valid()
      reads this
    {
      |fpsSamples| <= WindowSize
      && (forall k :: 0 <= k < |fpsSamples| ==> 0.0 < fpsSamples[k] <= 1000.0)
      && (data.None? ==> renderData.None?)
      && (data.Some? ==>
            renderData == Some(Decimated(data.value, drawBudget))
            && drawBudget <= Max(MinBudget, ActiveCount(data.value)))
    }

    /** Mounting the component, followed by the mount-time run of the data effect. */
    constructor (d: Option<Cloud>)
      ensures Valid()
      ensures data == d && fpsSamples == [] && lastAdjust == 0.0
      ensures d.None? ==> drawBudget == InitialBudget && renderData.None?
      ensures d.Some? ==> drawBudget == Min(InitialBudget, ActiveCount(d.value))
    {
      data := None;
      drawBudget := InitialBudget;
      renderData := None;
      lastAdjust := 0.0;
      fpsSamples := [];
      new;
      SetData(d);
    }

    /** The data effect, run whenever the `data` prop changes: a new dataset
        restarts the budget at `min(200000, activeCount)`. */
    method SetData(d: Option<Cloud>)
      requires Valid()
      modifies this
      ensures Valid()
      ensures data == d && fpsSamples == old(fpsSamples) && lastAdjust == old(lastAdjust)
      ensures d.None? ==> drawBudget == old(drawBudget)
      ensures d.Some? ==> drawBudget == Min(InitialBudget, ActiveCount(d.value))
    {
      data := d;
      if d.None? {
        renderData := None;
        return;
      }
      var activeCount := ActiveCount(d.value);
      var initial := Min(InitialBudget, activeCount);
      drawBudget := initial;
      var r := Decimate(d.value, initial);
      renderData := Some(r);
    }

    /** One rendered frame lasting `delta` seconds, at clock time `now`. */
    method OnFrame(delta: real, now: real)
      requires Valid()
      modifies this
      ensures Valid()
      ensures data == old(data)
      ensures old(data).None? ==>
        fpsSamples == old(fpsSamples) && lastAdjust == old(lastAdjust) && drawBudget == old(drawBudget)
      ensures old(data).Some? ==> fpsSamples == Window(old(fpsSamples), FpsSample(delta))
      ensures old(data).Some? && now - old(lastAdjust) < AdjustInterval ==>
        lastAdjust == old(lastAdjust) && drawBudget == old(drawBudget)
      ensures old(data).Some? && now - old(lastAdjust) >= AdjustInterval ==>
        lastAdjust == now
        && drawBudget == NextBudget(old(drawBudget), Average(fpsSamples), ActiveCount(data.value))
    {
      if data.None? {
        return;
      }
      var d := data.value;
      var activeCount := ActiveCount(d);
      fpsSamples := Window(fpsSamples, FpsSample(delta));
      if now - lastAdjust < AdjustInterval {
        return;
      }
      lastAdjust := now;
      var avgFps := Average(fpsSamples);
      var next := ProposedBudget(drawBudget, avgFps, activeCount);
      if next - drawBudget >= BudgetGate as int || drawBudget - next >= BudgetGate as int {
        NextBudgetBounded(drawBudget, avgFps, activeCount);
        drawBudget := next;
        var r := Decimate(d, next);
        renderData := Some(r);
      }
    }
  }

  /** A window whose every sample is between 45 and 58 FPS never changes the
      budget. */
  lemma SteadyWindowKeepsBudget(samples: seq<real>, b: nat, active: nat)
    requires |samples| > 0 && forall k :: 0 <= k < |samples| ==> SlowFps <= samples[k] <= FastFps
    ensures NextBudget(b, Average(samples), active) == b
  {
    AverageWithin(samples, SlowFps, FastFps);
  }

  /** A window of samples all under 45 FPS cuts any budget of at least 99,996. */
  lemma SlowSamplesCut(samples: seq<real>, b: nat, active: nat)
    requires |samples| > 0 && forall k :: 0 <= k < |samples| ==> samples[k] < SlowFps
    requires b >= 99996
    ensures NextBudget(b, Average(samples), active) < b
  {
    AverageBelow(samples, SlowFps);
    SlowWindow(b, Average(samples), active);
  }

  /** A window of samples all over 58 FPS raises a budget of at least 200,000
      when the active count leaves room for 20,000 more points. */
  lemma FastSamplesRaise(samples: seq<real>, b: nat, active: nat)
    requires |samples| > 0 && forall k :: 0 <= k < |samples| ==> samples[k] > FastFps
    requires b >= 200000 && active >= b + BudgetGate
    ensures NextBudget(b, Average(samples), active) > b
  {
    AverageAbove(samples, FastFps);
    FastWindow(b, Average(samples), active);
  }

  /** A file the corrected loader accepts carries neither `count` nor
      `activeCount`, so its initial budget is 0 and it is drawn undecimated;
      the first slow tick lifts the budget to 50,000, above its active count.
      Stated for the corrected loader; by `GspLoader.DecodeAlignedAgrees` it
      holds for every buffer the loader as written accepts. */
  lemma LoadedCloudBudget(buf: seq<byte>, avg: real)
    requires GspLoader.DecodeAligned(buf).Ok?
    requires avg < SlowFps
    ensures var d := GspLoader.DecodeAligned(buf).value;
      ActiveCount(d) == 0 && Min(InitialBudget, ActiveCount(d)) == 0
      && Decimated(d, 0) == d
      && NextBudget(0, avg, ActiveCount(d)) == MinBudget
  {
    SlowWindow(0, avg, 0);
  }
}
