// Report timing: the daemon sums the gaps between physical reports over one-second windows
// (src/main.cpp) and the UI combines several windows into one measurement
// (ui/src/inputmonitor.cpp).  Both divide integers, the UI in 32 bits.
module Timing {

  import Text

  const U32: nat := Text.U32
  const U64: nat := Text.U64

  const MEASURE_WINDOWS: nat := 3

  function Truncate32(x: nat): (r: nat)
    ensures r < U32 && (x < U32 ==> r == x)
  {
    x % U32
  }

  function Truncate64(x: nat): (r: nat)
    ensures x < U64 ==> r == x
  {
    x % U64
  }

  function Quotient(x: nat, n: nat): nat
    requires n > 0
  {
    x / n
  }

  lemma QuotientBounds(x: nat, n: nat)
    requires n > 0
    ensures Quotient(x, n) * n <= x < Quotient(x, n) * n + n
  {
  }

  lemma NotLarger(a: nat, b: nat, k: nat)
    requires a * k < b * k + k
    ensures a <= b
  {
    if a > b {
      Larger(b + 1, a, k);
    }
  }

  lemma QuotientBetween(lo: nat, x: nat, hi: nat, n: nat)
    requires n > 0 && lo * n <= x <= hi * n
    ensures lo <= Quotient(x, n) <= hi
  {
    hide Quotient;
    QuotientBounds(x, n);
    NotLarger(lo, Quotient(x, n), n);
    NotLarger(Quotient(x, n), hi, n);
  }

  lemma OneMore(m: nat, k: nat)
    ensures m * (k + 1) == m * k + m
  {
  }

  lemma Larger(a: nat, b: nat, k: nat)
    requires a <= b
    ensures a * k <= b * k
  {
  }

  // ------------------------------------------------------------------ what is measured

  function Sum(gaps: seq<nat>): nat {
    if gaps == [] then 0 else Sum(gaps[..|gaps| - 1]) + gaps[|gaps| - 1]
  }

  function Min(gaps: seq<nat>): nat
    requires gaps != []
  {
    var last := gaps[|gaps| - 1];
    if |gaps| == 1 || last < Min(gaps[..|gaps| - 1]) then last else Min(gaps[..|gaps| - 1])
  }

  function Max(gaps: seq<nat>): nat {
    if gaps == [] then 0
    else
      var rest, last := Max(gaps[..|gaps| - 1]), gaps[|gaps| - 1];
      if last > rest then last else rest
  }

  function Flatten(windows: seq<seq<nat>>): seq<nat> {
    if windows == [] then [] else Flatten(windows[..|windows| - 1]) + windows[|windows| - 1]
  }

  /** The interval fields of a TIMING line. */
  datatype Stats = Stats(reports: nat, mean: nat, min: nat, max: nat)

  const NO_STATS := Stats(0, 0, 0, 0)

  function WindowOf(gaps: seq<nat>): Stats {
    if gaps == [] then NO_STATS else Stats(|gaps|, Quotient(Sum(gaps), |gaps|), Min(gaps), Max(gaps))
  }

  ghost predicate Fit(gaps: seq<nat>) {
    forall i :: 0 <= i < |gaps| ==> gaps[i] < U32
  }

  /** The true mean of a nonempty list lies between its smallest and largest element. */
  lemma {:induction false} SumIsBetween(gaps: seq<nat>)
    requires gaps != []
    ensures Min(gaps) * |gaps| <= Sum(gaps) <= Max(gaps) * |gaps|
    decreases |gaps|
  {
    var k := |gaps| - 1;
    var front := gaps[..k];
    OneMore(Min(gaps), k);
    OneMore(Max(gaps), k);
    if k > 0 {
      SumIsBetween(front);
      Larger(Min(gaps), Min(front), k);
      Larger(Max(front), Max(gaps), k);
    }
  }

  lemma {:induction false} FitsBounds(gaps: seq<nat>)
    requires Fit(gaps)
    ensures Max(gaps) < U32 && Sum(gaps) <= |gaps| * (U32 - 1)
    decreases |gaps|
  {
    if gaps != [] {
      assert Fit(gaps[..|gaps| - 1]);
      FitsBounds(gaps[..|gaps| - 1]);
    }
  }

  /** What the sum, the smallest and the largest are. */
  lemma {:induction false} ExtremesAre(gaps: seq<nat>)
    ensures gaps != [] ==> Min(gaps) in gaps && Max(gaps) in gaps
    ensures forall gap :: gap in gaps ==> Min(gaps) <= gap <= Max(gaps)
    decreases |gaps|
  {
    if |gaps| > 1 {
      var front, last := gaps[..|gaps| - 1], gaps[|gaps| - 1];
      ExtremesAre(front);
      forall gap | gap in gaps
        ensures gap in front || gap == last
      {
        var i :| 0 <= i < |gaps| && gaps[i] == gap;
        assert i < |front| ==> front[i] == gap;
      }
    }
  }

  lemma OneMoreGap(gaps: seq<nat>, gap: nat)
    ensures Sum(gaps + [gap]) == Sum(gaps) + gap
    ensures Max(gaps + [gap]) == if gap > Max(gaps) then gap else Max(gaps)
    ensures Min(gaps + [gap]) == if gaps == [] || gap < Min(gaps) then gap else Min(gaps)
  {
    assert (gaps + [gap])[..|gaps|] == gaps;
  }

  lemma MeanIsBetween(gaps: seq<nat>)
    requires gaps != []
    ensures Min(gaps) <= Quotient(Sum(gaps), |gaps|) <= Max(gaps)
  {
    SumIsBetween(gaps);
    QuotientBetween(Min(gaps), Sum(gaps), Max(gaps), |gaps|);
  }

  // ----------------------------------------------------------------------- the daemon

  /** The gap recorded between two steady-clock readings in nanoseconds. */
  function Gap(last: nat, now: nat): (gap: nat)
    ensures gap < U32
  {
    if now > last then Truncate32((now - last) / 1000) else 0
  }

  function GapsOf(times: seq<nat>): seq<nat> {
    if |times| < 2 then []
    else GapsOf(times[..|times| - 1]) + [Gap(times[|times| - 2], times[|times| - 1])]
  }

  /** The other fields of a TIMING line. */
  datatype Extra = Extra(windowUs: nat, latencyMean: nat, latencyMax: nat)

  const NO_EXTRA := Extra(0, 0, 0)

  function ExtraOf(lats: seq<nat>, elapsedUs: nat): Extra {
    Extra(Truncate64(elapsedUs), if lats == [] then 0 else Quotient(Sum(lats), |lats|), Max(lats))
  }

  /** The gaps recorded from `start` on are those between the given report times. */
  ghost predicate Session(recorded: seq<nat>, start: nat, times: seq<nat>) {
    start <= |recorded| && recorded[start..] == GapsOf(times)
  }

  class TimingWindow {
    var reports: nat
    var intervalSum: nat
    var intervalMin: nat
    var intervalMax: nat
    var latencySum: nat
    var latencyMax: nat
    var latencySamples: nat
    var lastReport: nat
    var haveLast: bool
    /** History: the gaps and latencies in the window, the gaps of the windows sent before, the
        report times seen since somebody has been watching, and where their gaps begin. */
    ghost var gaps: seq<nat>
    ghost var lats: seq<nat>
    ghost var sent: seq<seq<nat>>
    ghost var times: seq<nat>
    ghost var start: nat

    ghost predicate Tracks()
      reads this`reports, this`intervalSum, this`intervalMin, this`intervalMax, this`gaps
    {
      && Fit(gaps)
      && (|gaps| < U32 ==>
            reports == |gaps| && intervalSum == Sum(gaps) && intervalMax == Max(gaps)
            && intervalMin == if gaps == [] then 0 else Min(gaps))
    }

    ghost predicate TracksLatency()
      reads this`latencySum, this`latencyMax, this`latencySamples, this`lats
    {
      && Fit(lats)
      && (|lats| < U32 ==> latencySamples == |lats| && latencySum == Sum(lats) && latencyMax == Max(lats))
    }

    ghost predicate Valid()
      reads this
    {
      && Tracks() && TracksLatency()
      // No interval is lost or counted twice where one window ends and the next begins.
      && Session(Flatten(sent) + gaps, start, times)
      && (haveLast <==> times != [])
      && (haveLast ==> lastReport == times[|times| - 1])
    }

    constructor ()
      ensures Valid() && gaps == [] && lats == [] && sent == [] && times == []
    {
      reports, intervalSum, intervalMin, intervalMax, lastReport, haveLast := 0, 0, 0, 0, 0, false;
      latencySum, latencyMax, latencySamples := 0, 0, 0;
      gaps, lats, sent, times, start := [], [], [], [], 0;
    }

    /** A valid physical report. */
    method OnReport(now: nat, watched: bool)
      requires Valid()
      modifies this`reports, this`intervalSum, this`intervalMin, this`intervalMax, this`lastReport, this`haveLast
      modifies this`gaps, this`times, this`start
      ensures Valid()
      ensures times == if watched then old(times) + [now] else []
      ensures gaps == if watched && old(haveLast) then old(gaps) + [Gap(old(lastReport), now)] else old(gaps)
    {
      hide Flatten, Tracks, TracksLatency, Gap, Session, GapsOf;
      if watched {
        SessionGrows(sent, gaps, start, times, now);
        if haveLast {
          AddGap(Gap(lastReport, now));
        }
        lastReport := now;
        haveLast := true;
        times := times + [now];
      } else {
        haveLast := false;
        times, start := [], |Flatten(sent) + gaps|;
        SessionBegins(Flatten(sent) + gaps);
      }
    }

    method AddGap(gap: nat)
      requires gap < U32 && Tracks()
      modifies this`reports, this`intervalSum, this`intervalMin, this`intervalMax, this`gaps
      ensures Tracks() && gaps == old(gaps) + [gap]
    {
      hide Truncate32, Truncate64, Sum, Min, Max;
      FitsBounds(gaps);
      NoGaps();
      OneMoreGap(gaps, gap);
      if reports == 0 || gap < intervalMin {
        intervalMin := gap;
      }
      if gap > intervalMax {
        intervalMax := gap;
      }
      intervalSum := Truncate64(intervalSum + gap);
      reports := Truncate32(reports + 1);
      gaps := gaps + [gap];
    }

    /** The emulated device has been written, `now`, for a report that came at `reportTime`. */
    method OnForwarded(reportTime: nat, now: nat)
      requires Valid()
      modifies this`latencySum, this`latencyMax, this`latencySamples, this`lats
      ensures Valid() && lats == old(lats) + [Gap(reportTime, now)]
    {
      hide Truncate32, Truncate64, Sum, Min, Max, Session, Flatten, Gap, Tracks;
      var spent := Gap(reportTime, now);
      FitsBounds(lats);
      OneMoreGap(lats, spent);
      latencySum := Truncate64(latencySum + spent);
      if spent > latencyMax {
        latencyMax := spent;
      }
      latencySamples := Truncate32(latencySamples + 1);
      lats := lats + [spent];
    }

    method Line() returns (line: Stats)
      requires Tracks()
      ensures |gaps| < U32 ==> line == WindowOf(gaps)
    {
      hide Truncate32, Quotient, Min;
      FitsBounds(gaps);
      if gaps != [] {
        MeanIsBetween(gaps);
      }
      line := Stats(reports, if reports > 0 then Truncate32(Quotient(intervalSum, reports)) else 0, intervalMin, intervalMax);
    }

    method ExtraFields(elapsedUs: nat) returns (extra: Extra)
      requires TracksLatency()
      ensures |lats| < U32 ==> extra == ExtraOf(lats, elapsedUs)
    {
      hide Truncate32, Truncate64, Quotient, Min;
      FitsBounds(lats);
      if lats != [] {
        MeanIsBetween(lats);
      }
      extra := Extra(Truncate64(elapsedUs),
                     if latencySamples > 0 then Truncate32(Quotient(latencySum, latencySamples)) else 0, latencyMax);
    }

    /** The line sent when a window ends. */
    method Finish(elapsedUs: nat) returns (line: Stats, extra: Extra)
      requires Valid()
      modifies this
      ensures Valid() && gaps == [] && lats == [] && sent == old(sent) + [old(gaps)] && times == old(times)
      ensures |old(gaps)| < U32 ==> line == WindowOf(old(gaps))
      ensures |old(lats)| < U32 ==> extra == ExtraOf(old(lats), elapsedUs)
    {
      hide GapsOf, WindowOf, ExtraOf, Flatten, Sum, Min, Max, Session;
      line := Line();
      extra := ExtraFields(elapsedUs);
      FlattenSnoc(sent, gaps);
      NoGaps();
      assert Flatten(sent + [gaps]) + [] == Flatten(sent) + gaps;
      reports, intervalSum, intervalMin, intervalMax := 0, 0, 0, 0;
      latencySum, latencyMax, latencySamples := 0, 0, 0;
      sent, gaps, lats := sent + [gaps], [], [];
    }
  }

  lemma SessionGrows(sent: seq<seq<nat>>, gaps: seq<nat>, start: nat, times: seq<nat>, now: nat)
    requires Session(Flatten(sent) + gaps, start, times)
    ensures var more := if times == [] then gaps else gaps + [Gap(times[|times| - 1], now)];
      Session(Flatten(sent) + more, start, times + [now])
  {
    hide Flatten, Gap;
    GapsAppend(times, now);
    if times != [] {
      var gap := Gap(times[|times| - 1], now);
      assert Flatten(sent) + (gaps + [gap]) == (Flatten(sent) + gaps) + [gap];
    }
  }

  lemma SessionBegins(recorded: seq<nat>)
    ensures Session(recorded, |recorded|, [])
  {
  }

  lemma FlattenSnoc(windows: seq<seq<nat>>, last: seq<nat>)
    ensures Flatten(windows + [last]) == Flatten(windows) + last
  {
    assert (windows + [last])[..|windows|] == windows;
  }

  lemma NoGaps()
    ensures Sum([]) == Max([]) == 0
  {
  }

  lemma GapsAppend(times: seq<nat>, now: nat)
    ensures GapsOf(times + [now]) ==
              if times == [] then [] else GapsOf(times) + [Gap(times[|times| - 1], now)]
  {
    assert times != [] ==> (times + [now])[..|times|] == times;
  }

  /** While somebody watches, the intervals add up to the time between the first and the last
      report, short only of the microsecond fractions cut off each. */
  lemma {:induction false} IntervalsTelescope(times: seq<nat>)
    requires times != []
    requires forall i :: 0 < i < |times| ==> times[i - 1] <= times[i] < times[i - 1] + 1000 * U32
    ensures var span := times[|times| - 1] - times[0] as int;
      1000 * Sum(GapsOf(times)) <= span <= 1000 * Sum(GapsOf(times)) + 999 * (|times| - 1)
    decreases |times|
  {
    if |times| > 1 {
      var front := times[..|times| - 1];
      IntervalsTelescope(front);
      var gap := Gap(times[|times| - 2], times[|times| - 1]);
      assert GapsOf(times)[..|GapsOf(times)| - 1] == GapsOf(front);
      assert Sum(GapsOf(times)) == Sum(GapsOf(front)) + gap;
    }
  }

  // --------------------------------------------------------------------------- the UI

  function Weight(w: Stats): nat {
    w.mean * w.reports
  }

  /** applyTiming's running totals: `mean` is the weighted sum until the measurement ends. */
  function Accumulate(acc: Stats, w: Stats): Stats {
    Stats(Truncate32(acc.reports + w.reports),
          Truncate32(acc.mean + Weight(w)),
          if w.reports > 0 && (acc.min == 0 || w.min < acc.min) then w.min else acc.min,
          if w.max > acc.max then w.max else acc.max)
  }

  function Total(ws: seq<Stats>): Stats {
    if ws == [] then NO_STATS else Accumulate(Total(ws[..|ws| - 1]), ws[|ws| - 1])
  }

  /** The weighted sum becomes the mean at the end. */
  function Mean(acc: Stats): Stats {
    acc.(mean := if acc.reports > 0 then Quotient(acc.mean, acc.reports) else 0)
  }

  function Result(ws: seq<Stats>): Stats {
    Mean(Total(ws))
  }

  /** The latency of a window counts once per interval in it. */
  function LatencyWeight(w: Stats, e: Extra): nat {
    e.latencyMean * w.reports
  }

  function AccumulateExtra(acc: Extra, w: Stats, e: Extra): Extra {
    Extra(Truncate64(acc.windowUs + e.windowUs),
          Truncate32(acc.latencyMean + LatencyWeight(w, e)),
          if e.latencyMax > acc.latencyMax then e.latencyMax else acc.latencyMax)
  }

  function TotalExtra(ws: seq<Stats>, es: seq<Extra>): Extra
    requires |ws| == |es|
  {
    if ws == [] then NO_EXTRA
    else
      var n := |ws| - 1;
      AccumulateExtra(TotalExtra(ws[..n], es[..n]), ws[n], es[n])
  }

  function MeanExtra(acc: Stats, extra: Extra): Extra {
    extra.(latencyMean := if acc.reports > 0 then Quotient(extra.latencyMean, acc.reports) else 0)
  }

  function ResultExtra(ws: seq<Stats>, es: seq<Extra>): Extra
    requires |ws| == |es|
  {
    MeanExtra(Total(ws), TotalExtra(ws, es))
  }

  class InputMonitor {
    var measureWindows: int
    var accumulated: Stats
    var result: Stats
    var accumulatedExtra: Extra
    var resultExtra: Extra
    var measured: bool
    ghost var collected: seq<Stats>
    ghost var extras: seq<Extra>

    ghost predicate Valid()
      reads this
    {
      && 0 <= measureWindows <= MEASURE_WINDOWS && |collected| == |extras|
      && (measureWindows > 0 ==>
            !measured && |collected| == MEASURE_WINDOWS - measureWindows && accumulated == Total(collected)
            && accumulatedExtra == TotalExtra(collected, extras))
      && (measured ==>
            |collected| == MEASURE_WINDOWS && result == Result(collected) && resultExtra == ResultExtra(collected, extras))
    }

    constructor ()
      ensures Valid() && !measured && measureWindows == 0
    {
      measureWindows, accumulated, result, measured, collected := 0, NO_STATS, NO_STATS, false, [];
      accumulatedExtra, resultExtra, extras := NO_EXTRA, NO_EXTRA, [];
    }

    method Measure()
      requires Valid()
      modifies this
      ensures Valid() && measureWindows == 3 && collected == []
    {
      accumulated, accumulatedExtra := NO_STATS, NO_EXTRA;
      measureWindows := MEASURE_WINDOWS;
      measured := false;
      collected, extras := [], [];
    }

    /** The sums, in uint32_t. */
    method Add(window: Stats)
      modifies this`accumulated
      ensures accumulated == Accumulate(old(accumulated), window)
    {
      hide Truncate32, Weight;
      WrapInside(accumulated.mean, Weight(window));
      accumulated := accumulated.(reports := Truncate32(accumulated.reports + window.reports));
      accumulated := accumulated.(mean := Truncate32(accumulated.mean + Truncate32(Weight(window))));
      if window.reports > 0 && (accumulated.min == 0 || window.min < accumulated.min) {
        accumulated := accumulated.(min := window.min);
      }
      if window.max > accumulated.max {
        accumulated := accumulated.(max := window.max);
      }
    }

    method AddExtra(window: Stats, extra: Extra)
      modifies this`accumulatedExtra
      ensures accumulatedExtra == AccumulateExtra(old(accumulatedExtra), window, extra)
    {
      hide Truncate32, Truncate64;
      WrapInside(accumulatedExtra.latencyMean, LatencyWeight(window, extra));
      accumulatedExtra := accumulatedExtra.(windowUs := Truncate64(accumulatedExtra.windowUs + extra.windowUs));
      accumulatedExtra := accumulatedExtra.(
        latencyMean := Truncate32(accumulatedExtra.latencyMean + Truncate32(LatencyWeight(window, extra))));
      if extra.latencyMax > accumulatedExtra.latencyMax {
        accumulatedExtra := accumulatedExtra.(latencyMax := extra.latencyMax);
      }
    }

    method ApplyTiming(window: Stats, extra: Extra)
      requires Valid()
      modifies this
      ensures Valid()
      ensures old(measureWindows) == 0 ==> unchanged(this)
      ensures old(measureWindows) > 0 ==> collected == old(collected) + [window] && extras == old(extras) + [extra]
      ensures old(measureWindows) == 1 ==> measured
    {
      hide Mean, MeanExtra, Accumulate, AccumulateExtra;
      if measureWindows <= 0 {
        return;
      }
      Add(window);
      AddExtra(window, extra);
      assert (collected + [window])[..|collected|] == collected && (extras + [extra])[..|extras|] == extras;
      collected, extras := collected + [window], extras + [extra];
      measureWindows := measureWindows - 1;
      if measureWindows > 0 {
        return;
      }
      Conclude();
    }

    method Conclude()
      modifies this`result, this`resultExtra, this`measured
      ensures result == Mean(accumulated) && resultExtra == MeanExtra(accumulated, accumulatedExtra) && measured
    {
      result, resultExtra := accumulated, accumulatedExtra;
      if accumulated.reports > 0 {
        result := result.(mean := Quotient(accumulated.mean, accumulated.reports));
        resultExtra := resultExtra.(latencyMean := Quotient(accumulatedExtra.latencyMean, accumulated.reports));
      } else {
        result := result.(mean := 0);
        resultExtra := resultExtra.(latencyMean := 0);
      }
      measured := true;
    }
  }

  lemma WrapInside(a: nat, b: nat)
    ensures Truncate32(a + Truncate32(b)) == Truncate32(a + b)
  {
  }

  // -------------------------------------------------------------------- the error bound

  function Windows(gapss: seq<seq<nat>>): seq<Stats> {
    seq(|gapss|, i requires 0 <= i < |gapss| => WindowOf(gapss[i]))
  }

  /** The weighted sum before any wrap-around. */
  function Weighted(gapss: seq<seq<nat>>): nat {
    if gapss == [] then 0
    else
      Weighted(gapss[..|gapss| - 1]) + Weight(WindowOf(gapss[|gapss| - 1]))
  }

  lemma WindowsFront(gapss: seq<seq<nat>>)
    requires gapss != []
    ensures var n := |gapss| - 1;
      Windows(gapss)[..n] == Windows(gapss[..n]) && Windows(gapss)[n] == WindowOf(gapss[n])
  {
  }

  lemma {:induction false} TotalIs(gapss: seq<seq<nat>>)
    requires |Flatten(gapss)| < U32
    ensures var acc := Total(Windows(gapss));
      acc.reports == |Flatten(gapss)| && acc.mean == Truncate32(Weighted(gapss))
    decreases |gapss|
  {
    hide Truncate32, Weight, Quotient;
    if gapss != [] {
      var front, w := gapss[..|gapss| - 1], WindowOf(gapss[|gapss| - 1]);
      TotalIs(front);
      WindowsFront(gapss);
      WrapInside(Weight(w), Weighted(front));
      WrapInside(Weighted(front), Weight(w));
    }
  }

  lemma {:induction false} SumAppend(a: seq<nat>, b: seq<nat>)
    ensures Sum(a + b) == Sum(a) + Sum(b)
    decreases |b|
  {
    if b == [] {
      assert a + b == a;
    } else {
      assert (a + b)[..|a + b| - 1] == a + b[..|b| - 1];
      SumAppend(a, b[..|b| - 1]);
    }
  }

  lemma WeightIsClose(gaps: seq<nat>)
    ensures var a := Weight(WindowOf(gaps));
      a <= Sum(gaps) && (if gaps == [] then Sum(gaps) == 0 else Sum(gaps) < a + |gaps|)
  {
    hide Quotient;
    if gaps != [] {
      QuotientBounds(Sum(gaps), |gaps|);
    }
  }

  /** Cutting each window's mean to an integer loses less than one per report. */
  lemma {:induction false} WeightedIsClose(gapss: seq<seq<nat>>)
    ensures var all := Flatten(gapss);
      Weighted(gapss) <= Sum(all) && (if all == [] then Sum(all) == 0 else Sum(all) < Weighted(gapss) + |all|)
    decreases |gapss|
  {
    hide Weight, WindowOf;
    if gapss != [] {
      var front, gaps := gapss[..|gapss| - 1], gapss[|gapss| - 1];
      WeightedIsClose(front);
      assert Flatten(gapss) == Flatten(front) + gaps;
      assert Weighted(gapss) == Weighted(front) + Weight(WindowOf(gaps));
      SumAppend(Flatten(front), gaps);
      WeightIsClose(gaps);
    }
  }

  lemma WithinTwo(s: nat, a: nat, n: nat)
    requires n > 0 && a <= s < a + n
    ensures var m := Quotient(a, n); m * n <= s < (m + 2) * n
  {
    hide Quotient;
    var m := Quotient(a, n);
    QuotientBounds(a, n);
    OneMore(n, m);
    OneMore(n, m + 1);
  }

  lemma FarBelow(s: nat, a: nat, n: nat)
    requires n > 0 && a + 2 * n <= s
    ensures (Quotient(a, n) + 2) * n <= s
  {
    hide Quotient;
    var m := Quotient(a, n);
    QuotientBounds(a, n);
    OneMore(n, m);
    OneMore(n, m + 1);
  }

  /** The mean shown is never above the true mean M of all gaps and always above M - 2 --
      exactly when the weighted sum fits 32 bits. */
  lemma MeanIsAccurateIff(gapss: seq<seq<nat>>)
    requires 0 < |Flatten(gapss)| <= U32 / 2
    ensures var all, m := Flatten(gapss), Result(Windows(gapss)).mean;
      m * |all| <= Sum(all) < (m + 2) * |all| <==> Weighted(gapss) < U32
  {
    hide Truncate32, Quotient, Windows, Weighted, Total, Flatten, Sum;
    var all, a := Flatten(gapss), Weighted(gapss);
    TotalIs(gapss);
    WeightedIsClose(gapss);
    if a < U32 {
      WithinTwo(Sum(all), a, |all|);
    } else {
      WrapLoses(a);
      FarBelow(Sum(all), Truncate32(a), |all|);
    }
  }

  lemma WrapLoses(a: nat)
    requires a >= U32
    ensures Truncate32(a) <= a - U32
  {
  }

  // ------------------------------------------------------------------ smallest and largest

  /** The windows that measured anything. */
  function Nonempty(gapss: seq<seq<nat>>): seq<seq<nat>> {
    if gapss == [] then []
    else
      var front, last := Nonempty(gapss[..|gapss| - 1]), gapss[|gapss| - 1];
      if last == [] then front else front + [last]
  }

  ghost predicate SomeZero(gapss: seq<seq<nat>>) {
    exists i :: 0 <= i < |gapss| && gapss[i] != [] && Min(gapss[i]) == 0
  }

  lemma {:induction false} MinAppend(a: seq<nat>, b: seq<nat>)
    requires a != [] && b != []
    ensures Min(a + b) == if Min(b) < Min(a) then Min(b) else Min(a)
    decreases |b|
  {
    assert (a + b)[..|a + b| - 1] == a + b[..|b| - 1];
    if |b| == 1 {
      assert a + b[..0] == a;
    } else {
      MinAppend(a, b[..|b| - 1]);
    }
  }

  lemma {:induction false} MaxAppend(a: seq<nat>, b: seq<nat>)
    ensures Max(a + b) == if Max(b) > Max(a) then Max(b) else Max(a)
    decreases |b|
  {
    if b == [] {
      assert a + b == a;
    } else {
      assert (a + b)[..|a + b| - 1] == a + b[..|b| - 1];
      MaxAppend(a, b[..|b| - 1]);
    }
  }

  lemma {:induction false} MaxIsExact(gapss: seq<seq<nat>>)
    ensures Result(Windows(gapss)).max == Max(Flatten(gapss))
    decreases |gapss|
  {
    if gapss != [] {
      MaxIsExact(gapss[..|gapss| - 1]);
      WindowsFront(gapss);
      MaxAppend(Flatten(gapss[..|gapss| - 1]), gapss[|gapss| - 1]);
    }
  }

  lemma {:induction false} NothingYet(gapss: seq<seq<nat>>)
    requires Flatten(gapss) == []
    ensures Nonempty(gapss) == [] && !SomeZero(gapss) && Total(Windows(gapss)).min == 0
    decreases |gapss|
  {
    if gapss != [] {
      var front := gapss[..|gapss| - 1];
      WindowsFront(gapss);
      NothingYet(front);
      forall i | 0 <= i < |gapss|
        ensures gapss[i] == []
      {
        assert i < |front| ==> front[i] == gapss[i];
        EmptyParts(gapss, i);
      }
    }
  }

  lemma {:induction false} EmptyParts(gapss: seq<seq<nat>>, i: nat)
    requires Flatten(gapss) == [] && i < |gapss|
    ensures gapss[i] == []
    decreases |gapss|
  {
    if i < |gapss| - 1 {
      EmptyParts(gapss[..|gapss| - 1], i);
    }
  }

  lemma SomeZeroLast(gapss: seq<seq<nat>>)
    requires gapss != []
    ensures var last := gapss[|gapss| - 1];
      SomeZero(gapss) <==> SomeZero(gapss[..|gapss| - 1]) || (last != [] && Min(last) == 0)
  {
    var front := gapss[..|gapss| - 1];
    assert forall i :: 0 <= i < |front| ==> front[i] == gapss[i];
  }

  lemma {:induction false} ZeroMinIff(gapss: seq<seq<nat>>)
    requires Flatten(gapss) != []
    ensures SomeZero(gapss) <==> Min(Flatten(gapss)) == 0
    decreases |gapss|
  {
    hide SomeZero, Min;
    var front, last := gapss[..|gapss| - 1], gapss[|gapss| - 1];
    SomeZeroLast(gapss);
    if Flatten(front) == [] {
      NothingYet(front);
      assert Flatten(gapss) == last;
    } else {
      ZeroMinIff(front);
      if last != [] {
        MinAppend(Flatten(front), last);
      } else {
        assert Flatten(gapss) == Flatten(front);
      }
    }
  }

  /** The accumulated minimum takes zero for "nothing yet": it is the true one exactly when no
      window's minimum is zero, or the last window that measured anything has minimum zero. */
  lemma {:induction false} MinIsExactIff(gapss: seq<seq<nat>>)
    requires Flatten(gapss) != []
    ensures var ws := Nonempty(gapss);
      && ws != [] && ws[|ws| - 1] != []
      && (Result(Windows(gapss)).min == Min(Flatten(gapss)) <==>
            !SomeZero(gapss) || Min(ws[|ws| - 1]) == 0)
    decreases |gapss|
  {
    hide Truncate32, Quotient, Weight, Min, SomeZero;
    var front, last := gapss[..|gapss| - 1], gapss[|gapss| - 1];
    WindowsFront(gapss);
    SomeZeroLast(gapss);
    ZeroMinIff(gapss);
    if Flatten(front) == [] {
      NothingYet(front);
      assert Flatten(gapss) == last;
    } else {
      ZeroMinIff(front);
      MinIsExactIff(front);
      if last != [] {
        MinAppend(Flatten(front), last);
        assert Nonempty(gapss) == Nonempty(front) + [last];
      } else {
        assert Flatten(gapss) == Flatten(front);
      }
    }
  }

  /** For instance: two reports read in the same microsecond, then a quieter window. */
  lemma ZeroMinimumIsLost()
    ensures Result(Windows([[0], [5]])).min == 5 && Min(Flatten([[0], [5]])) == 0
  {
    var gapss := [[0], [5]];
    assert Windows(gapss) == [WindowOf([0]), WindowOf([5])];
    var ws := Windows(gapss);
    assert ws[..1] == [ws[0]] && [ws[0]][..0] == [];
    assert gapss[..1] == [[0]] && [[0]][..0] == [];
    assert Flatten([[0]]) == [0] && Flatten(gapss) == [0, 5];
    assert [0, 5][..1] == [0];
  }

  /** For instance: three windows with one long gap each, whose weighted sum wraps to zero. */
  lemma MeanWrapsAround()
    ensures var g := U32 / 4;
      var gapss := [[2 * g], [g], [g]];
      && Weighted(gapss) == U32 && Flatten(gapss) == [2 * g, g, g]
      && Result(Windows(gapss)).mean == 0
  {
    var g := U32 / 4;
    var gapss := [[2 * g], [g], [g]];
    assert gapss[..2] == [[2 * g], [g]] && gapss[..2][..1] == [[2 * g]] && [[2 * g]][..0] == [];
    OneGap(2 * g);
    OneGap(g);
    hide Weight, WindowOf;
    assert Flatten([[2 * g]]) == [2 * g] && Flatten(gapss[..2]) == [2 * g, g];
    assert Weighted([[2 * g]]) == 2 * g && Weighted(gapss[..2]) == 3 * g;
    TotalIs(gapss);
    QuotientBounds(0, 3);
  }

  lemma OneGap(gap: nat)
    ensures Weight(WindowOf([gap])) == gap
  {
    assert [gap][..0] == [];
    assert Sum([gap]) == gap;
    QuotientBounds(gap, 1);
  }

  /** So with every window's minimum positive, the three numbers shown are in order. */
  lemma MinMeanMaxAreOrdered(gapss: seq<seq<nat>>)
    requires 0 < |Flatten(gapss)| < U32 && !SomeZero(gapss) && Weighted(gapss) < U32
    ensures var r := Result(Windows(gapss));
      r.min == Min(Flatten(gapss)) && r.min <= r.mean <= r.max == Max(Flatten(gapss))
  {
    hide Truncate32, Quotient, Windows, Weighted, Total, Flatten, Sum, Min, Max, SomeZero;
    var all := Flatten(gapss);
    TotalIs(gapss);
    MinIsExactIff(gapss);
    MaxIsExact(gapss);
    WeightedIsClose(gapss);
    SumIsBetween(all);
    WeightedAtLeast(gapss, Min(all));
    QuotientBetween(Min(all), Weighted(gapss), Max(all), |all|);
  }

  lemma {:induction false} WeightedAtLeast(gapss: seq<seq<nat>>, floor: nat)
    requires Flatten(gapss) != [] ==> floor <= Min(Flatten(gapss))
    ensures floor * |Flatten(gapss)| <= Weighted(gapss)
    decreases |gapss|
  {
    hide Weight, Min, WindowOf;
    if gapss != [] {
      var front, gaps := gapss[..|gapss| - 1], gapss[|gapss| - 1];
      if gaps != [] && Flatten(front) != [] {
        MinAppend(Flatten(front), gaps);
      } else if gaps != [] {
        assert Flatten(gapss) == gaps;
      } else {
        assert Flatten(gapss) == Flatten(front);
      }
      WeightedAtLeast(front, floor);
      WeightAtLeast(gaps, floor);
      Distribute(floor, |Flatten(front)|, |gaps|);
    }
  }

  lemma WeightAtLeast(gaps: seq<nat>, floor: nat)
    requires gaps != [] ==> floor <= Min(gaps)
    ensures floor * |gaps| <= Weight(WindowOf(gaps))
  {
    hide Quotient, Min;
    if gaps != [] {
      MeanIsBetween(gaps);
      Larger(floor, Quotient(Sum(gaps), |gaps|), |gaps|);
    }
  }

  lemma Distribute(a: nat, x: nat, y: nat)
    ensures a * (x + y) == a * x + a * y
  {
  }

  // ------------------------------------------------------------------------------ latency

  function Extras(latss: seq<seq<nat>>, elapsed: seq<nat>): seq<Extra>
    requires |latss| == |elapsed|
  {
    seq(|latss|, i requires 0 <= i < |latss| => ExtraOf(latss[i], elapsed[i]))
  }

  /** As long as every window has one latency per interval, the latency shown is what measuring
      intervals of that length would show, so the same error bound applies to it. */
  lemma {:induction false} LatencyIsMeasuredLikeIntervals(gapss: seq<seq<nat>>, latss: seq<seq<nat>>, elapsed: seq<nat>)
    requires |gapss| == |latss| == |elapsed| && forall i :: 0 <= i < |gapss| ==> |gapss[i]| == |latss[i]|
    ensures var ws, es, ls := Windows(gapss), Extras(latss, elapsed), Windows(latss);
      && Total(ws).reports == Total(ls).reports && TotalExtra(ws, es).latencyMean == Total(ls).mean
      && ResultExtra(ws, es).latencyMean == Result(ls).mean
    decreases |gapss|
  {
    hide Accumulate, AccumulateExtra, WindowOf, ExtraOf, Quotient;
    if gapss != [] {
      var n := |gapss| - 1;
      LatencyIsMeasuredLikeIntervals(gapss[..n], latss[..n], elapsed[..n]);
      WindowsFront(gapss);
      WindowsFront(latss);
      ExtrasFront(latss, elapsed);
      SameWeight(gapss[n], latss[n], elapsed[n]);
      SameStep(Total(Windows(gapss[..n])), TotalExtra(Windows(gapss[..n]), Extras(latss[..n], elapsed[..n])),
               Total(Windows(latss[..n])), WindowOf(gapss[n]), ExtraOf(latss[n], elapsed[n]), WindowOf(latss[n]));
    }
  }

  lemma SameStep(a: Stats, x: Extra, b: Stats, w: Stats, e: Extra, l: Stats)
    requires a.reports == b.reports && x.latencyMean == b.mean
    requires w.reports == l.reports && LatencyWeight(w, e) == Weight(l)
    ensures Accumulate(a, w).reports == Accumulate(b, l).reports
    ensures AccumulateExtra(x, w, e).latencyMean == Accumulate(b, l).mean
  {
    hide Truncate32, Truncate64, Weight, LatencyWeight;
  }

  lemma ExtrasFront(latss: seq<seq<nat>>, elapsed: seq<nat>)
    requires |latss| == |elapsed| > 0
    ensures var n := |latss| - 1;
      Extras(latss, elapsed)[..n] == Extras(latss[..n], elapsed[..n]) && Extras(latss, elapsed)[n] == ExtraOf(latss[n], elapsed[n])
  {
  }

  lemma SameWeight(gaps: seq<nat>, lats: seq<nat>, elapsed: nat)
    requires |gaps| == |lats|
    ensures LatencyWeight(WindowOf(gaps), ExtraOf(lats, elapsed)) == Weight(WindowOf(lats))
    ensures WindowOf(gaps).reports == WindowOf(lats).reports
  {
    hide Quotient;
  }

  /** The mean a window's line carries. */
  function MeanOf(lats: seq<nat>): nat {
    WindowOf(lats).mean
  }

  /** The weighted sum of latencies before any wrap-around. */
  function LatencyWeighted(gapss: seq<seq<nat>>, latss: seq<seq<nat>>): nat
    requires |gapss| == |latss|
    decreases |gapss|
  {
    if gapss == [] then 0
    else
      var n := |gapss| - 1;
      LatencyWeighted(gapss[..n], latss[..n]) + MeanOf(latss[n]) * |gapss[n]|
  }

  lemma {:induction false} TotalExtraIs(gapss: seq<seq<nat>>, latss: seq<seq<nat>>, elapsed: seq<nat>)
    requires |gapss| == |latss| == |elapsed|
    ensures TotalExtra(Windows(gapss), Extras(latss, elapsed)).latencyMean == Truncate32(LatencyWeighted(gapss, latss))
    decreases |gapss|
  {
    hide Truncate32, Truncate64, Quotient;
    if gapss != [] {
      var n := |gapss| - 1;
      TotalExtraIs(gapss[..n], latss[..n], elapsed[..n]);
      WindowsFront(gapss);
      ExtrasFront(latss, elapsed);
      CountsOnce(gapss[n], latss[n], elapsed[n]);
      WrapInside(MeanOf(latss[n]) * |gapss[n]|, LatencyWeighted(gapss[..n], latss[..n]));
    }
  }

  lemma CountsOnce(gaps: seq<nat>, lats: seq<nat>, elapsed: nat)
    ensures LatencyWeight(WindowOf(gaps), ExtraOf(lats, elapsed)) == MeanOf(lats) * |gaps|
  {
    hide Quotient;
  }

  lemma LatencyShown(gapss: seq<seq<nat>>, latss: seq<seq<nat>>, elapsed: seq<nat>)
    requires |gapss| == |latss| == |elapsed| && 0 < |Flatten(gapss)| < U32
    ensures ResultExtra(Windows(gapss), Extras(latss, elapsed)).latencyMean ==
              Quotient(Truncate32(LatencyWeighted(gapss, latss)), |Flatten(gapss)|)
  {
    hide Truncate32, Quotient, Windows, Extras, Total, TotalExtra, LatencyWeighted;
    TotalIs(gapss);
    TotalExtraIs(gapss, latss, elapsed);
  }

  /** g is to n as l is to m. */
  predicate Share(g: nat, l: nat, n: nat, m: nat) {
    g * m == l * n
  }

  /** Every window holds the same share of the latencies as of the intervals. */
  predicate SameShares(gapss: seq<seq<nat>>, latss: seq<seq<nat>>)
    requires |gapss| == |latss|
  {
    forall i :: 0 <= i < |gapss| ==> Share(|gapss[i]|, |latss[i]|, |Flatten(gapss)|, |Flatten(latss)|)
  }

  /** `mean` is not above the true mean of `xs` and above it less two. */
  predicate IsMean(mean: nat, xs: seq<nat>) {
    mean * |xs| <= Sum(xs) < (mean + 2) * |xs|
  }

  lemma AddShares(a: nat, b: nat, mean: nat, g: nat, l: nat, n: nat, m: nat)
    requires Share(a, b, n, m) && Share(g, l, n, m)
    ensures Share(a + mean * g, b + mean * l, n, m)
  {
    assert (a + mean * g) * m == a * m + mean * (g * m);
    assert (b + mean * l) * n == b * n + mean * (l * n);
  }

  lemma WeightIs(lats: seq<nat>)
    ensures Weight(WindowOf(lats)) == MeanOf(lats) * |lats|
  {
    hide Quotient;
  }

  /** With the same shares, weighting by intervals amounts to weighting by latencies. */
  lemma {:induction false} SharesCarryOver(gapss: seq<seq<nat>>, latss: seq<seq<nat>>, n: nat, m: nat)
    requires |gapss| == |latss| && forall i :: 0 <= i < |gapss| ==> Share(|gapss[i]|, |latss[i]|, n, m)
    ensures Share(LatencyWeighted(gapss, latss), Weighted(latss), n, m)
    decreases |gapss|
  {
    hide WindowOf, Weight, MeanOf;
    if gapss != [] {
      hide Share;
      var k := |gapss| - 1;
      SharesCarryOver(gapss[..k], latss[..k], n, m);
      WeightIs(latss[k]);
      AddShares(LatencyWeighted(gapss[..k], latss[..k]), Weighted(latss[..k]), MeanOf(latss[k]), |gapss[k]|, |latss[k]|, n, m);
    }
  }

  lemma Cancel(x: nat, y: nat, k: nat)
    requires k > 0
    ensures x * k <= y * k <==> x <= y
  {
    if x <= y {
      Larger(x, y, k);
    } else {
      Larger(y + 1, x, k);
    }
  }

  /** Comparing with a multiple carries over between numbers in the same share. */
  lemma SharesCompare(r: nat, w: nat, v: nat, n: nat, m: nat)
    requires Share(w, v, n, m) && n > 0 && m > 0
    ensures r * n <= w <==> r * m <= v
  {
    Cancel(r * n, w, m);
    Cancel(r * m, v, n);
    assert r * n * m == r * m * n;
  }

  /** The largest latency is exact, and the window lengths add up, within 64 bits. */
  lemma {:induction false} LatencyMaxIsExact(gapss: seq<seq<nat>>, latss: seq<seq<nat>>, elapsed: seq<nat>)
    requires |gapss| == |latss| == |elapsed|
    ensures var r := ResultExtra(Windows(gapss), Extras(latss, elapsed));
      r.latencyMax == Max(Flatten(latss)) && (Sum(elapsed) < U64 ==> r.windowUs == Sum(elapsed))
    decreases |gapss|
  {
    hide Truncate32, Quotient, WindowOf, LatencyWeight;
    if gapss != [] {
      var n := |gapss| - 1;
      LatencyMaxIsExact(gapss[..n], latss[..n], elapsed[..n]);
      WindowsFront(gapss);
      ExtrasFront(latss, elapsed);
      MaxAppend(Flatten(latss[..n]), latss[n]);
    }
  }

  /** With the same shares the latency shown is as good as the interval mean: exactly when the
      weighted sum fits 32 bits. */
  lemma LatencyIsAccurateIff(gapss: seq<seq<nat>>, latss: seq<seq<nat>>, elapsed: seq<nat>)
    requires |gapss| == |latss| == |elapsed| && 0 < |Flatten(gapss)| <= U32 / 2 && Flatten(latss) != []
    requires SameShares(gapss, latss)
    ensures IsMean(ResultExtra(Windows(gapss), Extras(latss, elapsed)).latencyMean, Flatten(latss)) <==>
              LatencyWeighted(gapss, latss) < U32
  {
    hide Truncate32, Quotient, Windows, Extras, Weighted, LatencyWeighted, Flatten, Sum, Share;
    LatencyShown(gapss, latss, elapsed);
    WrapDecides(gapss, latss, Truncate32(LatencyWeighted(gapss, latss)));
  }

  lemma WrapDecides(gapss: seq<seq<nat>>, latss: seq<seq<nat>>, shown: nat)
    requires |gapss| == |latss| && 0 < |Flatten(gapss)| <= U32 / 2 && Flatten(latss) != []
    requires SameShares(gapss, latss) && shown == Truncate32(LatencyWeighted(gapss, latss))
    ensures IsMean(Quotient(shown, |Flatten(gapss)|), Flatten(latss)) <==> LatencyWeighted(gapss, latss) < U32
  {
    var n, m, w := |Flatten(gapss)|, |Flatten(latss)|, LatencyWeighted(gapss, latss);
    hide Truncate32, Quotient, Weighted, LatencyWeighted, Flatten, Sum, Share;
    SharesCarryOver(gapss, latss, n, m);
    WeightedIsClose(latss);
    if w < U32 {
      CutMean(w, Weighted(latss), Sum(Flatten(latss)), n, m);
    } else {
      WrapLoses(w);
      TooSmall(shown, w, Weighted(latss), Sum(Flatten(latss)), n, m);
    }
  }

  lemma CutMean(w: nat, v: nat, s: nat, n: nat, m: nat)
    requires Share(w, v, n, m) && n > 0 && v <= s < v + m
    ensures var r := Quotient(w, n); r * m <= s < (r + 2) * m
  {
    hide Quotient, Share;
    var r := Quotient(w, n);
    QuotientBounds(w, n);
    OneMore(n, r);
    SharesCompare(r, w, v, n, m);
    SharesCompare(r + 1, w, v, n, m);
    OneMore(m, r + 1);
  }

  lemma TooSmall(a: nat, w: nat, v: nat, s: nat, n: nat, m: nat)
    requires Share(w, v, n, m) && n > 0 && m > 0 && v <= s && a + 2 * n <= w
    ensures (Quotient(a, n) + 2) * m <= s
  {
    hide Quotient, Share;
    FarBelow(w, a, n);
    SharesCompare(Quotient(a, n) + 2, w, v, n, m);
  }

  ghost predicate SameShape(a: seq<seq<nat>>, b: seq<seq<nat>>) {
    |a| == |b| && forall i :: 0 <= i < |a| ==> |a[i]| == |b[i]|
  }

  /** What would be shown if nothing wrapped. */
  function Unwrapped(gapss: seq<seq<nat>>, latss: seq<seq<nat>>): nat
    requires |gapss| == |latss| && Flatten(gapss) != []
  {
    Quotient(LatencyWeighted(gapss, latss), |Flatten(gapss)|)
  }

  lemma {:induction false} ShapeLength(a: seq<seq<nat>>, b: seq<seq<nat>>)
    requires SameShape(a, b)
    ensures |Flatten(a)| == |Flatten(b)|
    decreases |a|
  {
    if a != [] {
      ShapeLength(a[..|a| - 1], b[..|b| - 1]);
    }
  }

  lemma SharesGiveMean(gapss: seq<seq<nat>>, latss: seq<seq<nat>>)
    requires |gapss| == |latss| && Flatten(gapss) != [] && Flatten(latss) != [] && SameShares(gapss, latss)
    ensures IsMean(Unwrapped(gapss, latss), Flatten(latss))
  {
    var n, m := |Flatten(gapss)|, |Flatten(latss)|;
    hide Quotient, Weighted, LatencyWeighted, Flatten, Sum, Share;
    SharesCarryOver(gapss, latss, n, m);
    WeightedIsClose(latss);
    CutMean(LatencyWeighted(gapss, latss), Weighted(latss), Sum(Flatten(latss)), n, m);
  }

  /** If no window has too many latencies then none has too few. */
  lemma {:induction false} SharesBalance(gapss: seq<seq<nat>>, latss: seq<seq<nat>>, n: nat, m: nat)
    requires |gapss| == |latss| && forall i :: 0 <= i < |gapss| ==> n * |latss[i]| <= m * |gapss[i]|
    ensures n * |Flatten(latss)| <= m * |Flatten(gapss)|
    ensures n * |Flatten(latss)| == m * |Flatten(gapss)| ==>
              forall i :: 0 <= i < |gapss| ==> Share(|gapss[i]|, |latss[i]|, n, m)
    decreases |gapss|
  {
    if gapss != [] {
      var k := |gapss| - 1;
      SharesBalance(gapss[..k], latss[..k], n, m);
      Distribute(n, |Flatten(latss[..k])|, |latss[k]|);
      Distribute(m, |Flatten(gapss[..k])|, |gapss[k]|);
      forall i | 0 <= i < |gapss| && n * |Flatten(latss)| == m * |Flatten(gapss)|
        ensures Share(|gapss[i]|, |latss[i]|, n, m)
      {
        assert i < k ==> gapss[..k][i] == gapss[i] && latss[..k][i] == latss[i];
      }
    }
  }

  /** All latencies of window `j` are `lat`, all others zero. */
  function Spike(latss: seq<seq<nat>>, j: nat, lat: nat): (r: seq<seq<nat>>)
    ensures |r| == |latss|
  {
    seq(|latss|, i requires 0 <= i < |latss| => Constant(if i == j then lat else 0, |latss[i]|))
  }

  function Constant(x: nat, n: nat): (r: seq<nat>)
    ensures |r| == n
  {
    seq(n, _ => x)
  }

  lemma {:induction false} SumOfConstant(x: nat, n: nat)
    ensures Sum(Constant(x, n)) == x * n
    ensures n > 0 ==> MeanOf(Constant(x, n)) == x
    decreases n
  {
    if n > 0 {
      assert Constant(x, n)[..n - 1] == Constant(x, n - 1);
      SumOfConstant(x, n - 1);
      OneMore(x, n - 1);
      hide Quotient;
      QuotientBetween(x, x * n, x, n);
    }
  }

  lemma {:induction false} SpikeSums(gapss: seq<seq<nat>>, latss: seq<seq<nat>>, j: nat, lat: nat)
    requires |gapss| == |latss| && (j < |latss| ==> latss[j] != [])
    ensures var spike := Spike(latss, j, lat);
      && Sum(Flatten(spike)) == (if j < |latss| then lat * |latss[j]| else 0)
      && LatencyWeighted(gapss, spike) == (if j < |latss| then lat * |gapss[j]| else 0)
    decreases |gapss|
  {
    hide MeanOf, Constant;
    if gapss != [] {
      var k, spike := |gapss| - 1, Spike(latss, j, lat);
      assert spike[..k] == Spike(latss[..k], j, lat);
      SpikeSums(gapss[..k], latss[..k], j, lat);
      SumAppend(Flatten(spike[..k]), spike[k]);
      SumOfConstant(if k == j then lat else 0, |latss[k]|);
      assert latss[k] == [] ==> MeanOf(spike[k]) == 0 by { NoLatency(spike[k]); }
    }
  }

  lemma NoLatency(lats: seq<nat>)
    ensures lats == [] ==> MeanOf(lats) == 0
  {
  }

  /** A long enough latency in a window with too many of them shows up too little. */
  lemma SpikeIsLost(g: nat, l: nat, n: nat, m: nat)
    requires n > 0 && g * m < l * n
    ensures var lat := 2 * n * m; (Quotient(lat * g, n) + 2) * m <= lat * l
  {
    hide Quotient;
    var lat := 2 * n * m;
    var r := Quotient(lat * g, n);
    QuotientBounds(lat * g, n);
    OneMore(n, r);
    OneMore(n, r + 1);
    Larger((r + 2) * n, lat * g + 2 * n, m);
    ScaledBack(lat, g, n, m);
    Larger(g * m + 1, l * n, lat);
    Reorder(r + 2, n, m);
    Reorder(lat, l, n);
    Cancel((r + 2) * m, lat * l, n);
  }

  lemma ScaledBack(lat: nat, g: nat, n: nat, m: nat)
    requires lat == 2 * n * m
    ensures (lat * g + 2 * n) * m == (g * m + 1) * lat
  {
    assert (lat * g + 2 * n) * m == lat * (g * m) + lat;
  }

  lemma Reorder(a: nat, b: nat, c: nat)
    ensures a * b * c == a * c * b == b * c * a
  {
  }

  lemma SpikeIsNoMean(gapss: seq<seq<nat>>, latss: seq<seq<nat>>, j: nat)
    requires |gapss| == |latss| && Flatten(gapss) != [] && j < |latss|
    requires |gapss[j]| * |Flatten(latss)| < |latss[j]| * |Flatten(gapss)|
    ensures exists other :: SameShape(other, latss) && !IsMean(Unwrapped(gapss, other), Flatten(other))
  {
    hide Quotient, Flatten, Sum, LatencyWeighted;
    var n, m := |Flatten(gapss)|, |Flatten(latss)|;
    var other := Spike(latss, j, 2 * n * m);
    SpikeSums(gapss, latss, j, 2 * n * m);
    SpikeIsLost(|gapss[j]|, |latss[j]|, n, m);
    ShapeLength(other, latss);
  }

  /** Weighting latencies by intervals is right for whatever latencies the windows may have if
      and only if every window holds the same share of the latencies as of the intervals. */
  lemma LatencyIsRightIff(gapss: seq<seq<nat>>, latss: seq<seq<nat>>)
    requires |gapss| == |latss| && Flatten(gapss) != [] && Flatten(latss) != []
    ensures (forall other :: SameShape(other, latss) ==> IsMean(Unwrapped(gapss, other), Flatten(other))) <==>
              SameShares(gapss, latss)
  {
    hide Flatten, IsMean, Unwrapped, Share;
    var n, m := |Flatten(gapss)|, |Flatten(latss)|;
    if SameShares(gapss, latss) {
      forall other | SameShape(other, latss)
        ensures IsMean(Unwrapped(gapss, other), Flatten(other))
      {
        ShapeLength(other, latss);
        SharesGiveMean(gapss, other);
      }
    } else if j :| 0 <= j < |gapss| && |latss[j]| * n > |gapss[j]| * m {
      SpikeIsNoMean(gapss, latss, j);
    } else {
      SharesBalance(gapss, latss, n, m);
      assert false;
    }
  }

  /** For instance, a report forwarded late, in a window without an interval, counts for
      nothing. */
  lemma LatencyIsMisweighted()
    ensures var ws, es := Windows([[], [5]]), Extras([[90], [0]], [0, 0]);
      ResultExtra(ws, es).latencyMean == 0 && Sum([90, 0]) == 90
  {
    hide Quotient, Truncate32, ResultExtra, Windows, Extras;
    var gapss: seq<seq<nat>>, latss: seq<seq<nat>> := [[], [5]], [[90], [0]];
    var g: seq<seq<nat>> := [[]];
    assert gapss[..1] == g && g[..0] == [] && latss[..1] == [[90]];
    assert Flatten(g) == [] && Flatten(gapss) == [5];
    OneGap(0);
    LatencyShown(gapss, latss, [0, 0]);
    OneLatency(0);
    assert LatencyWeighted(g, [[90]]) == 0 && LatencyWeighted(gapss, latss) == 0;
    QuotientBounds(0, 1);
    assert [90, 0][..1] == [90] && [90][..0] == [];
  }

  lemma OneLatency(lat: nat)
    ensures MeanOf([lat]) == lat
  {
    assert [lat][..0] == [];
    assert Sum([lat]) == lat;
    QuotientBounds(lat, 1);
  }
}
