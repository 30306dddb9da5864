/**
Adaptive timeouts: per kind of operation the tracker keeps the latest durations and recommends a
timeout from their 95th percentile. The percentile index is the exact one; the scaling is done in
64-bit integers, as in the driver.
*/
module AdaptiveTimeout {
  import opened Basics

  datatype ObservationKey = ObservationKey(operation: string, backend: string, sizeBucket: string)
  datatype Sample = Sample(duration: Duration, observedAt: Time)
  datatype Config = Config(
    enabled: bool, minSamples: int, sampleWindow: int, multiplierPercent: int, maxTimeout: Duration)

  predicate ValidConfig(cfg: Config) {
    cfg.minSamples > 0 && cfg.sampleWindow > 0 && cfg.multiplierPercent > 0
  }

  function Effective(cfg: Config): (c: Config)
    ensures ValidConfig(c)
  {
    cfg.(minSamples := if cfg.minSamples <= 0 then 8 else cfg.minSamples,
         sampleWindow := if cfg.sampleWindow <= 0 then 20 else cfg.sampleWindow,
         multiplierPercent := if cfg.multiplierPercent <= 0 then 400 else cfg.multiplierPercent)
  }

  function LastN<T>(s: seq<T>, n: nat): (r: seq<T>)
    ensures |r| <= n && |r| <= |s|
  {
    if |s| <= n then s else s[|s| - n..]
  }

  // ---- Sorting and counting -----------------------------------------------------------------

  predicate Ascending(s: seq<int>) {
    forall i, j | 0 <= i <= j < |s| :: s[i] <= s[j]
  }

  /** How many elements are at most x. */
  function AtMost(s: seq<int>, x: int): (n: nat)
    ensures n <= |s|
  {
    if s == [] then 0 else AtMost(s[..|s| - 1], x) + if s[|s| - 1] <= x then 1 else 0
  }

  lemma {:induction false} AtMostOfSum(a: seq<int>, b: seq<int>, x: int)
    ensures AtMost(a + b, x) == AtMost(a, x) + AtMost(b, x)
  {
    if b == [] {
      assert a + b == a;
    } else {
      var last := |b| - 1;
      assert (a + b)[..|a + b| - 1] == a + b[..last];
      AtMostOfSum(a, b[..last], x);
    }
  }

  lemma {:induction false} AtMostIsOrderless(a: seq<int>, b: seq<int>, x: int)
    requires multiset(a) == multiset(b)
    ensures AtMost(a, x) == AtMost(b, x)
  {
    if a == [] {
      assert |multiset(b)| == 0;
    } else {
      var last := |a| - 1;
      assert a == a[..last] + [a[last]];
      assert a[last] in multiset(b);
      var k :| 0 <= k < |b| && b[k] == a[last];
      var rest := b[..k] + b[k + 1..];
      assert b == b[..k] + [b[k]] + b[k + 1..];
      assert multiset(rest) == multiset(b) - multiset{b[k]};
      AtMostIsOrderless(a[..last], rest, x);
      AtMostOfSum(b[..k] + [b[k]], b[k + 1..], x);
      AtMostOfSum(b[..k], [b[k]], x);
      AtMostOfSum(b[..k], b[k + 1..], x);
    }
  }

  /** In an ascending sequence, element k is at most x exactly when more than k elements are. */
  lemma {:induction false} ElementIff(s: seq<int>, k: nat, x: int)
    requires Ascending(s) && k < |s|
    ensures s[k] <= x <==> AtMost(s, x) > k
  {
    var last := |s| - 1;
    if s[last] <= x {
      AllAtMost(s, x);
    } else if k < last {
      ElementIff(s[..last], k, x);
    }
  }

  lemma {:induction false} AllAtMost(s: seq<int>, x: int)
    requires forall i | 0 <= i < |s| :: s[i] <= x
    ensures AtMost(s, x) == |s|
  {
    if s != [] {
      AllAtMost(s[..|s| - 1], x);
    }
  }

  function Insert(s: seq<int>, x: int): (r: seq<int>)
    ensures |r| == |s| + 1
  {
    s[..AtMost(s, x)] + [x] + s[AtMost(s, x)..]
  }

  lemma InsertAscends(s: seq<int>, x: int)
    requires Ascending(s)
    ensures Ascending(Insert(s, x))
  {
    var k := AtMost(s, x);
    forall i | 0 <= i < |s|
      ensures s[i] <= x <==> i < k
    {
      ElementIff(s, i, x);
    }
  }

  lemma InsertCounts(s: seq<int>, x: int, y: int)
    ensures AtMost(Insert(s, x), y) == AtMost(s + [x], y)
  {
    var k := AtMost(s, x);
    AtMostOfSum(s[..k] + [x], s[k..], y);
    AtMostOfSum(s[..k], [x], y);
    AtMostOfSum(s[..k], s[k..], y);
    AtMostOfSum(s, [x], y);
    assert s[..k] + s[k..] == s;
  }

  /** The result of sorting: ascending, with the same counts and elements, as the lemmas below say. */
  function Sorted(s: seq<int>): (r: seq<int>)
    ensures |r| == |s|
  {
    if s == [] then [] else Insert(Sorted(s[..|s| - 1]), s[|s| - 1])
  }

  lemma {:induction false} SortedAscends(s: seq<int>)
    ensures Ascending(Sorted(s))
  {
    if s != [] {
      SortedAscends(s[..|s| - 1]);
      InsertAscends(Sorted(s[..|s| - 1]), s[|s| - 1]);
    }
  }

  lemma {:induction false} SortedCounts(s: seq<int>, y: int)
    ensures AtMost(Sorted(s), y) == AtMost(s, y)
  {
    if s != [] {
      var front, x := s[..|s| - 1], s[|s| - 1];
      SortedCounts(front, y);
      InsertCounts(Sorted(front), x, y);
      AtMostOfSum(Sorted(front), [x], y);
    }
  }

  lemma {:induction false} SortedElements(s: seq<int>, i: nat)
    requires i < |s|
    ensures Sorted(s)[i] in s
  {
    var front, x := s[..|s| - 1], s[|s| - 1];
    var k := AtMost(Sorted(front), x);
    if i < k {
      SortedElements(front, i);
    } else if i > k {
      SortedElements(front, i - 1);
    }
  }

  /** Raising one element can only lower the counts. */
  lemma {:induction false} RaisingLowersCounts(s: seq<int>, i: nat, d: int, x: int)
    requires i < |s| && s[i] <= d
    ensures AtMost(s[i := d], x) <= AtMost(s, x)
  {
    var last := |s| - 1;
    if i < last {
      assert s[i := d][..last] == s[..last][i := d];
      RaisingLowersCounts(s[..last], i, d, x);
    } else {
      assert s[i := d][..last] == s[..last];
    }
  }

  // ---- The percentile index -----------------------------------------------------------------

  /** The double nearest to 0.95. */
  const NEARLY95: real := 8556839292003942.0 / 9007199254740992.0

  function Ceiling(y: real): int {
    -((-y).Floor)
  }

  /** What rounding a product below 2^40 to a double may do: err by less than 1/1000, and cross no whole number. */
  predicate IsRounded(y: real, x: real) {
    x - 0.001 < y < x + 0.001 && x.Floor as real <= y <= Ceiling(x) as real
  }

  /** The index the driver computes in floating point is the exact one, for every window of up to 2^40 samples. */
  lemma FloatIndexIsExact(n: nat, y: real)
    requires 0 < n < 0x100_0000_0000 && IsRounded(y, n as real * NEARLY95)
    ensures Ceiling(y) - 1 == P95Index(n)
  {
    var x := n as real * NEARLY95;
    var k := P95Index(n) + 1;
    assert 100 * (k - 1) < 95 * n <= 100 * k;
    NearlyProduct(n, k);
    assert Ceiling(x) == k;
  }

  /** 0.95 n lies 1/20 or more above k - 1, and the double's error takes away next to nothing. */
  lemma NearlyProduct(n: nat, k: int)
    requires 0 < n < 0x100_0000_0000 && 100 * (k - 1) < 95 * n <= 100 * k
    ensures n as real * NEARLY95 <= k as real
    ensures (k - 1) as real + 0.049 < n as real * NEARLY95
  {
    var r := n as real;
    assert 20 * (k - 1) + 1 <= 19 * n;
    assert 20.0 * (k as real - 1.0) + 1.0 <= 19.0 * r && 19.0 * r <= 20.0 * k as real;
    assert 0.9499999999999999 < NEARLY95 < 0.95;
  }

  // ---- The percentile -----------------------------------------------------------------------

  /** ceil(0.95 n) - 1 */
  function P95Index(n: nat): (k: nat)
    requires n > 0
    ensures k < n
  {
    (95 * n + 99) / 100 - 1
  }

  function P95(durations: seq<Duration>): Duration
    requires durations != []
  {
    Sorted(durations)[P95Index(|durations|)]
  }

  /**
  What the percentile is, without sorting: it is at most x exactly when at least 95 percent of the
  samples are.
  */
  lemma P95Iff(durations: seq<Duration>, x: Duration)
    requires durations != []
    ensures P95(durations) <= x <==> 100 * AtMost(durations, x) >= 95 * |durations|
  {
    SortedAscends(durations);
    SortedCounts(durations, x);
    ElementIff(Sorted(durations), P95Index(|durations|), x);
  }

  lemma P95IsASample(durations: seq<Duration>)
    requires durations != []
    ensures P95(durations) in durations
  {
    SortedElements(durations, P95Index(|durations|));
  }

  // ---- The recommendation -------------------------------------------------------------------

  /** The scaled duration, in 64-bit arithmetic. */
  function Scaled(d: Duration, percent: int): int {
    TruncatedQuotient(Wrap(Wrap(d * percent) + 99), 100)
  }

  /** The scaled duration as it is meant, rounded up. */
  function ExactlyScaled(d: Duration, percent: int): int {
    (d * percent + 99) / 100
  }

  predicate Fits(d: Duration, percent: int) {
    d * percent + 99 < TWO63
  }

  /** The two agree exactly as long as the product fits. */
  lemma ScaledIsExactIff(d: Duration, percent: int)
    requires d >= 0 && percent > 0
    ensures Scaled(d, percent) == ExactlyScaled(d, percent) <==> Fits(d, percent)
  {
    ScaledProduct(d * percent);
  }

  lemma ScaledProduct(x: int)
    requires x >= 0
    ensures TruncatedQuotient(Wrap(Wrap(x) + 99), 100) == (x + 99) / 100 <==> x + 99 < TWO63
  {
    var w := Wrap(Wrap(x) + 99);
    assert x + 99 >= TWO63 + 99 ==> (x + 99) / 100 > (TWO63 - 1) / 100;
    assert w >= 0 ==> TruncatedQuotient(w, 100) <= (TWO63 - 1) / 100;
  }

  function Recommendation(durations: seq<Duration>, cfg: Config, floor: Duration): Duration {
    if !cfg.enabled || durations == [] || |durations| < cfg.minSamples then floor
    else
      var scaled := Scaled(P95(durations), cfg.multiplierPercent);
      var raised := if scaled < floor then floor else scaled;
      if cfg.maxTimeout > 0 && raised > cfg.maxTimeout then cfg.maxTimeout else raised
  }

  predicate Adapts(durations: seq<Duration>, cfg: Config) {
    ValidConfig(cfg) && cfg.enabled && |durations| >= cfg.minSamples
  }

  predicate WithinBounds(r: Duration, cfg: Config, floor: Duration) {
    floor <= r && (cfg.maxTimeout > 0 ==> r <= cfg.maxTimeout)
  }

  /** The bounds hold exactly when they do not contradict each other; otherwise the maximum wins over the floor. */
  lemma BoundsIff(durations: seq<Duration>, cfg: Config, floor: Duration)
    requires Adapts(durations, cfg)
    ensures WithinBounds(Recommendation(durations, cfg, floor), cfg, floor)
       <==> cfg.maxTimeout <= 0 || floor <= cfg.maxTimeout
    ensures cfg.maxTimeout > 0 && floor > cfg.maxTimeout ==> Recommendation(durations, cfg, floor) == cfg.maxTimeout
  {
  }

  /** A floor of 20 and a maximum of 10: the recommendation is the maximum, below the floor. */
  lemma FloorAboveMaximum()
    ensures var cfg := Config(true, 1, 20, 400, 10);
            Adapts([1], cfg) && Recommendation([1], cfg, 20) == 10 && !WithinBounds(10, cfg, 20)
  {
    BoundsIff([1], Config(true, 1, 20, 400, 10), 20);
  }

  lemma ScaledIsMonotone(a: Duration, b: Duration, percent: int)
    requires 0 <= a <= b && percent > 0 && Fits(b, percent)
    ensures Scaled(a, percent) <= Scaled(b, percent)
  {
    assert a * percent <= b * percent by {
      assert 0 <= (b - a) * percent;
    }
    ScaledIsExactIff(a, percent);
    ScaledIsExactIff(b, percent);
  }

  lemma P95IsOrderless(a: seq<Duration>, b: seq<Duration>)
    requires multiset(a) == multiset(b) && a != [] && b != []
    ensures |a| == |b| && P95(a) == P95(b)
  {
    assert |a| == |multiset(a)| == |multiset(b)| == |b|;
    var x, y := P95(a), P95(b);
    AtMostIsOrderless(a, b, x);
    AtMostIsOrderless(a, b, y);
    P95Iff(a, x);
    P95Iff(b, x);
    P95Iff(a, y);
    P95Iff(b, y);
  }

  /** The recommendation depends on the samples, not on their order. */
  lemma OrderDoesNotMatter(a: seq<Duration>, b: seq<Duration>, cfg: Config, floor: Duration)
    requires multiset(a) == multiset(b)
    ensures Recommendation(a, cfg, floor) == Recommendation(b, cfg, floor)
  {
    assert a == [] <==> |multiset(a)| == 0;
    assert b == [] <==> |multiset(b)| == 0;
    if a != [] {
      P95IsOrderless(a, b);
    }
  }

  lemma LongerSampleRaisesP95(s: seq<Duration>, i: nat, d: Duration)
    requires i < |s| && s[i] <= d
    ensures P95(s) <= P95(s[i := d])
  {
    var x := P95(s[i := d]);
    P95Iff(s[i := d], x);
    RaisingLowersCounts(s, i, d, x);
    P95Iff(s, x);
  }

  /** A longer sample never lowers the recommendation, as long as the scaled percentile fits. */
  lemma LongerSampleNeverLowers(s: seq<Duration>, i: nat, d: Duration, cfg: Config, floor: Duration)
    requires ValidConfig(cfg) && forall x | x in s :: x > 0
    requires i < |s| && s[i] <= d && Fits(P95(s[i := d]), cfg.multiplierPercent)
    ensures Recommendation(s, cfg, floor) <= Recommendation(s[i := d], cfg, floor)
  {
    P95IsASample(s);
    LongerSampleRaisesP95(s, i, d);
    ScaledIsMonotone(P95(s), P95(s[i := d]), cfg.multiplierPercent);
  }

  /** Where it does not fit, a longer sample can lower it: the product of 2^62 and 400 wraps to nothing. */
  lemma OverflowLowers()
    ensures var cfg := Config(true, 1, 20, 400, 0);
            Recommendation([1], cfg, 0) == 4 && Recommendation([TWO63 / 2], cfg, 0) == 0
  {
    P95IsASample([1]);
    P95IsASample([TWO63 / 2]);
    assert Wrap(TWO63 / 2 * 400) == 0;
  }

  // ---- Exactly when it is monotone ----------------------------------------------------------

  ghost predicate SamplesWithin(s: seq<Duration>, most: Duration) {
    forall i | 0 <= i < |s| :: 0 < s[i] <= most
  }

  /** Lengthening sample i to d does not lower the recommendation. */
  predicate NotLowered(s: seq<Duration>, i: nat, d: Duration, cfg: Config, floor: Duration)
    requires i < |s|
  {
    Recommendation(s, cfg, floor) <= Recommendation(s[i := d], cfg, floor)
  }

  /** No window the tracker keeps, of samples up to this size, gets a lower recommendation by one longer sample. */
  ghost predicate MonotoneUpTo(cfg: Config, most: Duration) {
    forall s, i: nat, d, floor | i < |s| <= cfg.sampleWindow && SamplesWithin(s, most) && s[i] <= d <= most ::
      NotLowered(s, i, d, cfg, floor)
  }

  lemma FitsBelow(a: Duration, b: Duration, percent: int)
    requires a <= b && percent > 0 && Fits(b, percent)
    ensures Fits(a, percent)
  {
    assert 0 <= (b - a) * percent;
  }

  /** The first duration that does not fit wraps to nothing or less, the one before it is scaled to at least 1. */
  lemma FirstOverflow(b: Duration, percent: int)
    requires b >= 2 && 0 < percent < TWO63 && Fits(b - 1, percent) && !Fits(b, percent)
    ensures Scaled(b - 1, percent) >= 1 && Scaled(b, percent) <= 0
  {
    var x := b * percent;
    assert x == (b - 1) * percent + percent;
    assert (b - 1) * percent >= percent by {
      assert (b - 2) * percent >= 0;
    }
    ScaledIsExactIff(b - 1, percent);
    assert TWO63 <= x + 99 < TWO63 + percent;
  }

  lemma {:induction false} FindOverflow(most: Duration, percent: int) returns (b: Duration)
    requires most >= 1 && percent > 0 && Fits(1, percent) && !Fits(most, percent)
    ensures 2 <= b <= most && Fits(b - 1, percent) && !Fits(b, percent)
    decreases most
  {
    if Fits(most - 1, percent) {
      return most;
    }
    b := FindOverflow(most - 1, percent);
  }

  /** n samples, the first k of them long. */
  function Mixed(n: nat, k: nat, short: Duration, long: Duration): (s: seq<Duration>)
    ensures |s| == n && forall i | 0 <= i < n :: s[i] == if i < k then long else short
  {
    seq(n, i => if i < k then long else short)
  }

  predicate NotLower(f: seq<Duration> -> int, s: seq<Duration>, i: nat, d: Duration)
    requires i < |s|
  {
    f(s) <= f(s[i := d])
  }

  /** A measure no longer sample lowers is not lowered by making all samples longer one by one. */
  lemma {:induction false} RaisingOneByOne(f: seq<Duration> -> int, most: Duration, n: nat, k: nat,
                                           short: Duration, long: Duration)
    requires k <= n && 0 < short <= long <= most
    requires forall s, i: nat, d | i < |s| == n && SamplesWithin(s, most) && s[i] <= d <= most :: NotLower(f, s, i, d)
    ensures f(Mixed(n, 0, short, long)) <= f(Mixed(n, k, short, long))
  {
    if k > 0 {
      RaisingOneByOne(f, most, n, k - 1, short, long);
      var s := Mixed(n, k - 1, short, long);
      assert s[k - 1 := long] == Mixed(n, k, short, long);
      assert NotLower(f, s, k - 1, long);
    }
  }

  lemma AllAlike(s: seq<Duration>, d: Duration)
    requires s != [] && forall x | x in s :: x == d
    ensures P95(s) == d
  {
    P95IsASample(s);
  }

  lemma P95Within(s: seq<Duration>, most: Duration)
    requires s != [] && SamplesWithin(s, most)
    ensures P95(s) <= most
  {
    P95IsASample(s);
    var i :| 0 <= i < |s| && s[i] == P95(s);
  }

  lemma OverflowBreaksMonotone(cfg: Config, most: Duration)
    requires ValidConfig(cfg) && cfg.enabled && cfg.minSamples <= cfg.sampleWindow && most >= 1
    requires Fits(1, cfg.multiplierPercent) && !Fits(most, cfg.multiplierPercent)
    ensures !MonotoneUpTo(cfg, most)
  {
    var b := FindOverflow(most, cfg.multiplierPercent);
    var n := cfg.minSamples;
    FirstOverflow(b, cfg.multiplierPercent);
    AllAlike(Mixed(n, 0, b - 1, b), b - 1);
    AllAlike(Mixed(n, n, b - 1, b), b);
    assert Recommendation(Mixed(n, 0, b - 1, b), cfg, 0) > Recommendation(Mixed(n, n, b - 1, b), cfg, 0);
    if MonotoneUpTo(cfg, most) {
      var f := (s: seq<Duration>) => Recommendation(s, cfg, 0);
      forall s, i: nat, d | i < |s| == n && SamplesWithin(s, most) && s[i] <= d <= most
        ensures NotLower(f, s, i, d)
      {
        assert NotLowered(s, i, d, cfg, 0);
      }
      RaisingOneByOne(f, most, n, n, b - 1, b);
    }
  }

  /** The recommendation is monotone in samples up to a size exactly when that size, scaled, fits in 64 bits. */
  lemma MonotoneIff(cfg: Config, most: Duration)
    requires ValidConfig(cfg) && cfg.enabled && cfg.minSamples <= cfg.sampleWindow
    requires most >= 1 && Fits(1, cfg.multiplierPercent)
    ensures MonotoneUpTo(cfg, most) <==> Fits(most, cfg.multiplierPercent)
  {
    if Fits(most, cfg.multiplierPercent) {
      forall s, i: nat, d, floor | i < |s| <= cfg.sampleWindow && SamplesWithin(s, most) && s[i] <= d <= most
        ensures NotLowered(s, i, d, cfg, floor)
      {
        P95Within(s[i := d], most);
        FitsBelow(P95(s[i := d]), most, cfg.multiplierPercent);
        LongerSampleNeverLowers(s, i, d, cfg, floor);
      }
    } else {
      OverflowBreaksMonotone(cfg, most);
    }
  }

  /**
  The element behind the recommendation is a sample that at least 95 percent of the samples do not
  exceed, and the smallest such.
  */
  lemma RestsOnPercentile(durations: seq<Duration>, x: Duration)
    requires durations != [] && x in durations
    ensures P95(durations) in durations
    ensures 100 * AtMost(durations, P95(durations)) >= 95 * |durations|
    ensures x < P95(durations) ==> 100 * AtMost(durations, x) < 95 * |durations|
  {
    P95IsASample(durations);
    P95Iff(durations, P95(durations));
    P95Iff(durations, x);
  }

  // ---- The tracker --------------------------------------------------------------------------

  function Durations(window: seq<Sample>): (ds: seq<Duration>)
    ensures |ds| == |window| && forall i | 0 <= i < |ds| :: ds[i] == window[i].duration
  {
    seq(|window|, i requires 0 <= i < |window| => window[i].duration)
  }

  function WindowOf(windows: map<ObservationKey, seq<Sample>>, key: ObservationKey): seq<Sample> {
    if key in windows then windows[key] else []
  }

  function Observed(windows: map<ObservationKey, seq<Sample>>, cfg: Config, key: ObservationKey, d: Duration, now: Time)
    : map<ObservationKey, seq<Sample>>
    requires ValidConfig(cfg)
  {
    if !cfg.enabled || d <= 0 then windows
    else windows[key := LastN(WindowOf(windows, key) + [Sample(d, now)], cfg.sampleWindow)]
  }

  class AdaptiveTimeoutTracker {
    const config: Config
    var windows: map<ObservationKey, seq<Sample>>

    constructor (cfg: Config)
      ensures Valid() && config == Effective(cfg) && windows == map[]
    {
      config := Effective(cfg);
      windows := map[];
    }

    predicate Valid() {
      ValidConfig(config)
    }

    method Observe(key: ObservationKey, duration: Duration, now: Time)
      requires Valid()
      modifies this
      ensures windows == Observed(old(windows), config, key, duration, now)
    {
      if !config.enabled || duration <= 0 {
        return;
      }
      var window := WindowOf(windows, key) + [Sample(duration, now)];
      if |window| > config.sampleWindow {
        window := window[|window| - config.sampleWindow..];
      }
      windows := windows[key := window];
    }

    method Recommend(key: ObservationKey, staticFloor: Duration)
      returns (recommended: Duration, sampleCount: nat, lastObservedAt: Option<Time>)
      requires Valid()
      ensures recommended == Recommendation(Durations(WindowOf(windows, key)), config, staticFloor)
      ensures config.enabled ==> sampleCount == |WindowOf(windows, key)|
      ensures config.enabled && sampleCount > 0 ==>
                lastObservedAt == Some(WindowOf(windows, key)[sampleCount - 1].observedAt)
    {
      recommended, sampleCount, lastObservedAt := staticFloor, 0, None;
      if !config.enabled {
        return;
      }
      var window := WindowOf(windows, key);
      sampleCount := |window|;
      if sampleCount == 0 {
        return;
      }
      lastObservedAt := Some(window[sampleCount - 1].observedAt);
      if sampleCount < config.minSamples {
        return;
      }
      var durations: seq<Duration> := [];
      for i := 0 to |window|
        invariant durations == Durations(window)[..i]
      {
        durations := durations + [window[i].duration];
      }
      assert durations == Durations(window);
      var sorted := Sorted(durations);
      recommended := Scaled(sorted[P95Index(|sorted|)], config.multiplierPercent);
      if recommended < staticFloor {
        recommended := staticFloor;
      }
      if config.maxTimeout > 0 && recommended > config.maxTimeout {
        recommended := config.maxTimeout;
      }
    }
  }

  // ---- Every run ----------------------------------------------------------------------------

  datatype Call = Call(key: ObservationKey, duration: Duration, at: Time)

  function After(calls: seq<Call>, cfg: Config): map<ObservationKey, seq<Sample>>
    requires ValidConfig(cfg)
  {
    if calls == [] then map[]
    else
      var c := calls[|calls| - 1];
      Observed(After(calls[..|calls| - 1], cfg), cfg, c.key, c.duration, c.at)
  }

  /** All positive observations of one key. */
  function Positive(calls: seq<Call>, key: ObservationKey): seq<Sample> {
    if calls == [] then []
    else
      var before, c := Positive(calls[..|calls| - 1], key), calls[|calls| - 1];
      if c.key == key && c.duration > 0 then before + [Sample(c.duration, c.at)] else before
  }

  lemma LastNOfLastN<T>(s: seq<T>, x: T, n: nat)
    requires n > 0
    ensures LastN(LastN(s, n) + [x], n) == LastN(s + [x], n)
  {
  }

  /** After every run of an enabled tracker the window is the last sampleWindow positive observations. */
  lemma {:induction false} WindowIsLastPositive(calls: seq<Call>, cfg: Config, key: ObservationKey)
    requires ValidConfig(cfg) && cfg.enabled
    ensures WindowOf(After(calls, cfg), key) == LastN(Positive(calls, key), cfg.sampleWindow)
  {
    if calls != [] {
      var before, c := calls[..|calls| - 1], calls[|calls| - 1];
      WindowIsLastPositive(before, cfg, key);
      if c.key == key && c.duration > 0 {
        LastNOfLastN(Positive(before, key), Sample(c.duration, c.at), cfg.sampleWindow);
      }
    }
  }

  /** A window too small for the required samples never adapts: the recommendation is always the floor. */
  lemma SmallWindowNeverAdapts(calls: seq<Call>, cfg: Config, key: ObservationKey, floor: Duration)
    requires ValidConfig(cfg) && cfg.enabled && cfg.sampleWindow < cfg.minSamples
    ensures Recommendation(Durations(WindowOf(After(calls, cfg), key)), cfg, floor) == floor
  {
    WindowIsLastPositive(calls, cfg, key);
  }
}
