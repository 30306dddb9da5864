/** What the adaptive timeout recommends, told by the settings and by counting samples. */
module AdaptiveRecommendation {
  import opened Basics
  import opened AdaptiveTimeout

  /** Settings that make sense are used as they are; the defaults are 8 samples, a window of 20 and 400 percent. */
  lemma SettingsAreUsed(cfg: Config)
    ensures Effective(cfg).enabled == cfg.enabled && Effective(cfg).maxTimeout == cfg.maxTimeout
    ensures Effective(cfg).minSamples == if cfg.minSamples > 0 then cfg.minSamples else 8
    ensures Effective(cfg).sampleWindow == if cfg.sampleWindow > 0 then cfg.sampleWindow else 20
    ensures Effective(cfg).multiplierPercent == if cfg.multiplierPercent > 0 then cfg.multiplierPercent else 400
  {
  }

  /** The window is the end of what was observed, as much of it as there is room for. */
  lemma LastNIs(s: seq<Sample>, n: nat)
    ensures |LastN(s, n)| == if |s| < n then |s| else n
    ensures s == s[..|s| - |LastN(s, n)|] + LastN(s, n)
  {
  }

  /** After every run the tracker has the latest positive durations of each key, up to its window. */
  lemma WindowIsLatest(calls: seq<Call>, cfg: Config, key: ObservationKey)
    requires ValidConfig(cfg) && cfg.enabled
    ensures var all, window := Positive(calls, key), WindowOf(After(calls, cfg), key);
            && |window| == (if |all| < cfg.sampleWindow then |all| else cfg.sampleWindow)
            && all == all[..|all| - |window|] + window
  {
    WindowIsLastPositive(calls, cfg, key);
    LastNIs(Positive(calls, key), cfg.sampleWindow);
  }

  /** Without enough samples, or switched off, the tracker recommends what the caller would have used. */
  lemma FloorWithoutSamples(durations: seq<Duration>, cfg: Config, floor: Duration)
    requires ValidConfig(cfg) && !Adapts(durations, cfg)
    ensures Recommendation(durations, cfg, floor) == floor
  {
  }

  lemma RoundedUpIff(t: int, x: int)
    ensures (t + 99) / 100 <= x <==> t <= 100 * x
  {
  }

  lemma Quotient(y: int, p: int)
    requires p > 0
    ensures y / p * p <= y < y / p * p + p
  {
    assert y == y / p * p + y % p;
  }

  lemma ProductMonotone(a: int, b: int, p: int)
    requires a <= b && p > 0
    ensures a * p <= b * p
  {
    assert 0 <= (b - a) * p;
  }

  lemma FactorIff(d: int, p: int, y: int)
    requires p > 0
    ensures d * p <= y <==> d <= y / p
  {
    var q := y / p;
    Quotient(y, p);
    if d <= q {
      ProductMonotone(d, q, p);
    } else {
      ProductMonotone(q + 1, d, p);
    }
  }

  lemma ScaledIff(d: Duration, percent: int, x: int)
    requires percent > 0
    ensures ExactlyScaled(d, percent) <= x <==> d <= 100 * x / percent
  {
    RoundedUpIff(d * percent, x);
    FactorIff(d, percent, 100 * x);
  }

  /**
  The recommendation, without sorting and scaling: it is at most x exactly when the maximum is, or
  when the floor is and at least 95 percent of the samples are, multiplied by the percentage.
  */
  lemma RecommendationIff(durations: seq<Duration>, cfg: Config, floor: Duration, x: Duration)
    requires Adapts(durations, cfg) && P95(durations) >= 0 && Fits(P95(durations), cfg.multiplierPercent)
    ensures Recommendation(durations, cfg, floor) <= x <==>
            || 0 < cfg.maxTimeout <= x
            || (floor <= x && 100 * AtMost(durations, 100 * x / cfg.multiplierPercent) >= 95 * |durations|)
  {
    var p := P95(durations);
    ScaledIsExactIff(p, cfg.multiplierPercent);
    ScaledIff(p, cfg.multiplierPercent, x);
    P95Iff(durations, 100 * x / cfg.multiplierPercent);
  }
}
