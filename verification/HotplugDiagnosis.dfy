/**
Hotplug diagnosis. Each look at a VM is compared with the stored previous look; the pair of times
carried along is proved to summarise the whole chain of looks, and `Stuck` is characterised on it.
*/
module HotplugDiagnosis {
  import opened Basics

  const MINUTE: Duration := 60_000_000_000

  /** The life-cycle state of a VM, with the two values the diagnosis knows. */
  datatype Lcm = Running | Hotplug | Other(raw: int)

  /** None is the zero time. */
  datatype Observation = Observation(
    lcm: Lcm, signature: string, first: Option<Time>, last: Option<Time>, changed: Option<Time>)

  datatype Class = Ready | Progressing | Stuck | Unknown

  datatype Config = Config(stuckAfter: Duration, progressWindow: Duration)

  function Effective(cfg: Config): (c: Config)
    ensures c.stuckAfter > 0 && c.progressWindow > 0
  {
    Config(if cfg.stuckAfter <= 0 then 5 * MINUTE else cfg.stuckAfter,
           if cfg.progressWindow <= 0 then MINUTE else cfg.progressWindow)
  }

  function OrElse(t: Option<Time>, now: Time): Option<Time> {
    if t.Some? then t else Some(now)
  }

  /** The observation to store: the first time is kept for good, the change time until something changes. */
  function Updated(current: Observation, previous: Option<Observation>, now: Time): Observation {
    var o := current.(last := Some(now));
    var carried :=
      if previous.Some? && previous.value.signature == current.signature && previous.value.lcm == current.lcm then
        o.(first := previous.value.first, changed := previous.value.changed)
      else if previous.Some? && previous.value.first.Some? then
        o.(first := previous.value.first, changed := Some(now))
      else o;
    carried.(first := OrElse(carried.first, now), changed := OrElse(carried.changed, now))
  }

  /** `clock` is read only when the observation carries no time. */
  function Classify(current: Observation, previous: Option<Observation>, cfg: Config, clock: Time)
    : (r: (Class, Observation))
    ensures r.1.first.Some? && r.1.last.Some? && r.1.changed.Some?
  {
    var c := Effective(cfg);
    var now := if current.last.Some? then current.last.value else clock;
    var o := Updated(current, previous, now);
    var class_ :=
      match o.lcm
      case Running => Ready
      case Hotplug =>
        if now - o.first.value >= c.stuckAfter && now - o.changed.value >= c.progressWindow then Stuck else Progressing
      case Other(_) => Unknown;
    (class_, o)
  }

  /** Settings that make sense are used as they are; the defaults are five minutes and one. */
  lemma SettingsAreUsed(cfg: Config)
    ensures cfg.stuckAfter > 0 && cfg.progressWindow > 0 ==> Effective(cfg) == cfg
    ensures cfg.stuckAfter <= 0 ==> Effective(cfg) == Effective(cfg.(stuckAfter := 5 * MINUTE))
    ensures cfg.progressWindow <= 0 ==> Effective(cfg) == Effective(cfg.(progressWindow := MINUTE))
  {
  }

  /** An observation without a time counts as made now, and one with a time does not read the clock. */
  lemma ClockIsDefault(current: Observation, previous: Option<Observation>, cfg: Config, clock: Time, other: Time)
    ensures current.last.None? ==>
              Classify(current, previous, cfg, clock) == Classify(current.(last := Some(clock)), previous, cfg, other)
    ensures current.last.Some? ==>
              Classify(current, previous, cfg, clock) == Classify(current, previous, cfg, other)
  {
  }

  // ---- Chains of looks ----------------------------------------------------------------------

  /** One look at the VM. */
  datatype Look = Look(lcm: Lcm, signature: string, at: Time)

  function Observed(look: Look): Observation {
    Observation(look.lcm, look.signature, Some(look.at), Some(look.at), Some(look.at))
  }

  /** Every look classified against the observation stored by the one before. */
  function Diagnose(looks: seq<Look>, cfg: Config): (r: (Class, Observation))
    requires looks != []
    decreases |looks|
  {
    var n := |looks| - 1;
    var previous := if n == 0 then None else Some(Diagnose(looks[..n], cfg).1);
    Classify(Observed(looks[n]), previous, cfg, 0)
  }

  predicate Same(a: Look, b: Look) {
    a.lcm == b.lcm && a.signature == b.signature
  }

  predicate SameSince(looks: seq<Look>, from: nat) {
    from < |looks| && forall i | from <= i < |looks| :: Same(looks[i], looks[|looks| - 1])
  }

  /** The look at which the current state and signature appeared. */
  function LastChange(looks: seq<Look>): (c: nat)
    requires looks != []
    ensures SameSince(looks, c)
    ensures c > 0 ==> !Same(looks[c - 1], looks[c])
  {
    var n := |looks| - 1;
    if n > 0 && Same(looks[n - 1], looks[n]) then LastChange(looks[..n]) else n
  }

  /** For every chain, the stored times are those of the first look, the latest change and the last look. */
  lemma {:induction false} ChainSummary(looks: seq<Look>, cfg: Config)
    requires looks != []
    ensures Diagnose(looks, cfg).1 ==
            Observation(looks[|looks| - 1].lcm, looks[|looks| - 1].signature,
                        Some(looks[0].at), Some(looks[|looks| - 1].at), Some(looks[LastChange(looks)].at))
  {
    if |looks| > 1 {
      ChainSummary(looks[..|looks| - 1], cfg);
    }
  }

  predicate InOrder(looks: seq<Look>) {
    forall i, j | 0 <= i <= j < |looks| :: looks[i].at <= looks[j].at
  }

  lemma TimesAreOrdered(looks: seq<Look>, cfg: Config)
    requires looks != [] && InOrder(looks)
    ensures var o := Diagnose(looks, cfg).1; o.first.value <= o.changed.value <= o.last.value
  {
    ChainSummary(looks, cfg);
  }

  /** The VM has been in HOTPLUG with one signature in every look over this long. */
  predicate HotplugUnchangedFor(looks: seq<Look>, d: Duration) {
    looks != [] && looks[|looks| - 1].lcm == Hotplug &&
    exists from | 0 <= from < |looks| :: SameSince(looks, from) && looks[|looks| - 1].at - looks[from].at >= d
  }

  /** The state of the last look decides between ready, unknown, and the two hotplug classes. */
  lemma ClassIff(looks: seq<Look>, cfg: Config)
    requires looks != []
    ensures var class_, lcm := Diagnose(looks, cfg).0, looks[|looks| - 1].lcm;
            (class_ == Ready <==> lcm == Running) && (class_ == Stuck || class_ == Progressing <==> lcm == Hotplug)
  {
    ChainSummary(looks, cfg);
  }

  /** When a chain is diagnosed as stuck. */
  lemma StuckIff(looks: seq<Look>, cfg: Config)
    requires looks != [] && InOrder(looks)
    ensures Diagnose(looks, cfg).0 == Stuck <==>
            && HotplugUnchangedFor(looks, Effective(cfg).progressWindow)
            && looks[|looks| - 1].at - looks[0].at >= Effective(cfg).stuckAfter
  {
    ChainSummary(looks, cfg);
    var n, c := |looks| - 1, LastChange(looks);
    assert c > 0 ==> !Same(looks[c - 1], looks[n]);
    forall from: nat | SameSince(looks, from)
      ensures c <= from
    {
    }
  }

  /** What a stuck diagnosis says about the VM: HOTPLUG and one signature in every look of the progress window. */
  lemma StuckMeansNoProgress(looks: seq<Look>, cfg: Config) returns (from: nat)
    requires looks != [] && InOrder(looks)
    requires Diagnose(looks, cfg).0 == Stuck
    ensures from < |looks| && looks[|looks| - 1].at - looks[from].at >= Effective(cfg).progressWindow
    ensures forall i | from <= i < |looks| :: looks[i].lcm == Hotplug && looks[i].signature == looks[from].signature
  {
    StuckIff(looks, cfg);
    from :| 0 <= from < |looks| && SameSince(looks, from)
            && looks[|looks| - 1].at - looks[from].at >= Effective(cfg).progressWindow;
    assert Same(looks[from], looks[|looks| - 1]);
  }

  const SECOND: Duration := 1_000_000_000

  /** Go's rounding to whole seconds, for durations that are not negative. */
  function Rounded(d: Duration): Duration {
    (d + SECOND / 2) / SECOND * SECOND
  }

  /** The age the message of a stuck diagnosis prints. */
  function PrintedAge(looks: seq<Look>): Duration
    requires looks != []
  {
    Rounded(looks[|looks| - 1].at - looks[0].at)
  }

  /** What that message claims: HOTPLUG without observable progress for the printed age. */
  predicate MessageTrue(looks: seq<Look>) {
    looks != [] && HotplugUnchangedFor(looks, PrintedAge(looks))
  }

  /**
  The message of a stuck diagnosis is true exactly when the time since the latest change is at least
  the printed age, as the three stored times tell.
  */
  lemma MessageTrueIff(looks: seq<Look>, cfg: Config)
    requires looks != [] && InOrder(looks) && Diagnose(looks, cfg).0 == Stuck
    ensures var o := Diagnose(looks, cfg).1;
            MessageTrue(looks) <==> o.last.value - o.changed.value >= Rounded(o.last.value - o.first.value)
  {
    ChainSummary(looks, cfg);
    StuckIff(looks, cfg);
    var n, c := |looks| - 1, LastChange(looks);
    assert SameSince(looks, c);
    assert c > 0 ==> !Same(looks[c - 1], looks[n]);
    forall from: nat | SameSince(looks, from)
      ensures c <= from
    {
    }
  }

  /** A VM seen running and a second later in HOTPLUG over the longer of the two times. */
  function LateHotplug(cfg: Config): seq<Look> {
    var c := Effective(cfg);
    var held := if c.stuckAfter > c.progressWindow then c.stuckAfter else c.progressWindow;
    [Look(Running, "", 0), Look(Hotplug, "", SECOND), Look(Hotplug, "", SECOND + held)]
  }

  lemma LateHotplugHasOneWindow(cfg: Config)
    ensures var looks := LateHotplug(cfg);
            InOrder(looks) && (forall from: nat | SameSince(looks, from) :: 1 <= from) && SameSince(looks, 1)
  {
    var looks := LateHotplug(cfg);
    assert !Same(looks[0], looks[2]);
  }

  /** Whatever the settings, some chain is diagnosed as stuck with a message that is false. */
  lemma EveryConfigMisreports(cfg: Config)
    ensures InOrder(LateHotplug(cfg)) && Diagnose(LateHotplug(cfg), cfg).0 == Stuck
    ensures !MessageTrue(LateHotplug(cfg))
  {
    LateHotplugHasOneWindow(cfg);
    StuckIff(LateHotplug(cfg), cfg);
  }

  // ---- The stuck time -----------------------------------------------------------------------

  /** A weaker law: a stuck VM has been in HOTPLUG without progress for the configured stuck time. */
  ghost predicate StuckTimeHolds(cfg: Config) {
    forall looks: seq<Look> | looks != [] && InOrder(looks) && Diagnose(looks, cfg).0 == Stuck ::
      HotplugUnchangedFor(looks, Effective(cfg).stuckAfter)
  }

  /** A VM seen running, then in HOTPLUG for the progress window only: its age counts from the first look. */
  function ShortHotplug(cfg: Config): seq<Look> {
    var c := Effective(cfg);
    [Look(Running, "", 0), Look(Hotplug, "", c.stuckAfter - c.progressWindow), Look(Hotplug, "", c.stuckAfter)]
  }

  lemma ShortHotplugIsStuck(cfg: Config)
    requires Effective(cfg).progressWindow < Effective(cfg).stuckAfter
    ensures InOrder(ShortHotplug(cfg)) && Diagnose(ShortHotplug(cfg), cfg).0 == Stuck
    ensures !HotplugUnchangedFor(ShortHotplug(cfg), Effective(cfg).stuckAfter)
  {
    var looks := ShortHotplug(cfg);
    assert SameSince(looks, 1);
    StuckIff(looks, cfg);
    assert !Same(looks[0], looks[2]);
    forall from: nat | SameSince(looks, from)
      ensures from > 0
    {
    }
  }

  /** The weaker law holds of every chain exactly when the progress window is at least the stuck time. */
  lemma StuckTimeHoldsIff(cfg: Config)
    ensures StuckTimeHolds(cfg) <==> Effective(cfg).progressWindow >= Effective(cfg).stuckAfter
  {
    if Effective(cfg).progressWindow >= Effective(cfg).stuckAfter {
      forall looks: seq<Look> | looks != [] && InOrder(looks) && Diagnose(looks, cfg).0 == Stuck
        ensures HotplugUnchangedFor(looks, Effective(cfg).stuckAfter)
      {
        StuckIff(looks, cfg);
      }
    } else {
      ShortHotplugIsStuck(cfg);
    }
  }
}
