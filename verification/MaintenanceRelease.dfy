/**
Leaving maintenance mode: the held attachments are given staggered expiry times, once. Passes that
find nothing left to release change nothing.
*/
module MaintenanceRelease {
  import opened Basics
  import opened Text
  import opened StickyAttachments

  const SECOND: Duration := 1_000_000_000
  const HOLD := "maintenance_mode"
  const RELEASE := "maintenance_release"

  /** The two settings in seconds; None for a missing setting. */
  function ReleaseBounds(minSeconds: Option<int>, maxSeconds: Option<int>): (b: (Duration, Duration))
    ensures 0 <= b.0 <= b.1
  {
    var lo := if minSeconds.None? || minSeconds.value < 0 then 300 else minSeconds.value;
    var hi := if maxSeconds.None? || maxSeconds.value < lo then lo else maxSeconds.value;
    (lo * SECOND, hi * SECOND)
  }

  /** A minimum that makes sense and a maximum that is no smaller are used as they are set. */
  lemma BoundsFollowSettings(minSeconds: Option<int>, maxSeconds: Option<int>)
    ensures var b := ReleaseBounds(minSeconds, maxSeconds);
            && (if minSeconds.Some? && minSeconds.value >= 0 then b.0 == minSeconds.value * SECOND
                else b.0 == 300 * SECOND)
            && (if maxSeconds.Some? && maxSeconds.value * SECOND >= b.0 then b.1 == maxSeconds.value * SECOND
                else b.1 == b.0)
  {
  }

  /** The delay of one of several holds, in 64-bit arithmetic. */
  function Delay(index: nat, total: nat, lo: Duration, hi: Duration): Duration {
    if total <= 1 || hi <= lo then lo
    else Wrap(lo + TruncatedQuotient(Wrap(Wrap(hi - lo) * index), total - 1))
  }

  /** The delay as it is meant. */
  function ExactDelay(index: nat, total: nat, lo: Duration, hi: Duration): Duration {
    if total <= 1 || hi <= lo then lo else lo + (hi - lo) * index / (total - 1)
  }

  /** The largest product the stagger computes fits in 64 bits. */
  predicate Fits(total: nat, lo: Duration, hi: Duration) {
    total <= 1 || hi <= lo || (hi - lo) * (total - 1) < TWO63
  }

  // ---- The stagger --------------------------------------------------------------------------

  lemma DivUnique(a: int, m: int, q: int)
    requires m > 0 && q * m <= a < (q + 1) * m
    ensures a / m == q
  {
    var d := a / m;
    assert d * m <= a < (d + 1) * m by {
      assert a == d * m + a % m;
      assert (d + 1) * m == d * m + m;
    }
    if d < q {
      MulMonotone(d + 1, q, m);
    } else if q < d {
      MulMonotone(q + 1, d, m);
    }
  }

  lemma MulMonotone(a: int, b: int, m: int)
    requires a <= b && m >= 0
    ensures a * m <= b * m
  {
    assert (b - a) * m >= 0;
  }

  lemma DivOfSum(a: int, b: int, m: int)
    requires m > 0
    ensures (a + b) / m == a / m + b / m || (a + b) / m == a / m + b / m + 1
  {
    var p, q := a / m, b / m;
    assert a == p * m + a % m && b == q * m + b % m;
    var r := a % m + b % m;
    assert (p + q) * m == p * m + q * m;
    if r < m {
      assert (p + q + 1) * m == (p + q) * m + m;
      DivUnique(a + b, m, p + q);
    } else {
      assert (p + q + 1) * m == (p + q) * m + m;
      assert (p + q + 2) * m == (p + q) * m + m + m;
      DivUnique(a + b, m, p + q + 1);
    }
  }

  /** The regular gap between two releases; a gap may be one unit longer. */
  function Gap(total: nat, lo: Duration, hi: Duration): (g: Duration)
    requires total > 1
    ensures g >= 0
  {
    if hi <= lo then 0 else (hi - lo) / (total - 1)
  }

  lemma ExactGaps(index: nat, total: nat, lo: Duration, hi: Duration)
    requires index + 1 < total
    ensures EvenGap(ExactDelay(index + 1, total, lo, hi) - ExactDelay(index, total, lo, hi), total, lo, hi)
  {
    if hi > lo {
      assert (hi - lo) * (index + 1) == (hi - lo) * index + (hi - lo);
      DivOfSum((hi - lo) * index, hi - lo, total - 1);
    }
  }

  predicate EvenGap(gap: Duration, total: nat, lo: Duration, hi: Duration)
    requires total > 1
  {
    gap == Gap(total, lo, hi) || (hi > lo && gap == Gap(total, lo, hi) + 1)
  }

  lemma {:induction false} ExactDelaysDoNotDecrease(i: nat, j: nat, total: nat, lo: Duration, hi: Duration)
    requires i <= j < total
    ensures ExactDelay(i, total, lo, hi) <= ExactDelay(j, total, lo, hi)
    decreases j - i
  {
    if i < j {
      ExactDelaysDoNotDecrease(i, j - 1, total, lo, hi);
      ExactGaps(j - 1, total, lo, hi);
    }
  }

  lemma ExactDelaysSpan(total: nat, lo: Duration, hi: Duration)
    requires total > 1 && lo <= hi
    ensures ExactDelay(0, total, lo, hi) == lo && ExactDelay(total - 1, total, lo, hi) == hi
  {
    DivUnique(0, total - 1, 0);
    assert (hi - lo + 1) * (total - 1) == (hi - lo) * (total - 1) + (total - 1);
    DivUnique((hi - lo) * (total - 1), total - 1, hi - lo);
  }

  lemma ExactDelaysStayInBounds(i: nat, total: nat, lo: Duration, hi: Duration)
    requires i < total && lo <= hi
    ensures lo <= ExactDelay(i, total, lo, hi) <= hi
  {
    if total > 1 {
      ExactDelaysSpan(total, lo, hi);
      ExactDelaysDoNotDecrease(0, i, total, lo, hi);
      ExactDelaysDoNotDecrease(i, total - 1, total, lo, hi);
    }
  }

  /** Durations are 64-bit numbers. */
  predicate ValidBounds(lo: Duration, hi: Duration) {
    0 <= lo <= hi < TWO63
  }

  /** Where the largest product fits, every delay is the one that is meant. */
  lemma DelayIsExact(i: nat, total: nat, lo: Duration, hi: Duration)
    requires i < total && ValidBounds(lo, hi) && Fits(total, lo, hi)
    ensures Delay(i, total, lo, hi) == ExactDelay(i, total, lo, hi)
  {
    if total > 1 && hi > lo {
      ProductGrows(hi - lo, i, total - 1);
      ExactDelaysStayInBounds(i, total, lo, hi);
      NoWrap((hi - lo) * i, total - 1, lo);
    }
  }

  lemma ProductGrows(span: int, i: int, m: int)
    requires span >= 0 && 0 <= i <= m
    ensures 0 <= span * i <= span * m
  {
    MulMonotone(0, i, span);
    MulMonotone(i, m, span);
  }

  lemma NoWrap(p: int, m: int, lo: int)
    requires 0 <= p < TWO63 && m > 0 && 0 <= lo + p / m < TWO63
    ensures Wrap(lo + TruncatedQuotient(Wrap(p), m)) == lo + p / m
  {
  }

  /** The whole promise: from exactly the minimum to exactly the maximum, never back, in even gaps. */
  predicate Staggered(total: nat, lo: Duration, hi: Duration)
    requires total > 1
  {
    && Delay(0, total, lo, hi) == lo && Delay(total - 1, total, lo, hi) == hi
    && (forall i: nat, j: nat | i <= j < total :: Delay(i, total, lo, hi) <= Delay(j, total, lo, hi))
    && (forall i: nat | i + 1 < total ::
          EvenGap(Delay(i + 1, total, lo, hi) - Delay(i, total, lo, hi), total, lo, hi))
  }

  lemma StaggeredWhenFits(total: nat, lo: Duration, hi: Duration)
    requires total > 1 && ValidBounds(lo, hi) && Fits(total, lo, hi)
    ensures Staggered(total, lo, hi)
  {
    ExactDelaysSpan(total, lo, hi);
    DelayIsExact(0, total, lo, hi);
    DelayIsExact(total - 1, total, lo, hi);
    forall i: nat, j: nat | i <= j < total
      ensures Delay(i, total, lo, hi) <= Delay(j, total, lo, hi)
    {
      DelayIsExact(i, total, lo, hi);
      DelayIsExact(j, total, lo, hi);
      ExactDelaysDoNotDecrease(i, j, total, lo, hi);
    }
    forall i: nat | i + 1 < total
      ensures EvenGap(Delay(i + 1, total, lo, hi) - Delay(i, total, lo, hi), total, lo, hi)
    {
      DelayIsExact(i, total, lo, hi);
      DelayIsExact(i + 1, total, lo, hi);
      ExactGaps(i, total, lo, hi);
    }
  }

  /** A wrapped product is less than the true one, and so is its quotient. */
  lemma OverflowMissesMaximum(total: nat, lo: Duration, hi: Duration)
    requires total > 1 && ValidBounds(lo, hi) && !Fits(total, lo, hi)
    ensures Delay(total - 1, total, lo, hi) != hi
  {
    var span, m := hi - lo, total - 1;
    var w := Wrap(span * m);
    var q := TruncatedQuotient(w, m);
    QuotientBelow(w, span, m);
    assert Wrap(lo + q) == lo + q;
  }

  lemma QuotientBelow(w: int, span: int, m: int)
    requires m > 0 && span > 0 && -TWO63 <= w < span * m
    ensures -TWO63 <= TruncatedQuotient(w, m) < span
  {
    if w >= 0 {
      DivRemainder(w, m);
      if w / m >= span {
        MulMonotone(span, w / m, m);
      }
    } else {
      DivNotAbove(-w, m);
    }
  }

  lemma DivRemainder(x: int, m: int)
    requires x >= 0 && m > 0
    ensures 0 <= x / m && x / m * m <= x
  {
    assert x == x / m * m + x % m;
  }

  lemma DivNotAbove(x: int, m: int)
    requires x >= 0 && m > 0
    ensures 0 <= x / m <= x
  {
    DivRemainder(x, m);
    MulMonotone(1, m, x / m);
  }

  /** Two or more holds are staggered as promised exactly when the largest product fits in 64 bits. */
  lemma StaggeredIff(total: nat, lo: Duration, hi: Duration)
    requires total > 1 && ValidBounds(lo, hi)
    ensures Staggered(total, lo, hi) <==> Fits(total, lo, hi)
  {
    if Fits(total, lo, hi) {
      StaggeredWhenFits(total, lo, hi);
    } else {
      OverflowMissesMaximum(total, lo, hi);
    }
  }

  /** Three holds over 2^62 nanoseconds are too many. */
  lemma WideStaggerFails()
    ensures !Staggered(3, 0, TWO63 / 2)
  {
    StaggeredIff(3, 0, TWO63 / 2);
  }

  // ---- One pass -----------------------------------------------------------------------------

  predicate IsHold(s: Sticky) {
    Trim(s.reason) == HOLD
  }

  function Scheduled(s: Sticky, now: Time, delay: Duration): Sticky {
    s.(reason := RELEASE, startedAt := now, expiresAt := now + delay, graceSeconds := TruncatedQuotient(delay, SECOND))
  }

  /** A release keeps the volume and the node, expires the delay after now, and names its grace in whole seconds. */
  lemma ScheduledSays(s: Sticky, now: Time, delay: Duration)
    requires delay >= 0
    ensures var r := Scheduled(s, now, delay);
            && r.volumeID == s.volumeID && r.nodeID == s.nodeID
            && r.startedAt == now && r.expiresAt - r.startedAt == delay
            && r.graceSeconds * SECOND <= delay < (r.graceSeconds + 1) * SECOND
            && Trim(r.reason) != HOLD
  {
    assert Trim(RELEASE) == RELEASE;
    assert RELEASE[12] != HOLD[12];
  }

  function Rank(order: seq<string>, v: string): (i: nat)
    requires v in order
    ensures i < |order| && order[i] == v
  {
    if order[0] == v then 0 else 1 + Rank(order[1..], v)
  }

  lemma RankIsIndex(order: seq<string>, i: nat)
    requires StrictlySorted(order) && i < |order|
    ensures Rank(order, order[i]) == i
  {
    var r := Rank(order, order[i]);
    LessIrreflexive(order[i]);
  }

  /** One entry after the first n holds of a pass were handled. */
  function EntryUpTo(t: Table, order: seq<string>, n: nat, now: Time, fails: set<string>, lo: Duration, hi: Duration,
                     v: string): Sticky
    requires v in t
  {
    if v in order && Trim(v) != "" && v !in fails && Rank(order, v) < n
    then Scheduled(t[v], now, Delay(Rank(order, v), |order|, lo, hi))
    else t[v]
  }

  function ReleasedUpTo(t: Table, order: seq<string>, n: nat, now: Time, fails: set<string>, lo: Duration, hi: Duration)
    : Table
  {
    map v | v in t :: EntryUpTo(t, order, n, now, fails, lo, hi, v)
  }

  /** A pass with maintenance inactive, where persisting the volumes in `fails` fails. */
  function Released(t: Table, order: seq<string>, now: Time, fails: set<string>, lo: Duration, hi: Duration): Table {
    ReleasedUpTo(t, order, |order|, now, fails, lo, hi)
  }

  lemma EntryOneMore(t: Table, order: seq<string>, n: nat, now: Time, fails: set<string>, lo: Duration, hi: Duration,
                     v: string)
    requires StrictlySorted(order) && n < |order| && v in t
    ensures v != order[n] ==>
              EntryUpTo(t, order, n + 1, now, fails, lo, hi, v) == EntryUpTo(t, order, n, now, fails, lo, hi, v)
    ensures v == order[n] ==> EntryUpTo(t, order, n, now, fails, lo, hi, v) == t[v]
    ensures v == order[n] ==>
              EntryUpTo(t, order, n + 1, now, fails, lo, hi, v) ==
              if Trim(v) != "" && v !in fails then Scheduled(t[v], now, Delay(n, |order|, lo, hi)) else t[v]
  {
    RankIsIndex(order, n);
  }

  lemma ReleaseOneMore(t: Table, order: seq<string>, n: nat, now: Time, fails: set<string>, lo: Duration, hi: Duration)
    requires StrictlySorted(order) && n < |order| && order[n] in t
    ensures var before := ReleasedUpTo(t, order, n, now, fails, lo, hi);
            var v := order[n];
            && before[v] == t[v]
            && ReleasedUpTo(t, order, n + 1, now, fails, lo, hi) ==
               if Trim(v) != "" && v !in fails
               then before[v := Scheduled(t[v], now, Delay(n, |order|, lo, hi))]
               else before
  {
    forall v | v in t
      ensures v != order[n] ==>
                EntryUpTo(t, order, n + 1, now, fails, lo, hi, v) == EntryUpTo(t, order, n, now, fails, lo, hi, v)
    {
      EntryOneMore(t, order, n, now, fails, lo, hi, v);
    }
    EntryOneMore(t, order, n, now, fails, lo, hi, order[n]);
  }

  lemma HoldIsTrimmed()
    ensures Trim(HOLD) == HOLD
  {
  }

  lemma NothingReleased(t: Table, order: seq<string>, now: Time, fails: set<string>, lo: Duration, hi: Duration)
    ensures ReleasedUpTo(t, order, 0, now, fails, lo, hi) == t
  {
  }

  method ReleaseMaintenanceHolds(m: StickyAttachmentManager, lo: Duration, hi: Duration, now: Time, fails: set<string>)
    returns (order: seq<string>)
    requires Filed(m.entries)
    modifies m
    ensures Lists(order, old(m.entries), HOLD)
    ensures Filed(m.entries) && m.entries == Released(old(m.entries), order, now, fails, lo, hi)
  {
    var states := m.ListByReason(HOLD);
    order := Ids(states);
    HoldIsTrimmed();
    ghost var start := m.entries;
    NothingReleased(start, order, now, fails, lo, hi);
    for i := 0 to |states|
      invariant Filed(m.entries) && m.entries == ReleasedUpTo(start, order, i, now, fails, lo, hi)
    {
      ReleaseOneMore(start, order, i, now, fails, lo, hi);
      var state := states[i];
      var delay := Delay(i, |states|, lo, hi);
      var ok := m.Update(Scheduled(state, now, delay), state.volumeID !in fails);
    }
  }

  // ---- Every run of passes ------------------------------------------------------------------

  datatype Pass = Pass(order: seq<string>, now: Time, fails: set<string>)

  function After(t: Table, passes: seq<Pass>, lo: Duration, hi: Duration): Table {
    if passes == [] then t
    else
      var p := passes[|passes| - 1];
      Released(After(t, passes[..|passes| - 1], lo, hi), p.order, p.now, p.fails, lo, hi)
  }

  /** Every pass works on the holds it finds. */
  ghost predicate IsRun(t: Table, passes: seq<Pass>, lo: Duration, hi: Duration) {
    forall i | 0 <= i < |passes| :: Lists(passes[i].order, After(t, passes[..i], lo, hi), HOLD)
  }

  lemma RunPrefix(t: Table, passes: seq<Pass>, n: nat, lo: Duration, hi: Duration)
    requires IsRun(t, passes, lo, hi) && n <= |passes|
    ensures IsRun(t, passes[..n], lo, hi)
  {
    forall i | 0 <= i < n
      ensures Lists(passes[..n][i].order, After(t, passes[..n][..i], lo, hi), HOLD)
    {
      assert passes[..n][..i] == passes[..i];
    }
  }

  lemma ReleaseIsNotHold(s: Sticky)
    requires s.reason == RELEASE
    ensures !IsHold(s)
  {
    assert Trim(RELEASE) == RELEASE;
    assert RELEASE[12] != HOLD[12];
  }

  lemma ReleaseKeepsOthers(t: Table, order: seq<string>, now: Time, fails: set<string>, lo: Duration, hi: Duration,
                           v: string)
    requires Lists(order, t, HOLD)
    requires v in t && !IsHold(t[v])
    ensures var after := Released(t, order, now, fails, lo, hi); v in after && after[v] == t[v]
  {
  }

  /** An entry that is not held - scheduled earlier, or of another kind - survives every run of passes unchanged. */
  lemma {:induction false} OthersStay(t: Table, passes: seq<Pass>, lo: Duration, hi: Duration, v: string)
    requires IsRun(t, passes, lo, hi)
    requires v in t && !IsHold(t[v])
    ensures v in After(t, passes, lo, hi) && After(t, passes, lo, hi)[v] == t[v]
  {
    if passes != [] {
      var n := |passes| - 1;
      RunPrefix(t, passes, n, lo, hi);
      OthersStay(t, passes[..n], lo, hi, v);
      assert passes[..n] == passes[..|passes| - 1];
      ReleaseKeepsOthers(After(t, passes[..n], lo, hi), passes[n].order, passes[n].now, passes[n].fails, lo, hi, v);
    }
  }

  /** The entry a hold becomes when its pass persists it. */
  function ScheduledIn(s: Sticky, p: Pass, lo: Duration, hi: Duration): Sticky
    requires s.volumeID in p.order
  {
    Scheduled(s, p.now, Delay(Rank(p.order, s.volumeID), |p.order|, lo, hi))
  }

  predicate Succeeds(p: Pass, v: string) {
    Trim(v) != "" && v !in p.fails
  }

  lemma HoldAfterOnePass(t: Table, p: Pass, lo: Duration, hi: Duration, v: string)
    requires Filed(t) && Lists(p.order, t, HOLD)
    requires v in t && IsHold(t[v])
    ensures v in p.order
    ensures var after := Released(t, p.order, p.now, p.fails, lo, hi);
            v in after && after[v] == if Succeeds(p, v) then ScheduledIn(t[v], p, lo, hi) else t[v]
  {
  }

  lemma {:induction false} RunKeepsFiled(t: Table, passes: seq<Pass>, lo: Duration, hi: Duration)
    requires Filed(t)
    ensures Filed(After(t, passes, lo, hi))
  {
    if passes != [] {
      RunKeepsFiled(t, passes[..|passes| - 1], lo, hi);
    }
  }

  /** The last pass of a run. */
  lemma LastPass(t: Table, passes: seq<Pass>, lo: Duration, hi: Duration)
    requires Filed(t) && IsRun(t, passes, lo, hi) && passes != []
    ensures var n := |passes| - 1;
            var before := After(t, passes[..n], lo, hi);
            && IsRun(t, passes[..n], lo, hi) && Filed(before) && Lists(passes[n].order, before, HOLD)
            && After(t, passes, lo, hi) == Released(before, passes[n].order, passes[n].now, passes[n].fails, lo, hi)
  {
    RunPrefix(t, passes, |passes| - 1, lo, hi);
    RunKeepsFiled(t, passes[..|passes| - 1], lo, hi);
  }

  /** A hold that no pass persists stays a hold. */
  lemma {:induction false} StillHeld(t: Table, passes: seq<Pass>, lo: Duration, hi: Duration, v: string)
    requires Filed(t) && IsRun(t, passes, lo, hi)
    requires v in t && IsHold(t[v]) && forall i | 0 <= i < |passes| :: !Succeeds(passes[i], v)
    ensures v in After(t, passes, lo, hi) && After(t, passes, lo, hi)[v] == t[v]
  {
    if passes != [] {
      var n := |passes| - 1;
      LastPass(t, passes, lo, hi);
      StillHeld(t, passes[..n], lo, hi, v);
      HoldAfterOnePass(After(t, passes[..n], lo, hi), passes[n], lo, hi, v);
    }
  }

  /**
  A hold is scheduled by the first pass that persists it, at its place among the holds of that pass,
  and no later pass moves it.
  */
  lemma {:induction false} FirstSuccessDecides(t: Table, passes: seq<Pass>, lo: Duration, hi: Duration, v: string,
                                               first: nat)
    requires Filed(t) && IsRun(t, passes, lo, hi)
    requires v in t && IsHold(t[v])
    requires first < |passes| && Succeeds(passes[first], v) && forall i | 0 <= i < first :: !Succeeds(passes[i], v)
    ensures v in After(t, passes, lo, hi) && v in passes[first].order
    ensures After(t, passes, lo, hi)[v] == ScheduledIn(t[v], passes[first], lo, hi)
  {
    var n := |passes| - 1;
    var before := After(t, passes[..n], lo, hi);
    LastPass(t, passes, lo, hi);
    if first == n {
      StillHeld(t, passes[..n], lo, hi, v);
      HoldAfterOnePass(before, passes[n], lo, hi, v);
    } else {
      FirstSuccessDecides(t, passes[..n], lo, hi, v, first);
      ReleaseIsNotHold(before[v]);
      ReleaseKeepsOthers(before, passes[n].order, passes[n].now, passes[n].fails, lo, hi, v);
    }
  }

  /** So, where the stagger holds, a scheduled hold expires between the two bounds after that pass. */
  lemma ScheduledWithinBounds(t: Table, passes: seq<Pass>, lo: Duration, hi: Duration, v: string, first: nat)
    requires Filed(t) && IsRun(t, passes, lo, hi) && ValidBounds(lo, hi)
    requires v in t && IsHold(t[v])
    requires first < |passes| && Fits(|passes[first].order|, lo, hi)
    requires Succeeds(passes[first], v) && forall i | 0 <= i < first :: !Succeeds(passes[i], v)
    ensures v in After(t, passes, lo, hi)
    ensures passes[first].now + lo <= After(t, passes, lo, hi)[v].expiresAt <= passes[first].now + hi
  {
    FirstSuccessDecides(t, passes, lo, hi, v, first);
    var rank, total := Rank(passes[first].order, v), |passes[first].order|;
    DelayIsExact(rank, total, lo, hi);
    ExactDelaysStayInBounds(rank, total, lo, hi);
  }

  lemma LaterPassesKeep(t: Table, passes: seq<Pass>, lo: Duration, hi: Duration, v: string)
    requires Filed(t) && IsRun(t, passes, lo, hi)
    requires passes != [] && v in t && Succeeds(passes[0], v)
    ensures v in After(t, passes, lo, hi) && v in After(t, passes[..1], lo, hi)
    ensures After(t, passes, lo, hi)[v] == After(t, passes[..1], lo, hi)[v]
  {
    RunPrefix(t, passes, 1, lo, hi);
    if IsHold(t[v]) {
      FirstSuccessDecides(t, passes, lo, hi, v, 0);
      FirstSuccessDecides(t, passes[..1], lo, hi, v, 0);
    } else {
      OthersStay(t, passes, lo, hi, v);
      OthersStay(t, passes[..1], lo, hi, v);
    }
  }

  lemma SameTable(a: Table, b: Table)
    requires a.Keys == b.Keys && forall v | v in a :: a[v] == b[v]
    ensures a == b
  {
  }

  /** If the first pass persists everything, all later passes change nothing. */
  lemma OnePassIsEnough(t: Table, passes: seq<Pass>, lo: Duration, hi: Duration)
    requires Filed(t) && IsRun(t, passes, lo, hi)
    requires passes != [] && forall v | v in t :: Succeeds(passes[0], v)
    ensures After(t, passes, lo, hi) == After(t, passes[..1], lo, hi)
  {
    var all, one := After(t, passes, lo, hi), After(t, passes[..1], lo, hi);
    SameDomain(t, passes, lo, hi);
    SameDomain(t, passes[..1], lo, hi);
    forall v | v in all
      ensures all[v] == one[v]
    {
      assert v in t.Keys;
      LaterPassesKeep(t, passes, lo, hi, v);
    }
    SameTable(all, one);
  }

  lemma {:induction false} SameDomain(t: Table, passes: seq<Pass>, lo: Duration, hi: Duration)
    ensures After(t, passes, lo, hi).Keys == t.Keys
  {
    if passes != [] {
      SameDomain(t, passes[..|passes| - 1], lo, hi);
    }
  }
}
