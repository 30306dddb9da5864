/** The per-node hotplug guard and the history it summarises. */
module HotplugGuard {
  import opened Basics

  /** The part of a cooldown state that decides anything. */
  datatype GuardState = GuardState(node: string, failureCount: nat, paused: bool, expiresAt: Option<Time>,
                                   firstFailureAt: Time, lastFailureAt: Time)

  // ---- The methods on one node's entry ------------------------------------------------------

  predicate Expired(s: GuardState, now: Time) {
    s.expiresAt.Some? && now > s.expiresAt.value
  }

  function Marked(cooldown: Duration, threshold: int, node: string, entry: Option<GuardState>, now: Time): GuardState {
    var reset := entry.None? || entry.value.node == "" || (!entry.value.paused && Expired(entry.value, now));
    var count := (if reset then 0 else entry.value.failureCount) + 1;
    var paused := count >= if threshold <= 0 then 1 else threshold;
    GuardState(node, count, paused, if paused then None else Some(now + cooldown),
               if reset then now else entry.value.firstFailureAt, now)
  }

  /** The entry `Get` leaves behind; a counting entry that has expired is deleted. */
  function Kept(entry: Option<GuardState>, now: Time): Option<GuardState> {
    if entry.None? || entry.value.paused then entry
    else if entry.value.failureCount > 0 then (if Expired(entry.value, now) then None else entry)
    else if entry.value.expiresAt.None? || Expired(entry.value, now) then None
    else entry
  }

  /** What `Get` returns: only a paused entry, or one that does not count failures and still lasts. */
  function Reported(entry: Option<GuardState>, now: Time): Option<GuardState> {
    if entry.None? || entry.value.paused then entry
    else if entry.value.failureCount > 0 || entry.value.expiresAt.None? || Expired(entry.value, now) then None
    else entry
  }

  class HotplugGuard {
    const cooldown: Duration
    var states: map<string, GuardState>

    ghost function EntryOf(node: string): Option<GuardState>
      reads this
    {
      if node in states then Some(states[node]) else None
    }

    constructor (cooldown: Duration)
      ensures this.cooldown == cooldown && states == map[]
    {
      this.cooldown, states := cooldown, map[];
    }

    method MarkUnhealthyFailure(node: string, threshold: int, now: Time) returns (state: GuardState, paused: bool)
      modifies this
      ensures state == Marked(cooldown, threshold, node, old(EntryOf(node)), now) && paused == state.paused
      ensures states == old(states)[node := state]
    {
      var limit := if threshold <= 0 then 1 else threshold;
      var count, first := 0, now;
      if node in states {
        var s := states[node];
        if s.node != "" && (s.paused || s.expiresAt.None? || now <= s.expiresAt.value) {
          count, first := s.failureCount, s.firstFailureAt;
        }
      }
      count := count + 1;
      paused := count >= limit;
      state := GuardState(node, count, paused, if paused then None else Some(now + cooldown), first, now);
      states := states[node := state];
    }

    method Get(node: string, now: Time) returns (state: Option<GuardState>)
      modifies this
      ensures state == Reported(old(EntryOf(node)), now)
      ensures EntryOf(node) == Kept(old(EntryOf(node)), now)
      ensures forall n | n != node :: EntryOf(n) == old(EntryOf(n))
    {
      if node !in states {
        return None;
      }
      var s := states[node];
      if s.paused {
        return Some(s);
      }
      if s.failureCount > 0 {
        if s.expiresAt.Some? && now > s.expiresAt.value {
          states := states - {node};
        }
        return None;
      }
      if s.expiresAt.None? || now > s.expiresAt.value {
        states := states - {node};
        return None;
      }
      return Some(s);
    }

    method Clear(node: string)
      modifies this
      ensures states == old(states) - {node}
    {
      states := states - {node};
    }
  }

  // ---- Histories ----------------------------------------------------------------------------

  datatype Event = Mark(at: Time) | Get(at: Time) | Clear(at: Time)

  datatype Settings = Settings(node: string, cooldown: Duration, threshold: int)

  /** The entry of one node after the events that concern it. */
  function After(cfg: Settings, events: seq<Event>): Option<GuardState> {
    if events == [] then None
    else
      var entry := After(cfg, events[..|events| - 1]);
      match events[|events| - 1]
      case Mark(t) => Some(Marked(cfg.cooldown, cfg.threshold, cfg.node, entry, t))
      case Get(t) => Kept(entry, t)
      case Clear(_) => None
  }

  predicate InTimeOrder(events: seq<Event>) {
    forall i, j | 0 <= i <= j < |events| :: events[i].at <= events[j].at
  }

  /** The failures since the last clear. */
  function Failures(events: seq<Event>): seq<Time> {
    if events == [] then []
    else
      var before := Failures(events[..|events| - 1]);
      match events[|events| - 1]
      case Mark(t) => before + [t]
      case Get(_) => before
      case Clear(_) => []
  }

  /** The length of the longest run of failures at the end without a gap above the cooldown. */
  function Streak(ts: seq<Time>, cooldown: Duration): (n: nat)
    ensures n <= |ts| && (n == 0 <==> ts == [])
  {
    if ts == [] then 0
    else
      var last := |ts| - 1;
      1 + (if last > 0 && ts[last] - ts[last - 1] <= cooldown then Streak(ts[..last], cooldown) else 0)
  }

  /** Failure i came no more than the cooldown after the one before it. */
  predicate Close(ts: seq<Time>, i: int, cooldown: Duration) {
    0 < i < |ts| && ts[i] - ts[i - 1] <= cooldown
  }

  predicate GapsWithin(ts: seq<Time>, from: nat, cooldown: Duration) {
    forall i | from < i < |ts| :: Close(ts, i, cooldown)
  }

  /** `Streak` is that length: its failures are close, and every longer suffix has a wide gap. */
  lemma {:induction false} StreakIsLongest(ts: seq<Time>, cooldown: Duration)
    ensures Streak(ts, cooldown) <= |ts|
    ensures GapsWithin(ts, |ts| - Streak(ts, cooldown), cooldown)
    ensures forall from: nat | from < |ts| - Streak(ts, cooldown) :: !GapsWithin(ts, from, cooldown)
  {
    if ts != [] {
      var last := |ts| - 1;
      var front := ts[..last];
      StreakIsLongest(front, cooldown);
      assert forall i | 0 <= i < last :: Close(front, i, cooldown) == Close(ts, i, cooldown);
      forall from: nat | from < |ts| - Streak(ts, cooldown)
        ensures !GapsWithin(ts, from, cooldown)
      {
        if Close(ts, last, cooldown) {
          assert !GapsWithin(front, from, cooldown);
        } else {
          assert from < last;
        }
      }
    }
  }

  function Limit(cfg: Settings): int {
    if cfg.threshold <= 0 then 1 else cfg.threshold
  }

  /** Some failure since the last clear brought the streak to the threshold. */
  predicate HasPaused(cfg: Settings, ts: seq<Time>) {
    ts != [] && (HasPaused(cfg, ts[..|ts| - 1]) || Streak(ts, cfg.cooldown) >= Limit(cfg))
  }

  /** The failure the record counts from: the first of the streak, in a pause of the streak that brought it on. */
  function CountedFrom(cfg: Settings, ts: seq<Time>): (from: nat)
    requires ts != []
    ensures from < |ts|
  {
    var last := |ts| - 1;
    if last > 0 && HasPaused(cfg, ts[..last]) then CountedFrom(cfg, ts[..last]) else |ts| - Streak(ts, cfg.cooldown)
  }

  /** The record counts these failures and tells the first and the last of them. */
  predicate Tells(cfg: Settings, entry: GuardState, ts: seq<Time>)
    requires ts != []
  {
    && entry.node == cfg.node && entry.failureCount == |ts| - CountedFrom(cfg, ts)
    && entry.firstFailureAt == ts[CountedFrom(cfg, ts)] && entry.lastFailureAt == ts[|ts| - 1]
  }

  /** What the record must be after the failures `ts`, seen at `now`. */
  ghost predicate Agrees(cfg: Settings, entry: Option<GuardState>, ts: seq<Time>, now: Time) {
    if ts == [] then entry.None?
    else if HasPaused(cfg, ts) then
      entry.Some? && entry.value.paused && entry.value.expiresAt.None? && Tells(cfg, entry.value, ts)
    else
      var last := ts[|ts| - 1];
      && (now <= last + cfg.cooldown ==> entry.Some?)
      && (entry.Some? ==>
            && !entry.value.paused && Tells(cfg, entry.value, ts)
            && entry.value.expiresAt == Some(last + cfg.cooldown))
  }

  lemma {:induction false} FailuresAreEarlier(events: seq<Event>)
    requires InTimeOrder(events)
    ensures forall i | 0 <= i < |Failures(events)| :: Failures(events)[i] <= events[|events| - 1].at
    ensures events == [] ==> Failures(events) == []
  {
    if events != [] {
      FailuresAreEarlier(events[..|events| - 1]);
      if |events| > 1 {
        assert events[..|events| - 1][|events| - 2] == events[|events| - 2];
      }
    }
  }

  /** One more mark, given that the record agreed just before it. */
  lemma MarkAgrees(cfg: Settings, entry: Option<GuardState>, ts: seq<Time>, now: Time)
    requires cfg.node != "" && (ts != [] ==> ts[|ts| - 1] <= now)
    requires Agrees(cfg, entry, ts, now)
    requires HasPaused(cfg, ts) ==> entry.value.failureCount >= Limit(cfg)
    ensures var s := Marked(cfg.cooldown, cfg.threshold, cfg.node, entry, now);
            && Agrees(cfg, Some(s), ts + [now], now)
            && (s.paused <==> HasPaused(cfg, ts + [now]))
            && (!HasPaused(cfg, ts) ==> s.failureCount == Streak(ts + [now], cfg.cooldown))
            && (s.paused ==> s.failureCount >= Limit(cfg))
  {
    assert (ts + [now])[..|ts|] == ts;
  }

  /**
  For every timed run the record agrees with the history: until the first pause its count is the
  length of the longest close run of failures since the last clear, as long as the entry lasts; the
  pause begins exactly when that length reaches the threshold and lasts until a clear.
  */
  lemma {:induction false} GuardRefinesHistory(cfg: Settings, events: seq<Event>, now: Time)
    requires cfg.node != "" && InTimeOrder(events)
    requires events != [] ==> events[|events| - 1].at <= now
    ensures Agrees(cfg, After(cfg, events), Failures(events), now)
    ensures HasPaused(cfg, Failures(events)) ==> After(cfg, events).value.failureCount >= Limit(cfg)
  {
    if events != [] {
      var last := events[|events| - 1];
      var before := events[..|events| - 1];
      if |events| > 1 {
        assert before[|before| - 1] == events[|events| - 2];
        assert events[|events| - 2].at <= last.at;
      }
      GuardRefinesHistory(cfg, before, last.at);
      FailuresAreEarlier(before);
      if last.Mark? {
        MarkAgrees(cfg, After(cfg, before), Failures(before), last.at);
      }
    }
  }

  /** The next mark pauses exactly when the streak it makes reaches the threshold, or a pause was on already. */
  lemma NextMarkPausesIff(cfg: Settings, events: seq<Event>, now: Time)
    requires cfg.node != "" && InTimeOrder(events)
    requires events != [] ==> events[|events| - 1].at <= now
    ensures var s := Marked(cfg.cooldown, cfg.threshold, cfg.node, After(cfg, events), now);
            var ts := Failures(events);
            && (s.paused <==> HasPaused(cfg, ts) || Streak(ts + [now], cfg.cooldown) >= Limit(cfg))
            && (!HasPaused(cfg, ts) ==> s.failureCount == Streak(ts + [now], cfg.cooldown))
  {
    GuardRefinesHistory(cfg, events, now);
    FailuresAreEarlier(events);
    MarkAgrees(cfg, After(cfg, events), Failures(events), now);
    assert (Failures(events) + [now])[..|Failures(events)|] == Failures(events);
  }

  /** `Get` reports a state exactly while a pause is on. */
  lemma GetReportsIffPaused(cfg: Settings, events: seq<Event>, now: Time)
    requires cfg.node != "" && InTimeOrder(events)
    requires events != [] ==> events[|events| - 1].at <= now
    ensures Reported(After(cfg, events), now).Some? <==> HasPaused(cfg, Failures(events))
  {
    GuardRefinesHistory(cfg, events, now);
    FailuresAreEarlier(events);
  }

  function WithoutGets(events: seq<Event>): seq<Event> {
    if events == [] then []
    else
      var before := WithoutGets(events[..|events| - 1]);
      if events[|events| - 1].Get? then before else before + [events[|events| - 1]]
  }

  /** Two records no later call can tell apart: equal, or one deleted and the other expired. */
  predicate Alike(a: Option<GuardState>, b: Option<GuardState>, now: Time) {
    a == b || (a.None? && b.Some? && !b.value.paused && b.value.failureCount > 0 && Expired(b.value, now))
  }

  lemma {:induction false} DeletionsAreInvisible(cfg: Settings, events: seq<Event>, now: Time)
    requires InTimeOrder(events) && (events != [] ==> events[|events| - 1].at <= now)
    ensures Alike(After(cfg, events), After(cfg, WithoutGets(events)), now)
    ensures After(cfg, WithoutGets(events)).Some? ==> After(cfg, WithoutGets(events)).value.failureCount > 0
  {
    if events != [] {
      var last := events[|events| - 1];
      var before := events[..|events| - 1];
      if |events| > 1 {
        assert before[|before| - 1] == events[|events| - 2];
        assert events[|events| - 2].at <= last.at;
      }
      DeletionsAreInvisible(cfg, before, last.at);
      if !last.Get? {
        var kept := WithoutGets(before);
        assert (kept + [last])[..|kept|] == kept;
      }
    }
  }

  /** Leaving every `Get` out of a run changes no result of a later mark or get. */
  lemma GetsChangeNoLaterResult(cfg: Settings, events: seq<Event>, now: Time)
    requires InTimeOrder(events) && (events != [] ==> events[|events| - 1].at <= now)
    ensures Marked(cfg.cooldown, cfg.threshold, cfg.node, After(cfg, events), now)
         == Marked(cfg.cooldown, cfg.threshold, cfg.node, After(cfg, WithoutGets(events)), now)
    ensures Reported(After(cfg, events), now) == Reported(After(cfg, WithoutGets(events)), now)
  {
    DeletionsAreInvisible(cfg, events, now);
  }

  /** The empty node name never accumulates: every mark starts over. */
  lemma EmptyNodeNeverCounts(cfg: Settings, events: seq<Event>, now: Time)
    requires cfg.node == ""
    ensures Marked(cfg.cooldown, cfg.threshold, cfg.node, After(cfg, events), now).failureCount == 1
  {
    EntriesCarryTheNode(cfg, events);
  }

  lemma {:induction false} EntriesCarryTheNode(cfg: Settings, events: seq<Event>)
    ensures After(cfg, events).Some? ==> After(cfg, events).value.node == cfg.node
  {
    if events != [] {
      EntriesCarryTheNode(cfg, events[..|events| - 1]);
    }
  }
}
