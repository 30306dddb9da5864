/**
The sticky table with everything that runs beside it. It is unlocked while an entry is written to or
deleted from the ConfigMap; a maintenance release writes back copies it listed earlier, and the
expiry of a grace period one it read earlier; and the whole table is replaced again and again by
what a background reader found in the ConfigMap. All of these are separate steps here, to say what
a `Clear` is worth.
*/
module StickyRaces {
  import opened Basics
  import opened Text
  import opened StickyAttachments
  import opened MaintenanceRelease

  /** A call between its locked sections; `previous` is what a failure puts back. */
  datatype Flight =
    | Writing(state: Sticky, previous: Option<Sticky>)
    | Failing(state: Sticky, previous: Option<Sticky>)
    | Deleting(volumeID: string)
    | Done

  /**
  `listed`: the copies a release pass has yet to write back; `held`: the copies an expiry has read;
  `loaded`: what the background reader has read and not yet installed.
  */
  datatype System = System(
    entries: Table, store: Table, flights: seq<Flight>, listed: seq<Sticky>, held: seq<Sticky>, loaded: Option<Table>)

  const Init := System(map[], map[], [], [], [], None)

  datatype Step =
    | BeginStart(state: Sticky)
    | StoreWrite(i: nat, reaches: bool, reports: bool)
    | Settle(i: nat)
    | ClearEntry(volumeID: string)
    | StoreDelete(i: nat, reaches: bool)
    | List(copies: seq<Sticky>)
    | WriteBack(now: Time, delay: Duration)
    | Hold(volumeID: string)
    | LetGo(i: nat)
    | Defer(i: nat, expiresAt: Time)
    | ReadStore
    | Install

  /** A release pass may list it; the order and completeness of its list play no part here. */
  predicate IsCopy(t: Table, c: Sticky) {
    c.volumeID in t && t[c.volumeID] == c && IsHold(c)
  }

  /** A write that is reported as done has been done; one reported as failed may have been. */
  ghost predicate Enabled(s: System, step: Step) {
    match step
    case BeginStart(state) => Trim(state.volumeID) != ""
    case StoreWrite(i, reaches, reports) => i < |s.flights| && s.flights[i].Writing? && (reports ==> reaches)
    case Settle(i) => i < |s.flights| && s.flights[i].Failing?
    case ClearEntry(v) => Trim(v) != ""
    case StoreDelete(i, _) => i < |s.flights| && s.flights[i].Deleting?
    case List(copies) => s.listed == [] && forall i | 0 <= i < |copies| :: IsCopy(s.entries, copies[i])
    case WriteBack(_, _) => s.listed != []
    case Hold(v) => v in s.entries
    case LetGo(i) => i < |s.held|
    case Defer(i, _) => i < |s.held|
    case ReadStore => true
    case Install => s.loaded.Some?
  }

  function Begin(s: System, state: Sticky, previous: Option<Sticky>): System {
    s.(entries := Written(s.entries, state), flights := s.flights + [Writing(state, previous)])
  }

  /** `Update`, which ignores blank ids. */
  function BeginUpdate(s: System, state: Sticky): System {
    if Trim(state.volumeID) == "" then s else Begin(s, state, Lookup(s.entries, state.volumeID))
  }

  ghost function Apply(s: System, step: Step): System
    requires Enabled(s, step)
  {
    match step
    case BeginStart(state) => Begin(s, state, None)
    case StoreWrite(i, reaches, reports) =>
      var f := s.flights[i];
      s.(store := if reaches then Written(s.store, f.state) else s.store,
         flights := s.flights[i := if reports then Done else Failing(f.state, f.previous)])
    case Settle(i) =>
      var f := s.flights[i];
      s.(entries := RolledBack(s.entries, f.state.volumeID, f.previous), flights := s.flights[i := Done])
    case ClearEntry(v) => s.(entries := s.entries - {v}, flights := s.flights + [Deleting(v)])
    case StoreDelete(i, reaches) =>
      s.(store := if reaches then s.store - {s.flights[i].volumeID} else s.store, flights := s.flights[i := Done])
    case List(copies) => s.(listed := copies)
    case WriteBack(now, delay) => BeginUpdate(s.(listed := s.listed[1..]), Scheduled(s.listed[0], now, delay))
    case Hold(v) => s.(held := s.held + [s.entries[v]])
    case LetGo(i) => s.(held := s.held[..i] + s.held[i + 1..])
    case Defer(i, expiresAt) =>
      BeginUpdate(s.(held := s.held[..i] + s.held[i + 1..]), s.held[i].(expiresAt := expiresAt))
    case ReadStore => s.(loaded := Some(s.store))
    case Install => s.(entries := s.loaded.value, loaded := None)
  }

  ghost function Exec(s: System, steps: seq<Step>): Option<System> {
    if steps == [] then Some(s)
    else
      var before := Exec(s, steps[..|steps| - 1]);
      var step := steps[|steps| - 1];
      if before.None? || !Enabled(before.value, step) then None else Some(Apply(before.value, step))
  }

  ghost predicate Reachable(s: System) {
    exists steps :: Exec(Init, steps) == Some(s)
  }

  // ---- Entries are filed under their own volume ---------------------------------------------

  predicate FlightOk(f: Flight) {
    f.Writing? || f.Failing? ==>
      Trim(f.state.volumeID) != "" && (f.previous.Some? ==> f.previous.value.volumeID == f.state.volumeID)
  }

  ghost predicate Ok(s: System) {
    && Filed(s.entries) && Filed(s.store) && (s.loaded.Some? ==> Filed(s.loaded.value))
    && forall i | 0 <= i < |s.flights| :: FlightOk(s.flights[i])
  }

  lemma StepKeepsOk(s: System, step: Step)
    requires Ok(s) && Enabled(s, step)
    ensures Ok(Apply(s, step))
  {
  }

  lemma {:induction false} RunsKeepOk(s: System, steps: seq<Step>)
    requires Ok(s) && Exec(s, steps).Some?
    ensures Ok(Exec(s, steps).value)
  {
    if steps != [] {
      RunsKeepOk(s, steps[..|steps| - 1]);
      StepKeepsOk(Exec(s, steps[..|steps| - 1]).value, steps[|steps| - 1]);
    }
  }

  lemma ReachableIsOk(s: System)
    requires Reachable(s)
    ensures Ok(s)
  {
    var steps :| Exec(Init, steps) == Some(s);
    RunsKeepOk(Init, steps);
  }
}
