/** Four ways in which a cleared sticky entry comes back. */
module StickyUndone {
  import opened Basics
  import opened Text
  import opened StickyAttachments
  import opened MaintenanceRelease
  import opened StickyRaces
  import opened StickyClears

  /** A start that was persisted. */
  lemma Started(state: Sticky) returns (steps: seq<Step>)
    requires Trim(state.volumeID) != ""
    ensures Exec(Init, steps) ==
            Some(System(map[state.volumeID := state], map[state.volumeID := state], [Done], [], [], None))
  {
    var v := state.volumeID;
    steps := Extend(Init, [], BeginStart(state));
    var m := Exec(Init, steps).value;
    assert m == System(map[v := state], map[], [Writing(state, None)], [], [], None);
    steps := Extend(Init, steps, StoreWrite(0, true, true));
    assert [Writing(state, None)][0 := Done] == [Done];
  }

  /** A clear and the end of its store delete. */
  lemma Cleared(steps: seq<Step>, s: System, v: string, reaches: bool) returns (longer: seq<Step>)
    requires Exec(Init, steps) == Some(s) && Trim(v) != ""
    ensures Exec(Init, longer) == Some(s.(entries := s.entries - {v}, flights := s.flights + [Done],
                                          store := if reaches then s.store - {v} else s.store))
  {
    longer := Extend(Init, steps, ClearEntry(v));
    assert Exec(Init, longer).value.flights == s.flights + [Deleting(v)];
    longer := Extend(Init, longer, StoreDelete(|s.flights|, reaches));
    assert (s.flights + [Deleting(v)])[|s.flights| := Done] == s.flights + [Done];
  }

  /** A clear whose store delete failed is undone by the reader. */
  lemma FailedDeleteUndoesClear(state: Sticky) returns (s: System)
    requires Trim(state.volumeID) != ""
    ensures Reachable(s) && state.volumeID !in s.entries && state.volumeID in s.store
  {
    var v := state.volumeID;
    var steps := Started(state);
    var longer := Cleared(steps, Exec(Init, steps).value, v, false);
    s := Exec(Init, longer).value;
  }

  /** So is a clear that overtook the store write of a start. */
  lemma SlowStartUndoesClear(state: Sticky) returns (s: System)
    requires Trim(state.volumeID) != ""
    ensures Reachable(s) && !Stored(s, state.volumeID)
    ensures state.volumeID !in s.entries && InFlight(s.flights, state.volumeID)
  {
    var v := state.volumeID;
    var steps := Extend(Init, [], BeginStart(state));
    var m := Exec(Init, steps).value;
    assert m == System(map[v := state], map[], [Writing(state, None)], [], [], None);
    var longer := Cleared(steps, m, v, true);
    s := Exec(Init, longer).value;
    assert Restores(s.flights[0], v);
  }

  /** A hold cleared between listing and writing back returns. */
  lemma ReleaseUndoesClear(state: Sticky) returns (s: System)
    requires Trim(state.volumeID) != "" && IsHold(state)
    ensures Reachable(s) && !Stored(s, state.volumeID)
    ensures state.volumeID !in s.entries && Mentions(s.listed, state.volumeID)
  {
    var v := state.volumeID;
    var steps := Started(state);
    steps := Extend(Init, steps, List([state]));
    var longer := Cleared(steps, Exec(Init, steps).value, v, true);
    s := Exec(Init, longer).value;
    assert s.listed[0].volumeID == v;
  }

  /** And so does one cleared between the expiry's read and its deferral. */
  lemma ExpiryUndoesClear(state: Sticky) returns (s: System)
    requires Trim(state.volumeID) != ""
    ensures Reachable(s) && !Stored(s, state.volumeID)
    ensures state.volumeID !in s.entries && Mentions(s.held, state.volumeID)
  {
    var v := state.volumeID;
    var steps := Started(state);
    steps := Extend(Init, steps, Hold(v));
    var longer := Cleared(steps, Exec(Init, steps).value, v, true);
    s := Exec(Init, longer).value;
    assert s.held[0].volumeID == v;
  }
}
