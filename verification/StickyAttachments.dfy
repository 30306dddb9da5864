/**
Attachments kept for a while after they are no longer asked for. The table is changed in place and
rolled back when the change cannot be persisted; `persisted` is the answer of the store.
*/
module StickyAttachments {
  import opened Basics
  import opened Text

  datatype Sticky = Sticky(
    volumeID: string, nodeID: string, reason: string, startedAt: Time, expiresAt: Time, graceSeconds: int)

  type Table = map<string, Sticky>

  /** Every entry is filed under its own volume. */
  predicate Filed(t: Table) {
    forall v | v in t :: t[v].volumeID == v
  }

  function Ids(states: seq<Sticky>): (ids: seq<string>)
    ensures |ids| == |states| && forall i | 0 <= i < |ids| :: ids[i] == states[i].volumeID
  {
    seq(|states|, i requires 0 <= i < |states| => states[i].volumeID)
  }

  /** Ids in order, exactly those of the entries with this reason. */
  ghost predicate Lists(order: seq<string>, t: Table, reason: string) {
    StrictlySorted(order) && forall v :: v in order <==> v in t && Trim(t[v].reason) == reason
  }

  function Lookup(t: Table, v: string): Option<Sticky> {
    if v in t then Some(t[v]) else None
  }

  function Written(t: Table, state: Sticky): Table {
    t[state.volumeID := state]
  }

  function RolledBack(t: Table, v: string, previous: Option<Sticky>): Table {
    if previous.Some? then t[v := previous.value] else t - {v}
  }

  class StickyAttachmentManager {
    var entries: Table

    constructor ()
      ensures entries == map[]
    {
      entries := map[];
    }

    /** The first locked section of `StartGrace` and `Update`. */
    method Put(state: Sticky) returns (previous: Option<Sticky>)
      requires Filed(entries)
      modifies this
      ensures Filed(entries) && entries == Written(old(entries), state)
      ensures previous == Lookup(old(entries), state.volumeID)
    {
      previous := if state.volumeID in entries then Some(entries[state.volumeID]) else None;
      entries := entries[state.volumeID := state];
    }

    /** Their second locked section, when the entry could not be persisted; a start restores nothing. */
    method RollBack(state: Sticky, previous: Option<Sticky>)
      requires Filed(entries) && (previous.Some? ==> previous.value.volumeID == state.volumeID)
      modifies this
      ensures Filed(entries) && entries == RolledBack(old(entries), state.volumeID, previous)
    {
      if previous.Some? {
        entries := entries[state.volumeID := previous.value];
      } else {
        entries := entries - {state.volumeID};
      }
    }

    /** Undisturbed: a failed start leaves no entry at all, not even an earlier one. */
    method StartGrace(state: Sticky, persisted: bool) returns (ok: bool)
      requires Filed(entries)
      modifies this
      ensures Filed(entries)
      ensures ok <==> Trim(state.volumeID) != "" && persisted
      ensures ok ==> entries == old(entries)[state.volumeID := state]
      ensures !ok ==> entries == if Trim(state.volumeID) == "" then old(entries) else old(entries) - {state.volumeID}
    {
      if Trim(state.volumeID) == "" {
        return false;
      }
      var previous := Put(state);
      if !persisted {
        RollBack(state, None);
        return false;
      }
      return true;
    }

    /** Undisturbed: a failed update leaves the table as it was. */
    method Update(state: Sticky, persisted: bool) returns (ok: bool)
      requires Filed(entries)
      modifies this
      ensures Filed(entries)
      ensures ok <==> Trim(state.volumeID) != "" && persisted
      ensures entries == if ok then old(entries)[state.volumeID := state] else old(entries)
    {
      if Trim(state.volumeID) == "" {
        return false;
      }
      var previous := Put(state);
      if !persisted {
        RollBack(state, previous);
        return false;
      }
      return true;
    }

    method Clear(volumeID: string)
      requires Filed(entries)
      modifies this
      ensures Filed(entries)
      ensures entries == if Trim(volumeID) == "" then old(entries) else old(entries) - {volumeID}
    {
      if Trim(volumeID) != "" {
        entries := entries - {volumeID};
      }
    }

    method ListExpired(now: Time) returns (expired: seq<Sticky>)
      requires Filed(entries)
      ensures forall s :: s in expired <==> s.volumeID in entries && entries[s.volumeID] == s && s.expiresAt <= now
    {
      expired := [];
      var left := entries.Keys;
      while left != {}
        invariant left <= entries.Keys
        invariant forall s :: s in expired <==>
                    s.volumeID in entries && s.volumeID !in left && entries[s.volumeID] == s && s.expiresAt <= now
        decreases |left|
      {
        var v :| v in left;
        left := left - {v};
        if entries[v].expiresAt <= now {
          expired := expired + [entries[v]];
        }
      }
    }

    method SortedIds(reason: string) returns (order: seq<string>)
      ensures Lists(order, entries, Trim(reason))
    {
      order := [];
      var left := entries.Keys;
      while left != {}
        invariant left <= entries.Keys
        invariant StrictlySorted(order)
        invariant forall v :: v in order <==> v in entries && v !in left && Trim(entries[v].reason) == Trim(reason)
        decreases |left|
      {
        var v :| v in left;
        left := left - {v};
        if Trim(entries[v].reason) == Trim(reason) {
          InsertKeyMembers(order, v);
          InsertKeySorted(order, v);
          order := InsertKey(order, v);
        }
      }
    }

    /** Copies of the entries, in the order of their ids. */
    method ListByReason(reason: string) returns (states: seq<Sticky>)
      requires Filed(entries)
      ensures Lists(Ids(states), entries, Trim(reason))
      ensures forall i | 0 <= i < |states| :: states[i].volumeID in entries && states[i] == entries[states[i].volumeID]
    {
      var order := SortedIds(reason);
      states := [];
      for i := 0 to |order|
        invariant |states| == i
        invariant forall k | 0 <= k < i :: order[k] in entries && states[k] == entries[order[k]]
      {
        assert order[i] in order;
        states := states + [entries[order[i]]];
      }
      assert Ids(states) == order;
    }
  }
}
