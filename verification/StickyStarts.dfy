/** What a started grace period is worth beside the background reader of the ConfigMap. */
module StickyStarts {
  import opened Basics
  import opened Text
  import opened StickyAttachments
  import opened StickyRaces

  /** A start that nothing came between: entered in the table, then written to the ConfigMap and reported so. */
  ghost function Started(s: System, state: Sticky): System
    requires Trim(state.volumeID) != ""
  {
    Apply(Apply(s, BeginStart(state)), StoreWrite(|s.flights|, true, true))
  }

  /** The step starts, clears, writes, deletes or writes back an entry of this volume. */
  ghost predicate Touches(s: System, step: Step, v: string)
    requires Enabled(s, step)
  {
    match step
    case BeginStart(state) => state.volumeID == v
    case StoreWrite(i, _, _) => s.flights[i].state.volumeID == v
    case Settle(i) => s.flights[i].state.volumeID == v
    case ClearEntry(u) => u == v
    case StoreDelete(i, _) => s.flights[i].volumeID == v
    case WriteBack(_, _) => s.listed[0].volumeID == v
    case Defer(i, _) => s.held[i].volumeID == v
    case _ => false
  }

  ghost predicate Apart(s: System, steps: seq<Step>, v: string) {
    steps == [] ||
    (var before := Exec(s, steps[..|steps| - 1]);
     var step := steps[|steps| - 1];
     Apart(s, steps[..|steps| - 1], v)
     && (before.Some? && Enabled(before.value, step) ==> !Touches(before.value, step, v)))
  }

  /** Table, ConfigMap and whatever the reader holds agree on this entry. */
  predicate Settled(s: System, v: string, entry: Option<Sticky>) {
    && Lookup(s.entries, v) == entry && Lookup(s.store, v) == entry
    && (s.loaded.Some? ==> Lookup(s.loaded.value, v) == entry)
  }

  lemma StepKeepsSettled(s: System, step: Step, v: string, entry: Option<Sticky>)
    requires Enabled(s, step) && !Touches(s, step, v) && Settled(s, v, entry)
    ensures Settled(Apply(s, step), v, entry)
  {
  }

  lemma {:induction false} RunsKeepSettled(s: System, steps: seq<Step>, v: string, entry: Option<Sticky>)
    requires Exec(s, steps).Some? && Apart(s, steps, v) && Settled(s, v, entry)
    ensures Settled(Exec(s, steps).value, v, entry)
  {
    if steps != [] {
      RunsKeepSettled(s, steps[..|steps| - 1], v, entry);
      StepKeepsSettled(Exec(s, steps[..|steps| - 1]).value, steps[|steps| - 1], v, entry);
    }
  }

  /** Whatever other volumes go through, the entry stays in the table. */
  ghost predicate Stays(s: System, state: Sticky) {
    forall steps | Exec(s, steps).Some? && Apart(s, steps, state.volumeID) ::
      Lookup(Exec(s, steps).value.entries, state.volumeID) == Some(state)
  }

  /** The reader read the ConfigMap before the start wrote to it, and has not installed what it read. */
  predicate ReadBefore(s: System, state: Sticky) {
    s.loaded.Some? && Lookup(s.loaded.value, state.volumeID) != Some(state)
  }

  lemma StartSettles(s: System, state: Sticky)
    requires Trim(state.volumeID) != "" && !ReadBefore(s, state)
    ensures Settled(Started(s, state), state.volumeID, Some(state))
  {
  }

  /** A started grace period stays exactly when no reader is about to install what it read before. */
  lemma StartedStaysIff(s: System, state: Sticky)
    requires Trim(state.volumeID) != ""
    ensures Stays(Started(s, state), state) <==> !ReadBefore(s, state)
  {
    var after, v := Started(s, state), state.volumeID;
    if ReadBefore(s, state) {
      var steps := [Install];
      assert steps[..0] == [];
      assert Exec(after, []) == Some(after) && Apart(after, [], v);
      assert Exec(after, steps) == Some(Apply(after, Install)) && Apart(after, steps, v);
    } else {
      StartSettles(s, state);
      forall steps | Exec(after, steps).Some? && Apart(after, steps, v)
        ensures Lookup(Exec(after, steps).value.entries, v) == Some(state)
      {
        RunsKeepSettled(after, steps, v, Some(state));
      }
    }
  }

  /** A deferral puts the copy it read back with the new expiry, whatever the table says by then. */
  lemma DeferMovesExpiry(s: System, i: nat, expiresAt: Time)
    requires Enabled(s, Defer(i, expiresAt)) && Trim(s.held[i].volumeID) != ""
    ensures var after, copy := Apply(s, Defer(i, expiresAt)), s.held[i];
            && Lookup(after.entries, copy.volumeID) == Some(copy.(expiresAt := expiresAt))
            && after.store == s.store && |after.held| == |s.held| - 1
            && after.flights == s.flights + [Writing(copy.(expiresAt := expiresAt), Lookup(s.entries, copy.volumeID))]
  {
  }
}
