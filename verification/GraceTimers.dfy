/**
The grace timers of the attachment reconciler: the time each key was first met, forgotten when a
pass does not meet it.
*/
module GraceTimers {
  import opened Basics

  /** One timer during a pass: the seen map, the keys met so far, and the items acted on. */
  datatype Tally<X(==)> = Tally(seen: map<string, Time>, current: set<string>, acted: set<X>)

  ghost function KeysOf<X>(items: set<(string, X)>): set<string> {
    set it | it in items :: it.0
  }

  function Touched(seen: map<string, Time>, keys: set<string>, now: Time): map<string, Time> {
    map k | k in seen.Keys + keys :: if k in seen then seen[k] else now
  }

  predicate IsDue(seen: map<string, Time>, key: string, now: Time, grace: Duration) {
    key in seen && now - seen[key] >= grace
  }

  ghost function DueItems<X>(seen: map<string, Time>, items: set<(string, X)>, now: Time, grace: Duration): set<X> {
    set it | it in items && IsDue(seen, it.0, now, grace) :: it.1
  }

  /** The tally after exactly these items were met, in whatever order. */
  ghost predicate Tallied<X>(t: Tally<X>, before: map<string, Time>, items: set<(string, X)>, now: Time,
                             grace: Duration) {
    && t.seen == Touched(before, KeysOf(items), now)
    && t.current == KeysOf(items)
    && t.acted == DueItems(before, items, now, grace)
  }

  method Due(seen: map<string, Time>, key: string, now: Time, grace: Duration)
    returns (after: map<string, Time>, due: bool)
    ensures after == Touched(seen, {key}, now)
    ensures due <==> IsDue(seen, key, now, grace)
  {
    if key !in seen {
      return seen[key := now], false;
    }
    return seen, now - seen[key] >= grace;
  }

  /** A grace time is positive, so meeting a key twice in its first pass does not make it due. */
  method Meet<X(==)>(t: Tally<X>, key: string, item: X, now: Time, grace: Duration,
                 ghost before: map<string, Time>, ghost items: set<(string, X)>)
    returns (after: Tally<X>)
    requires grace > 0
    requires Tallied(t, before, items, now, grace)
    ensures Tallied(after, before, items + {(key, item)}, now, grace)
  {
    var seen, due := Due(t.seen, key, now, grace);
    after := Tally(seen, t.current + {key}, if due then t.acted + {item} else t.acted);
    assert due <==> IsDue(before, key, now, grace);
    assert KeysOf(items + {(key, item)}) == KeysOf(items) + {key};
    assert DueItems(before, items + {(key, item)}, now, grace) == after.acted;
  }

  /** A pass as a whole: keys not met are forgotten, new ones start now. */
  function AfterPass(seen: map<string, Time>, keys: set<string>, now: Time): map<string, Time> {
    map k | k in keys :: if k in seen then seen[k] else now
  }

  method Prune(seen: map<string, Time>, current: set<string>, ghost before: map<string, Time>, ghost now: Time)
    returns (after: map<string, Time>)
    requires seen == Touched(before, current, now)
    ensures after == AfterPass(before, current, now)
  {
    after := seen;
    var keys := seen.Keys;
    while keys != {}
      invariant keys <= seen.Keys
      invariant forall k :: k in after <==> k in seen && (k in keys || k in current)
      invariant forall k | k in after :: after[k] == seen[k]
      decreases |keys|
    {
      var key :| key in keys;
      keys := keys - {key};
      if key !in current {
        after := after - {key};
      }
    }
    PrunedIsAfterPass(seen, after, current, before, now);
  }

  lemma PrunedIsAfterPass(seen: map<string, Time>, after: map<string, Time>, current: set<string>,
                          before: map<string, Time>, now: Time)
    requires seen == Touched(before, current, now)
    requires forall k :: k in after <==> k in seen && k in current
    requires forall k | k in after :: after[k] == seen[k]
    ensures after == AfterPass(before, current, now)
  {
  }
}
