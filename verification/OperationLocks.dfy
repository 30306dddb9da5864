/**
Keyed, reference-counted locks: the lock table as a value, what its two critical sections do to
it, and the class that performs them in place. A lock object is named by a number that is never
reused, standing for the reference the driver holds.
*/
module OperationLocks {
  import opened Basics
  import opened Text

  /** One `operationLockRef`: how many clients refer to it, and the session that has its mutex. */
  datatype LockRef = LockRef(refs: int, heldBy: Option<nat>)

  datatype Table = Table(locks: map<string, nat>, objects: map<nat, LockRef>, next: nat)

  const EmptyTable := Table(map[], map[], 0)

  /** Keys name live, distinct objects, and the next name is unused. */
  ghost predicate WellFormed(t: Table) {
    && (forall k | k in t.locks :: t.locks[k] in t.objects)
    && (forall o | o in t.objects :: o < t.next)
    && (forall k, l | k in t.locks && l in t.locks && t.locks[k] == t.locks[l] :: k == l)
  }

  function RefsOf(t: Table, key: string): int {
    if key in t.locks && t.locks[key] in t.objects then t.objects[t.locks[key]].refs else 0
  }

  /** Who has the mutex of a key's lock object. */
  function HolderOf(t: Table, key: string): Option<nat> {
    if key in t.locks && t.locks[key] in t.objects then t.objects[t.locks[key]].heldBy else None
  }

  function RegisterOne(t: Table, key: string): Table {
    if key in t.locks && t.locks[key] in t.objects then
      var o := t.locks[key];
      t.(objects := t.objects[o := t.objects[o].(refs := t.objects[o].refs + 1)])
    else
      Table(t.locks[key := t.next], t.objects[t.next := LockRef(1, None)], t.next + 1)
  }

  function RegisterAll(t: Table, keys: seq<string>): Table {
    if keys == [] then t else RegisterOne(RegisterAll(t, keys[..|keys| - 1]), keys[|keys| - 1])
  }

  function DropOne(t: Table, key: string, ref: nat): Table {
    if ref !in t.objects then t
    else
      var left := t.objects[ref].refs - 1;
      Table(if left == 0 then t.locks - {key} else t.locks, t.objects[ref := t.objects[ref].(refs := left)], t.next)
  }

  function DropAll(t: Table, keys: seq<string>, refs: seq<nat>): Table
    requires |keys| == |refs|
  {
    if keys == [] then t
    else DropOne(DropAll(t, keys[..|keys| - 1], refs[..|refs| - 1]), keys[|keys| - 1], refs[|refs| - 1])
  }

  // ---- What the sections do, key by key -----------------------------------------------------

  function Named(keys: seq<string>, key: string): int {
    if key in keys then 1 else 0
  }

  /** Registering keeps every object in place, adds one reference per named key and creates what was missing. */
  ghost predicate Registered(t: Table, t': Table, keys: seq<string>) {
    && WellFormed(t')
    && (forall k | k in t.locks :: k in t'.locks && t'.locks[k] == t.locks[k])
    && (forall k :: k in t'.locks <==> k in t.locks || k in keys)
    && (forall k | k in t'.locks :: RefsOf(t', k) == RefsOf(t, k) + Named(keys, k))
    && (forall o | o in t.objects :: o in t'.objects && t'.objects[o].heldBy == t.objects[o].heldBy)
    && (forall k :: HolderOf(t', k) == HolderOf(t, k))
    && t.next <= t'.next
  }

  ghost predicate Distinct(keys: seq<string>) {
    forall i, j | 0 <= i < j < |keys| :: keys[i] != keys[j]
  }

  lemma {:induction false} RegisterAllEffect(t: Table, keys: seq<string>)
    requires WellFormed(t) && Distinct(keys)
    ensures Registered(t, RegisterAll(t, keys), keys)
  {
    if keys != [] {
      var front, key := keys[..|keys| - 1], keys[|keys| - 1];
      RegisterAllEffect(t, front);
      var m := RegisterAll(t, front);
      assert key !in front && keys == front + [key];
      RegisterOneEffect(m, key);
      RegisterThenRegister(t, m, RegisterOne(m, key), front, key);
    }
  }

  lemma RegisterThenRegister(t: Table, m: Table, t': Table, front: seq<string>, key: string)
    requires Registered(t, m, front) && Registered(m, t', [key]) && key !in front
    ensures Registered(t, t', front + [key])
  {
    assert forall k :: Named(front + [key], k) == Named(front, k) + Named([key], k);
    assert forall k :: k in front + [key] <==> k in front || k in [key];
  }

  lemma RegisterOneEffect(t: Table, key: string)
    requires WellFormed(t)
    ensures Registered(t, RegisterOne(t, key), [key])
  {
  }

  lemma RegisterOneKeeps(t: Table, key: string)
    requires WellFormed(t)
    ensures var t' := RegisterOne(t, key);
            && WellFormed(t') && key in t'.locks
            && forall k | k in t.locks :: k in t'.locks && t'.locks[k] == t.locks[k]
  {
  }

  /** Dropping takes one reference per named key and removes exactly the entries left without any. */
  ghost predicate Dropped(t: Table, t': Table, keys: seq<string>) {
    && WellFormed(t')
    && (forall k | k in t'.locks :: k in t.locks && t'.locks[k] == t.locks[k])
    && (forall k :: k in t'.locks <==> k in t.locks && !(k in keys && RefsOf(t, k) == 1))
    && (forall k | k in t'.locks :: RefsOf(t', k) == RefsOf(t, k) - Named(keys, k))
    && t'.objects.Keys == t.objects.Keys
    && (forall k | k in t'.locks :: HolderOf(t', k) == HolderOf(t, k))
    && (forall o | o in t.objects :: t'.objects[o].heldBy == t.objects[o].heldBy)
    && t.next == t'.next
  }

  lemma {:induction false} DropAllEffect(t: Table, keys: seq<string>, refs: seq<nat>)
    requires WellFormed(t) && Distinct(keys) && |keys| == |refs|
    requires forall j | 0 <= j < |keys| :: keys[j] in t.locks && refs[j] == t.locks[keys[j]]
    ensures Dropped(t, DropAll(t, keys, refs), keys)
  {
    if keys != [] {
      var front, key := keys[..|keys| - 1], keys[|keys| - 1];
      DropAllEffect(t, front, refs[..|refs| - 1]);
      var m := DropAll(t, front, refs[..|refs| - 1]);
      assert key !in front && keys == front + [key];
      DropOneEffect(m, key);
      DropThenDrop(t, m, DropOne(m, key, m.locks[key]), front, key);
    }
  }

  lemma DropThenDrop(t: Table, m: Table, t': Table, front: seq<string>, key: string)
    requires Dropped(t, m, front) && Dropped(m, t', [key]) && key !in front
    ensures Dropped(t, t', front + [key])
  {
    assert forall k :: Named(front + [key], k) == Named(front, k) + Named([key], k);
    assert forall k :: k in front + [key] <==> k in front || k in [key];
  }

  lemma DropOneEffect(t: Table, key: string)
    requires WellFormed(t) && key in t.locks
    ensures Dropped(t, DropOne(t, key, t.locks[key]), [key])
  {
  }

  // ---- Keys ---------------------------------------------------------------------------------

  function NodeLockKey(node: string): string {
    "node:" + node
  }

  function VolumeLockKey(volume: string): string {
    "volume:" + volume
  }

  /** Every node key comes before every volume key. */
  lemma NodeKeysFirst(node: string, volume: string)
    ensures Less(NodeLockKey(node), VolumeLockKey(volume))
    ensures NodeLockKey(node) != "" && VolumeLockKey(volume) != ""
  {
    assert NodeLockKey(node)[0] == 'n' && VolumeLockKey(volume)[0] == 'v';
  }

  // ---- The lock table in place --------------------------------------------------------------

  class OperationLocks {
    var locks: map<string, nat>
    var objects: map<nat, LockRef>
    var next: nat

    ghost function State(): Table
      reads this
    {
      Table(locks, objects, next)
    }

    constructor ()
      ensures State() == EmptyTable
    {
      locks, objects, next := map[], map[], 0;
    }

    /** Removes blanks and duplicates and sorts what is left. */
    static method NormalizeLockKeys(keys: seq<string>) returns (normalized: seq<string>)
      ensures StrictlySorted(normalized)
      ensures forall k :: k in normalized <==> k in keys && k != ""
    {
      var unique: set<string> := {};
      for i := 0 to |keys|
        invariant forall k :: k in unique <==> k in keys[..i] && k != ""
      {
        if keys[i] != "" {
          unique := unique + {keys[i]};
        }
      }
      assert keys[..|keys|] == keys;
      normalized := [];
      var left := unique;
      while left != {}
        invariant StrictlySorted(normalized)
        invariant forall k :: k in unique <==> k in left || k in normalized
        invariant forall k | k in normalized :: k !in left
        decreases |left|
      {
        var k :| k in left;
        InsertKeyMembers(normalized, k);
        InsertKeySorted(normalized, k);
        normalized, left := InsertKey(normalized, k), left - {k};
      }
    }

    /** The first critical section of `Acquire` and `TryAcquire`. */
    method Register(keys: seq<string>) returns (refs: seq<nat>)
      requires WellFormed(State()) && Distinct(keys)
      modifies this
      ensures State() == RegisterAll(old(State()), keys)
      ensures |refs| == |keys|
      ensures forall j | 0 <= j < |keys| :: keys[j] in locks && refs[j] == locks[keys[j]]
    {
      ghost var start := State();
      refs := [];
      for i := 0 to |keys|
        invariant State() == RegisterAll(start, keys[..i]) && WellFormed(State())
        invariant |refs| == i
        invariant forall j | 0 <= j < i :: keys[j] in locks && refs[j] == locks[keys[j]]
      {
        assert keys[..i + 1][..i] == keys[..i];
        RegisterOneKeeps(State(), keys[i]);
        var ref := RegisterKey(keys[i]);
        refs := refs + [ref];
      }
      assert keys[..|keys|] == keys;
    }

    method RegisterKey(key: string) returns (ref: nat)
      requires WellFormed(State())
      modifies this
      ensures State() == RegisterOne(old(State()), key)
      ensures key in locks && ref == locks[key]
    {
      ref := next;
      if key in locks {
        ref := locks[key];
        objects := objects[ref := objects[ref].(refs := objects[ref].refs + 1)];
      } else {
        locks, objects, next := locks[key := ref], objects[ref := LockRef(1, None)], next + 1;
      }
    }

    /** The last critical section of a release, and of a `TryAcquire` that found the lock taken. */
    method Drop(keys: seq<string>, refs: seq<nat>)
      requires |keys| == |refs|
      requires forall j | 0 <= j < |refs| :: refs[j] in objects
      modifies this
      ensures State() == DropAll(old(State()), keys, refs)
    {
      ghost var start := State();
      for i := 0 to |keys|
        invariant State() == DropAll(start, keys[..i], refs[..i])
        invariant forall j | 0 <= j < |refs| :: refs[j] in objects
      {
        assert keys[..i + 1][..i] == keys[..i] && refs[..i + 1][..i] == refs[..i];
        var left := objects[refs[i]].refs - 1;
        objects := objects[refs[i] := objects[refs[i]].(refs := left)];
        if left == 0 {
          locks := locks - {keys[i]};
        }
      }
      assert keys[..|keys|] == keys && refs[..|refs|] == refs;
    }
  }
}
