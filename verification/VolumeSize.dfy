/**
The size of a persistent disk: the canonical image size, the requested size kept in the image
template, and the size of the attached disk. Expansion must survive detach and reattach while the
canonical size stays stale.
*/
module VolumeSize {
  import opened Basics

  const MIB: int := 1024 * 1024

  /** One value of a template tag, as `strconv.ParseInt` sees it; `Good` values are positive. */
  datatype Tag = Blank | Bad | Good(n: nat)

  /** `expanded` tells whether an expansion marker is present. */
  datatype Volume = Volume(canonicalMiB: nat, bytesTags: seq<Tag>, mbTags: seq<Tag>, expanded: bool,
                           attachedMiB: Option<nat>)

  datatype Result<T> = Ok(value: T) | Err

  // ---- Sizes --------------------------------------------------------------------------------

  function BytesToMiBRoundUp(size: nat): (mib: nat)
    ensures mib * MIB >= size
    ensures (mib - 1) * MIB < size
  {
    size / MIB + (if size % MIB != 0 then 1 else 0)
  }

  function EffectiveVolumeSizeBytes(canonical: int, requested: int): (size: int)
    ensures size >= canonical && size >= requested && (size == canonical || size == requested)
  {
    if requested > canonical then requested else canonical
  }

  function LargestGood(tags: seq<Tag>): nat {
    if tags == [] then 0
    else
      var rest := LargestGood(tags[..|tags| - 1]);
      var last := tags[|tags| - 1];
      if last.Good? && last.n > rest then last.n else rest
  }

  /** The tag values that count against the template when no usable one is left. */
  predicate AnyBad(tags: seq<Tag>) {
    exists t | t in tags :: t.Bad? || t == Good(0)
  }

  function RequestedSize(v: Volume): Result<nat> {
    var bytes := LargestGood(v.bytesTags);
    var mib := LargestGood(v.mbTags);
    if bytes > 0 then Ok(bytes)
    else if mib > 0 then Ok(mib * MIB)
    else if AnyBad(v.bytesTags) || AnyBad(v.mbTags) then Err
    else Ok(0)
  }

  /** One of the two loops over template values; the second one's unit is a MiB. */
  method ScanTags(tags: seq<Tag>) returns (largest: nat, bad: bool)
    ensures largest == LargestGood(tags)
    ensures bad == AnyBad(tags)
  {
    largest, bad := 0, false;
    for i := 0 to |tags|
      invariant largest == LargestGood(tags[..i])
      invariant bad == AnyBad(tags[..i])
    {
      assert tags[..i + 1][..i] == tags[..i];
      assert tags[..i + 1] == tags[..i] + [tags[i]];
      if tags[i].Bad? || tags[i] == Good(0) {
        bad := true;
      } else if tags[i].Good? && tags[i].n > largest {
        largest := tags[i].n;
      }
    }
    assert tags[..|tags|] == tags;
  }

  /** `csiRequestedSizeBytesFromTemplate`. */
  method RequestedSizeFromTemplate(v: Volume) returns (r: Result<nat>)
    ensures r == RequestedSize(v)
  {
    var bytes, badBytes := ScanTags(v.bytesTags);
    if bytes > 0 {
      return Ok(bytes);
    }
    var mib, badMib := ScanTags(v.mbTags);
    if mib > 0 {
      return Ok(mib * MIB);
    }
    return if badBytes || badMib then Err else Ok(0);
  }

  /** `VolumeExists`: the size every caller works with, or an error for broken expansion metadata. */
  function EffectiveSize(v: Volume): Result<nat> {
    var requested := RequestedSize(v);
    if requested.Err? || (requested.value == 0 && v.expanded) then Err
    else Ok(EffectiveVolumeSizeBytes(v.canonicalMiB * MIB, requested.value))
  }

  // ---- Operations ---------------------------------------------------------------------------

  /** Whether the template update took effect and was read back. */
  datatype Update = Verified | Unverified | NotApplied

  /**
  What OpenNebula does during one call: how far a resize gets, whether the driver could read that,
  and the update.
  */
  datatype Reply = Reply(grownMiB: nat, observed: bool, update: Update)

  function Persist(v: Volume, size: nat, update: Update): Volume {
    if update.NotApplied? then v
    else v.(bytesTags := [Good(size)], mbTags := [Good(BytesToMiBRoundUp(size))], expanded := true)
  }

  function Grown(was: nat, reply: Reply): (mib: nat)
    ensures mib >= was
  {
    if reply.grownMiB > was then reply.grownMiB else was
  }

  function AttachRestoreResizePlan(attached: int, requested: int): (bool, nat) {
    if requested <= 0 || attached >= requested then (false, 0) else (true, BytesToMiBRoundUp(requested))
  }

  function Expand(v: Volume, size: int, reply: Reply): (Volume, Result<nat>) {
    var current := EffectiveSize(v);
    if size <= 0 || current.Err? || size < current.value then (v, Err)
    else if size == current.value then (v, Ok(size))
    else if v.attachedMiB.None? then (v, Err)
    else
      var enough := v.attachedMiB.value * MIB >= size;
      var disk := if enough then v.attachedMiB.value else Grown(v.attachedMiB.value, reply);
      var resized := v.(attachedMiB := Some(disk));
      if disk * MIB < size || !(enough || reply.observed) then (resized, Err)
      else (Persist(resized, size, reply.update), if reply.update.Verified? then Ok(disk * MIB) else Err)
  }

  /** How far an attach gets: refused, seen in time with this size, or there only after the driver gave up. */
  datatype Hotplug = Refused | Plugged(mib: nat) | Late(mib: nat)

  function Restore(v: Volume, reply: Reply): (Volume, bool)
    requires v.attachedMiB.Some?
  {
    var requested := RequestedSize(v);
    if requested.Err? then (v, false)
    else if requested.value == 0 then (v, !v.expanded)
    else if !AttachRestoreResizePlan(v.attachedMiB.value * MIB, requested.value).0 then (v, true)
    else
      var disk := Grown(v.attachedMiB.value, reply);
      (v.(attachedMiB := Some(disk)), disk * MIB >= requested.value && reply.observed)
  }

  function Attach(v: Volume, hotplug: Hotplug, reply: Reply): (Volume, bool) {
    var size := EffectiveSize(v);
    if size.Err? || size.value == 0 || hotplug.Refused? then (v, false)
    else if hotplug.Late? then (v.(attachedMiB := Some(hotplug.mib)), false)
    else Restore(v.(attachedMiB := Some(hotplug.mib)), reply)
  }

  /** The same sequences in place on one volume. */
  class PersistentDisk {
    var volume: Volume

    constructor (volume: Volume)
      ensures this.volume == volume
    {
      this.volume := volume;
    }

    method PersistRequestedSize(size: nat, update: Update) returns (persisted: bool)
      modifies this
      ensures volume == Persist(old(volume), size, update) && persisted == update.Verified?
    {
      if !update.NotApplied? {
        var mib := BytesToMiBRoundUp(size);
        volume := volume.(bytesTags := [Good(size)], mbTags := [Good(mib)], expanded := true);
      }
      persisted := update.Verified?;
    }

    method Resize(reply: Reply)
      requires volume.attachedMiB.Some?
      modifies this
      ensures volume == old(volume).(attachedMiB := Some(Grown(old(volume).attachedMiB.value, reply)))
    {
      if reply.grownMiB > volume.attachedMiB.value {
        volume := volume.(attachedMiB := Some(reply.grownMiB));
      }
    }

    method ExpandVolume(size: int, reply: Reply) returns (r: Result<nat>)
      modifies this
      ensures (volume, r) == Expand(old(volume), size, reply)
    {
      if size <= 0 {
        return Err;
      }
      var current := EffectiveSize(volume);
      if current.Err? || size < current.value {
        return Err;
      }
      if size == current.value {
        return Ok(size);
      }
      if volume.attachedMiB.None? {
        return Err;
      }
      if volume.attachedMiB.value * MIB < size {
        Resize(reply);
        if !reply.observed || volume.attachedMiB.value * MIB < size {
          return Err;
        }
      }
      var disk := volume.attachedMiB.value;
      var persisted := PersistRequestedSize(size, reply.update);
      return if persisted then Ok(disk * MIB) else Err;
    }

    method RestoreAttachedVolumeRequestedSize(reply: Reply) returns (ok: bool)
      requires volume.attachedMiB.Some?
      modifies this
      ensures (volume, ok) == Restore(old(volume), reply)
    {
      var requested := RequestedSizeFromTemplate(volume);
      if requested.Err? {
        return false;
      }
      if requested.value == 0 {
        return !volume.expanded;
      }
      var plan := AttachRestoreResizePlan(volume.attachedMiB.value * MIB, requested.value);
      if !plan.0 {
        return true;
      }
      Resize(reply);
      return reply.observed && volume.attachedMiB.value * MIB >= requested.value;
    }
  }

  datatype Op =
    | ExpandTo(size: int, reply: Reply)
    | AttachDisk(hotplug: Hotplug, reply: Reply)
    | DetachDisk
    | CanonicalGrows(mib: nat)

  ghost predicate Allowed(v: Volume, op: Op) {
    match op
    case AttachDisk(hotplug, _) => v.attachedMiB.None? && (!hotplug.Refused? ==> hotplug.mib >= v.canonicalMiB)
    case CanonicalGrows(mib) => mib >= v.canonicalMiB
    case _ => true
  }

  function Do(v: Volume, op: Op): Volume {
    match op
    case ExpandTo(size, reply) => Expand(v, size, reply).0
    case AttachDisk(hotplug, reply) => Attach(v, hotplug, reply).0
    case DetachDisk => v.(attachedMiB := None)
    case CanonicalGrows(mib) => v.(canonicalMiB := mib)
  }

  /** The volume after a run, or None when the run is not one the environment allows. */
  ghost function Run(v: Volume, ops: seq<Op>): Option<Volume> {
    if ops == [] then Some(v)
    else
      var before := Run(v, ops[..|ops| - 1]);
      if before.None? || !Allowed(before.value, ops[|ops| - 1]) then None
      else Some(Do(before.value, ops[|ops| - 1]))
  }

  // ---- Expansion survives -------------------------------------------------------------------

  /** Whatever succeeds or fails, no operation lowers the effective size. */
  lemma EffectiveNeverShrinks(v: Volume, op: Op)
    requires Allowed(v, op) && EffectiveSize(v).Ok?
    ensures EffectiveSize(Do(v, op)).Ok? && EffectiveSize(Do(v, op)).value >= EffectiveSize(v).value
  {
    if op.ExpandTo? && op.size > 0 {
      assert LargestGood([Good(op.size)]) == op.size;
    }
  }

  /** A successful expansion makes exactly the requested size effective. */
  lemma ExpandTakesEffect(v: Volume, size: int, reply: Reply)
    requires Expand(v, size, reply).1.Ok?
    ensures EffectiveSize(Expand(v, size, reply).0) == Ok(size)
    ensures Expand(v, size, reply).1.value >= size
  {
    assert LargestGood([Good(size)]) == size;
  }

  /** A successful attach ends with a disk of at least the effective size. */
  lemma AttachRestores(v: Volume, hotplug: Hotplug, reply: Reply)
    requires Allowed(v, AttachDisk(hotplug, reply)) && Attach(v, hotplug, reply).1
    ensures EffectiveSize(v).Ok? && Attach(v, hotplug, reply).0.attachedMiB.Some?
    ensures Attach(v, hotplug, reply).0.attachedMiB.value * MIB >= EffectiveSize(v).value
  {
  }

  lemma {:induction false} EffectiveNeverShrinksOverRuns(v: Volume, ops: seq<Op>)
    requires Run(v, ops).Some? && EffectiveSize(v).Ok?
    ensures EffectiveSize(Run(v, ops).value).Ok?
    ensures EffectiveSize(Run(v, ops).value).value >= EffectiveSize(v).value
  {
    if ops != [] {
      EffectiveNeverShrinksOverRuns(v, ops[..|ops| - 1]);
      EffectiveNeverShrinks(Run(v, ops[..|ops| - 1]).value, ops[|ops| - 1]);
    }
  }

  /** After a successful expansion to S, every later successful attach ends with a disk of at least S. */
  lemma ExpansionSurvivesReattach(v: Volume, size: int, reply: Reply, ops: seq<Op>, hotplug: Hotplug, again: Reply)
    requires Expand(v, size, reply).1.Ok?
    requires Run(Expand(v, size, reply).0, ops).Some?
    requires var w := Run(Expand(v, size, reply).0, ops).value;
             Allowed(w, AttachDisk(hotplug, again)) && Attach(w, hotplug, again).1
    ensures var w := Run(Expand(v, size, reply).0, ops).value;
            Attach(w, hotplug, again).0.attachedMiB.Some? && Attach(w, hotplug, again).0.attachedMiB.value * MIB >= size
  {
    ExpandTakesEffect(v, size, reply);
    EffectiveNeverShrinksOverRuns(Expand(v, size, reply).0, ops);
    AttachRestores(Run(Expand(v, size, reply).0, ops).value, hotplug, again);
  }

  // ---- Where it does not hold ---------------------------------------------------------------

  /**
  A successful expansion leaves an attached disk smaller than S exactly when S was already the
  effective size and the disk was already smaller: that request succeeds without touching the disk.
  */
  lemma ExpandedDiskIsBigEnoughIff(v: Volume, size: int, reply: Reply)
    requires Expand(v, size, reply).1.Ok? && v.attachedMiB.Some?
    ensures Expand(v, size, reply).0.attachedMiB.Some?
    ensures Expand(v, size, reply).0.attachedMiB.value * MIB >= size
       <==> !(EffectiveSize(v) == Ok(size) && v.attachedMiB.value * MIB < size)
  {
  }

  /** `ControllerPublishVolume` on one node: an attached disk is reported as success as it is. */
  function Publish(v: Volume, hotplug: Hotplug, reply: Reply): (Volume, bool) {
    if v.attachedMiB.Some? then (v, true) else Attach(v, hotplug, reply)
  }

  /** A successful publish gives the full size exactly when it did not find a smaller disk attached. */
  lemma PublishedDiskIsBigEnoughIff(v: Volume, hotplug: Hotplug, reply: Reply)
    requires EffectiveSize(v).Ok? && Publish(v, hotplug, reply).1
    requires v.attachedMiB.None? ==> Allowed(v, AttachDisk(hotplug, reply))
    ensures Publish(v, hotplug, reply).0.attachedMiB.Some?
    ensures Publish(v, hotplug, reply).0.attachedMiB.value * MIB >= EffectiveSize(v).value
       <==> !(v.attachedMiB.Some? && v.attachedMiB.value * MIB < EffectiveSize(v).value)
  {
    if v.attachedMiB.None? {
      AttachRestores(v, hotplug, reply);
    }
  }

  /**
  That happens: when the restoring resize of an attach fails, the publish fails and its retry
  succeeds with the small disk.
  */
  lemma RetryAfterFailedRestore(v: Volume, small: nat, reply: Reply)
    requires EffectiveSize(v).Ok? && v.attachedMiB.None? && v.canonicalMiB <= small
    requires small * MIB < EffectiveSize(v).value && reply.grownMiB <= small
    ensures var first := Publish(v, Plugged(small), reply);
            && !first.1
            && Publish(first.0, Plugged(small), reply) == (first.0, true)
            && first.0.attachedMiB == Some(small)
  {
  }
}
