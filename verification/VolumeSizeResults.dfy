/**
Exactly when the size operations succeed, told by their inputs, and what they leave alone. The
effective size itself is told by the template's tags.
*/
module VolumeSizeResults {
  import opened Basics
  import opened VolumeSize

  // ---- The size a template asks for ---------------------------------------------------------

  /** The largest usable value of a tag is n. */
  predicate Largest(tags: seq<Tag>, n: nat) {
    n > 0 && Good(n) in tags && forall t | t in tags && t.Good? :: t.n <= n
  }

  predicate NoneUsable(tags: seq<Tag>) {
    forall t | t in tags :: t.Good? ==> t.n == 0
  }

  lemma {:induction false} LargestGoodIs(tags: seq<Tag>)
    ensures if LargestGood(tags) == 0 then NoneUsable(tags) else Largest(tags, LargestGood(tags))
  {
    if tags != [] {
      var init, last := tags[..|tags| - 1], tags[|tags| - 1];
      LargestGoodIs(init);
      assert tags == init + [last];
      assert forall t :: t in tags <==> t in init || t == last;
    }
  }

  lemma LargestIsUnique(tags: seq<Tag>, n: nat, m: nat)
    requires Largest(tags, n) && Largest(tags, m)
    ensures n == m
  {
    assert Good(n) in tags && Good(m) in tags;
  }

  /** The largest byte tag decides, then the largest MiB tag; broken values alone are an error. */
  lemma RequestedSizeIs(v: Volume, n: nat)
    ensures RequestedSize(v) == Ok(n) && n > 0 <==>
            || Largest(v.bytesTags, n)
            || (NoneUsable(v.bytesTags) && n % MIB == 0 && Largest(v.mbTags, n / MIB))
    ensures RequestedSize(v) == Ok(0) <==>
            forall t | t in v.bytesTags || t in v.mbTags :: t.Blank?
    ensures RequestedSize(v).Err? <==>
            && NoneUsable(v.bytesTags) && NoneUsable(v.mbTags)
            && exists t | t in v.bytesTags || t in v.mbTags :: !t.Blank?
  {
    LargestGoodIs(v.bytesTags);
    LargestGoodIs(v.mbTags);
    if Largest(v.bytesTags, n) {
      LargestIsUnique(v.bytesTags, n, LargestGood(v.bytesTags));
    } else if Largest(v.mbTags, n / MIB) {
      LargestIsUnique(v.mbTags, n / MIB, LargestGood(v.mbTags));
    }
  }

  /** The effective size is the larger of image and template size; a marker without a size is an error. */
  lemma EffectiveSizeIs(v: Volume)
    ensures EffectiveSize(v).Err? <==> RequestedSize(v).Err? || (RequestedSize(v) == Ok(0) && v.expanded)
    ensures EffectiveSize(v).Ok? ==>
              && RequestedSize(v).Ok?
              && EffectiveSize(v).value >= v.canonicalMiB * MIB && EffectiveSize(v).value >= RequestedSize(v).value
              && (EffectiveSize(v).value == v.canonicalMiB * MIB || EffectiveSize(v).value == RequestedSize(v).value)
  {
  }

  /** Should the byte tag get lost, the MiB tag written with it still asks for the size, rounded up to a MiB. */
  lemma EitherTagSurvives(v: Volume, size: nat, update: Update)
    requires size > 0 && !update.NotApplied?
    ensures RequestedSize(Persist(v, size, update)) == Ok(size)
    ensures var lost := RequestedSize(Persist(v, size, update).(bytesTags := []));
            lost.Ok? && size <= lost.value < size + MIB
  {
    var mib := BytesToMiBRoundUp(size);
    assert LargestGood([Good(size)]) == size;
    assert LargestGood([Good(mib)]) == mib;
  }

  // ---- When the operations succeed ----------------------------------------------------------

  /** The attached disk has this size, or a resize brought it there and the driver saw that. */
  predicate Reaches(v: Volume, size: nat, reply: Reply) {
    v.attachedMiB.Some? && (v.attachedMiB.value * MIB >= size || (reply.observed && reply.grownMiB * MIB >= size))
  }

  /**
  An expansion succeeds exactly when it asks for a positive size, at least a readable current one,
  and either for just that, or the attached disk reaches it and the new size is recorded.
  */
  lemma ExpandSucceedsIff(v: Volume, size: int, reply: Reply)
    ensures Expand(v, size, reply).1.Ok? <==>
            && size > 0 && EffectiveSize(v).Ok? && EffectiveSize(v).value <= size
            && (EffectiveSize(v).value == size || (Reaches(v, size, reply) && reply.update.Verified?))
  {
  }

  /**
  What an expansion does, successful or not: it resizes only an attached disk that is too small for
  a larger size, and it records the size only once the disk is known to have it.
  */
  lemma ExpandLeaves(v: Volume, size: int, reply: Reply)
    ensures var after := Expand(v, size, reply).0;
            var larger := size > 0 && EffectiveSize(v).Ok? && EffectiveSize(v).value < size;
            && after.canonicalMiB == v.canonicalMiB
            && (after.attachedMiB != v.attachedMiB ==>
                  && larger && v.attachedMiB.Some? && v.attachedMiB.value * MIB < size
                  && after.attachedMiB == Some(reply.grownMiB) && reply.grownMiB > v.attachedMiB.value)
            && (if larger && Reaches(v, size, reply) && !reply.update.NotApplied?
                then RequestedSize(after) == Ok(size) && after.expanded
                else after == v.(attachedMiB := after.attachedMiB))
  {
    if size > 0 {
      assert LargestGood([Good(size)]) == size;
    }
  }

  /** The size a successful expansion reports is the one the disk has, and that is large enough. */
  lemma ExpandReports(v: Volume, size: int, reply: Reply)
    requires Expand(v, size, reply).1.Ok? && EffectiveSize(v) != Ok(size)
    ensures var after := Expand(v, size, reply);
            after.0.attachedMiB.Some? && after.1.value == after.0.attachedMiB.value * MIB && after.1.value >= size
  {
  }

  /** A resize is planned exactly for a disk smaller than asked for, to the least MiB count that covers it. */
  lemma ResizePlanIs(attached: int, requested: int)
    ensures var plan := AttachRestoreResizePlan(attached, requested);
            && (plan.0 <==> 0 < requested && attached < requested)
            && (plan.0 ==> (plan.1 - 1) * MIB < requested <= plan.1 * MIB)
  {
  }

  /** A restore succeeds exactly when the disk reaches the size the template asks for, or it asks for none. */
  lemma RestoreSucceedsIff(v: Volume, reply: Reply)
    requires v.attachedMiB.Some?
    ensures Restore(v, reply).1 <==>
            && RequestedSize(v).Ok? && (RequestedSize(v).value == 0 ==> !v.expanded)
            && Reaches(v, RequestedSize(v).value, reply)
    ensures var after := Restore(v, reply).0;
            && after == v.(attachedMiB := after.attachedMiB) && after.attachedMiB.Some?
            && (after.attachedMiB != v.attachedMiB ==>
                  && RequestedSize(v).Ok? && v.attachedMiB.value * MIB < RequestedSize(v).value
                  && after.attachedMiB == Some(reply.grownMiB) && reply.grownMiB > v.attachedMiB.value)
  {
  }

  /**
  An attach succeeds exactly when the size is readable and not zero, the disk was seen in time, and
  the disk reaches the size the template asks for. It leaves a disk attached exactly when OpenNebula
  took the command.
  */
  lemma AttachSucceedsIff(v: Volume, hotplug: Hotplug, reply: Reply)
    ensures Attach(v, hotplug, reply).1 <==>
            && EffectiveSize(v).Ok? && EffectiveSize(v).value > 0 && hotplug.Plugged?
            && Reaches(v.(attachedMiB := Some(hotplug.mib)), RequestedSize(v).value, reply)
    ensures v.attachedMiB.None? ==>
              (Attach(v, hotplug, reply).0.attachedMiB.Some? <==>
               EffectiveSize(v).Ok? && EffectiveSize(v).value > 0 && !hotplug.Refused?)
    ensures Attach(v, hotplug, reply).0 == v.(attachedMiB := Attach(v, hotplug, reply).0.attachedMiB)
  {
  }
}
