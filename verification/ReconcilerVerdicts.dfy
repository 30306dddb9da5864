/** The verdicts of the attachment reconciler, told by what the snapshot lists. */
module ReconcilerVerdicts {
  import opened Basics
  import opened Text
  import opened ReconcilerSnapshot

  // ---- Which volume is meant ----------------------------------------------------------------

  ghost predicate LastNamed(pvs: seq<PersistentVolume>, name: string, i: nat) {
    i < |pvs| && pvs[i].name == name && forall j | i < j < |pvs| :: pvs[j].name != name
  }

  ghost predicate LastWithHandle(pvs: seq<PersistentVolume>, handle: string, i: nat) {
    i < |pvs| && pvs[i].handle == Some(handle) && forall j | i < j < |pvs| :: pvs[j].handle != Some(handle)
  }

  /** Of several volumes with one name the last one listed counts. */
  lemma {:induction false} NamedIs(pvs: seq<PersistentVolume>, name: string)
    ensures Named(pvs, name).None? ==> forall pv | pv in pvs :: pv.name != name
    ensures Named(pvs, name).Some? ==> exists i: nat :: LastNamed(pvs, name, i) && Named(pvs, name) == Some(pvs[i])
  {
    if pvs != [] {
      var init, last := pvs[..|pvs| - 1], |pvs| - 1;
      if pvs[last].name == name {
        assert LastNamed(pvs, name, last);
      } else {
        NamedIs(init, name);
        if i: nat :| LastNamed(init, name, i) && Named(init, name) == Some(init[i]) {
          assert LastNamed(pvs, name, i);
        }
      }
    }
  }

  /** And of several with one handle. */
  lemma {:induction false} WithHandleIs(pvs: seq<PersistentVolume>, handle: string)
    ensures WithHandle(pvs, handle).None? ==> forall pv | pv in pvs :: pv.handle != Some(handle)
    ensures WithHandle(pvs, handle).Some? ==>
              exists i: nat :: LastWithHandle(pvs, handle, i) && WithHandle(pvs, handle) == Some(pvs[i])
  {
    if pvs != [] {
      var init, last := pvs[..|pvs| - 1], |pvs| - 1;
      if pvs[last].handle == Some(handle) {
        assert LastWithHandle(pvs, handle, last);
      } else {
        WithHandleIs(init, handle);
        if i: nat :| LastWithHandle(init, handle, i) && WithHandle(init, handle) == Some(init[i]) {
          assert LastWithHandle(pvs, handle, i);
        }
      }
    }
  }

  /** The VolumeAttachment names a listed volume with this handle. */
  ghost predicate IsFor(snap: Snapshot, va: VolumeAttachment, handle: string) {
    va.pvName.Some? && exists i: nat :: LastNamed(snap.pvs, va.pvName.value, i) && snap.pvs[i].handle == Some(handle)
  }

  lemma VolumeOfIs(snap: Snapshot, va: VolumeAttachment, handle: string)
    ensures VolumeOf(snap.pvs, va) == Some(handle) <==> IsFor(snap, va, handle)
  {
    if va.pvName.Some? {
      NamedIs(snap.pvs, va.pvName.value);
    }
  }

  // ---- Which claims are in use --------------------------------------------------------------

  /** A live pod of the claim's namespace mounts it. */
  predicate Mounts(pod: Pod, claim: ClaimRef) {
    !pod.finished && pod.namespace == claim.namespace && claim.name in pod.claims
  }

  lemma SplitAtSlash(a: string, x: string, b: string, y: string)
    requires '/' !in a && '/' !in b && a + "/" + x == b + "/" + y
    ensures a == b && x == y
  {
    var whole := a + "/" + x;
    assert whole[|a|] == '/' && whole[|b|] == '/';
    assert forall i | 0 <= i < |a| :: whole[i] == a[i];
    assert forall i | 0 <= i < |b| :: whole[i] == b[i];
    assert a == whole[..|a|] && b == whole[..|b|];
    assert x == whole[|a| + 1..] && y == whole[|b| + 1..];
  }

  /** With namespaces as Kubernetes allows them, a volume is in use exactly when a live pod mounts its claim. */
  lemma ActivePodIff(snap: Snapshot, pv: PersistentVolume)
    requires pv.claim.Some? ==> '/' !in pv.claim.value.namespace
    requires forall pod | pod in snap.pods :: '/' !in pod.namespace
    ensures ActivePod(snap, pv) <==>
            && pv.claim.Some? && Trim(pv.claim.value.namespace) != "" && Trim(pv.claim.value.name) != ""
            && exists pod | pod in snap.pods :: Mounts(pod, pv.claim.value)
  {
    if ActivePod(snap, pv) {
      var pod :| pod in snap.pods && PodUses(pod, ClaimKey(pv));
      var name :| name in pod.claims && pod.namespace + "/" + name == ClaimKey(pv);
      SplitAtSlash(pod.namespace, name, pv.claim.value.namespace, pv.claim.value.name);
      assert Mounts(pod, pv.claim.value);
    }
    if pv.claim.Some? && Trim(pv.claim.value.namespace) != "" && Trim(pv.claim.value.name) != "" {
      if pod :| pod in snap.pods && Mounts(pod, pv.claim.value) {
        assert PodUses(pod, ClaimKey(pv));
      }
    }
  }

  // ---- The verdicts -------------------------------------------------------------------------

  /** A VolumeAttachment says that this volume is attached to this node. */
  ghost predicate SaysAttached(snap: Snapshot, a: Attachment) {
    exists va | va in snap.vas :: IsFor(snap, va, a.volume) && va.attached && Trim(va.node) == Trim(a.node)
  }

  /** The driver knows the volume and nothing says to keep out, but nothing wants it on that node either. */
  ghost predicate Unwanted(snap: Snapshot, a: Attachment) {
    && a.volume !in snap.skipped && !SaysAttached(snap, a)
    && WithHandle(snap.pvs, a.volume).Some? && !ActivePod(snap, WithHandle(snap.pvs, a.volume).value)
  }

  lemma AnnouncedIff(snap: Snapshot, a: Attachment)
    ensures Announced(snap, a) <==> SaysAttached(snap, a)
  {
    forall va | va in snap.vas
      ensures Announces(snap.pvs, va, a) <==>
              IsFor(snap, va, a.volume) && va.attached && Trim(va.node) == Trim(a.node)
    {
      VolumeOfIs(snap, va, a.volume);
    }
  }

  /** An unwanted attachment is divergent when a VolumeAttachment is about its volume, and an orphan otherwise. */
  lemma VerdictIff(snap: Snapshot, a: Attachment)
    ensures Judge(snap, a) == Keep <==> !Unwanted(snap, a)
    ensures Judge(snap, a) == Divergent <==>
            Unwanted(snap, a) && exists va | va in snap.vas :: IsFor(snap, va, a.volume)
    ensures Judge(snap, a) == Orphan <==>
            Unwanted(snap, a) && forall va | va in snap.vas :: !IsFor(snap, va, a.volume)
  {
    AnnouncedIff(snap, a);
    forall va | va in snap.vas
      ensures VolumeOf(snap.pvs, va) == Some(a.volume) <==> IsFor(snap, va, a.volume)
    {
      VolumeOfIs(snap, va, a.volume);
    }
  }

  /** A VolumeAttachment is stale when it says attached and OpenNebula shows no disk under its volume and node. */
  lemma StaleIff(snap: Snapshot, va: VolumeAttachment)
    ensures Stale(snap, va) <==>
            && va.attached && va.name !in snap.skippedVAs
            && exists handle :: IsFor(snap, va, handle)
                 && forall a | a in snap.attachments :: a.volume + "@" + a.node != handle + "@" + va.node
  {
    forall handle
      ensures VolumeOf(snap.pvs, va) == Some(handle) <==> IsFor(snap, va, handle)
    {
      VolumeOfIs(snap, va, handle);
    }
  }
}
