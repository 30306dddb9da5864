/** What one pass of the attachment reconciler reads, what it concludes from it, and the indexes it builds. */
module ReconcilerSnapshot {
  import opened Basics
  import opened Text

  datatype Attachment = Attachment(volume: string, node: string)
  datatype ClaimRef = ClaimRef(namespace: string, name: string)
  datatype PersistentVolume = PersistentVolume(name: string, handle: Option<string>, claim: Option<ClaimRef>)
  datatype VolumeAttachment = VolumeAttachment(name: string, pvName: Option<string>, node: string, attached: bool)

  /** `finished`: being deleted, succeeded or failed. */
  datatype Pod = Pod(namespace: string, finished: bool, claims: seq<string>)

  /**
  What one pass reads. `skipped` and `skippedVAs` are the volumes, and later the VolumeAttachments,
  for which the sticky table or the hotplug queue said to keep out.
  */
  datatype Snapshot = Snapshot(
    attachments: seq<Attachment>, vas: seq<VolumeAttachment>, pvs: seq<PersistentVolume>, pods: seq<Pod>,
    skipped: set<string>, skippedVAs: set<string>)

  function Key(a: Attachment): string {
    a.volume + "@" + a.node
  }

  function ClaimKey(pv: PersistentVolume): string {
    if pv.claim.None? || Trim(pv.claim.value.namespace) == "" || Trim(pv.claim.value.name) == "" then ""
    else pv.claim.value.namespace + "/" + pv.claim.value.name
  }

  // ---- What a snapshot says -----------------------------------------------------------------

  /** The last listed volume with this handle. */
  function WithHandle(pvs: seq<PersistentVolume>, handle: string): Option<PersistentVolume> {
    if pvs == [] then None
    else if pvs[|pvs| - 1].handle == Some(handle) then Some(pvs[|pvs| - 1])
    else WithHandle(pvs[..|pvs| - 1], handle)
  }

  function Named(pvs: seq<PersistentVolume>, name: string): Option<PersistentVolume> {
    if pvs == [] then None
    else if pvs[|pvs| - 1].name == name then Some(pvs[|pvs| - 1])
    else Named(pvs[..|pvs| - 1], name)
  }

  predicate PodUses(pod: Pod, key: string) {
    !pod.finished && exists claim | claim in pod.claims :: pod.namespace + "/" + claim == key
  }

  predicate ClaimInUse(pods: seq<Pod>, key: string) {
    exists pod | pod in pods :: PodUses(pod, key)
  }

  predicate ActivePod(snap: Snapshot, pv: PersistentVolume) {
    ClaimKey(pv) != "" && ClaimInUse(snap.pods, ClaimKey(pv))
  }

  /** The volume a VolumeAttachment is about. */
  function VolumeOf(pvs: seq<PersistentVolume>, va: VolumeAttachment): Option<string> {
    if va.pvName.None? then None
    else
      var pv := Named(pvs, va.pvName.value);
      if pv.None? then None else pv.value.handle
  }

  predicate Announces(pvs: seq<PersistentVolume>, va: VolumeAttachment, a: Attachment) {
    VolumeOf(pvs, va) == Some(a.volume) && Trim(va.node) == Trim(a.node) && va.attached
  }

  predicate Announced(snap: Snapshot, a: Attachment) {
    exists va | va in snap.vas :: Announces(snap.pvs, va, a)
  }

  predicate HasVolumeAttachment(snap: Snapshot, volume: string) {
    exists va | va in snap.vas :: VolumeOf(snap.pvs, va) == Some(volume)
  }

  datatype Verdict = Keep | Orphan | Divergent

  function Judge(snap: Snapshot, a: Attachment): Verdict {
    var pv := WithHandle(snap.pvs, a.volume);
    if pv.None? || a.volume in snap.skipped || Announced(snap, a) || ActivePod(snap, pv.value) then Keep
    else if HasVolumeAttachment(snap, a.volume) then Divergent
    else Orphan
  }

  predicate Observed(snap: Snapshot, key: string) {
    exists a | a in snap.attachments :: Key(a) == key
  }

  predicate Stale(snap: Snapshot, va: VolumeAttachment) {
    var volume := VolumeOf(snap.pvs, va);
    && va.attached && volume.Some? && va.name !in snap.skippedVAs
    && !Observed(snap, Key(Attachment(volume.value, va.node)))
  }

  function Judged(snap: Snapshot, verdict: Verdict): set<Attachment> {
    set a | a in snap.attachments && Judge(snap, a) == verdict
  }

  function StaleOnes(snap: Snapshot): set<VolumeAttachment> {
    set va | va in snap.vas && Stale(snap, va)
  }

  // ---- Indexes ------------------------------------------------------------------------------

  method IndexVolumes(pvs: seq<PersistentVolume>)
    returns (byName: map<string, PersistentVolume>, byHandle: map<string, PersistentVolume>)
    ensures forall n :: Named(pvs, n) == if n in byName then Some(byName[n]) else None
    ensures forall h :: WithHandle(pvs, h) == if h in byHandle then Some(byHandle[h]) else None
  {
    byName, byHandle := map[], map[];
    for i := 0 to |pvs|
      invariant forall n :: Named(pvs[..i], n) == if n in byName then Some(byName[n]) else None
      invariant forall h :: WithHandle(pvs[..i], h) == if h in byHandle then Some(byHandle[h]) else None
    {
      assert pvs[..i + 1][..i] == pvs[..i];
      byName := byName[pvs[i].name := pvs[i]];
      if pvs[i].handle.Some? {
        byHandle := byHandle[pvs[i].handle.value := pvs[i]];
      }
    }
    assert pvs[..|pvs|] == pvs;
  }

  method ClaimsOf(pod: Pod) returns (keys: set<string>)
    ensures forall k :: k in keys <==> PodUses(pod, k)
  {
    keys := {};
    if pod.finished {
      return;
    }
    for j := 0 to |pod.claims|
      invariant forall k :: k in keys <==> exists claim | claim in pod.claims[..j] :: pod.namespace + "/" + claim == k
    {
      keys := keys + {pod.namespace + "/" + pod.claims[j]};
    }
  }

  method ActiveClaims(pods: seq<Pod>) returns (users: set<string>)
    ensures forall k :: k in users <==> ClaimInUse(pods, k)
  {
    users := {};
    for i := 0 to |pods|
      invariant forall k :: k in users <==> ClaimInUse(pods[..i], k)
    {
      var keys := ClaimsOf(pods[i]);
      users := users + keys;
      assert pods[..i + 1] == pods[..i] + [pods[i]];
    }
    assert pods[..|pods|] == pods;
  }

  predicate Groups(byVolume: map<string, seq<Attachment>>, attachments: seq<Attachment>) {
    && (forall v, a | v in byVolume && a in byVolume[v] :: a in attachments && a.volume == v)
    && (forall a | a in attachments :: a.volume in byVolume && a in byVolume[a.volume])
  }

  method GroupAttachments(attachments: seq<Attachment>)
    returns (byVolume: map<string, seq<Attachment>>, keys: set<string>)
    ensures Groups(byVolume, attachments)
    ensures forall k :: k in keys <==> exists a | a in attachments :: Key(a) == k
  {
    byVolume, keys := map[], {};
    for i := 0 to |attachments|
      invariant Groups(byVolume, attachments[..i])
      invariant forall k :: k in keys <==> exists a | a in attachments[..i] :: Key(a) == k
    {
      var a := attachments[i];
      assert attachments[..i + 1] == attachments[..i] + [a];
      byVolume := byVolume[a.volume := (if a.volume in byVolume then byVolume[a.volume] else []) + [a]];
      keys := keys + {Key(a)};
    }
    assert attachments[..|attachments|] == attachments;
  }

  predicate GroupsVAs(byVolume: map<string, seq<VolumeAttachment>>, vas: seq<VolumeAttachment>,
                      pvs: seq<PersistentVolume>) {
    && (forall v, va | v in byVolume && va in byVolume[v] :: va in vas && VolumeOf(pvs, va) == Some(v))
    && (forall va | va in vas && VolumeOf(pvs, va).Some? ::
          VolumeOf(pvs, va).value in byVolume && va in byVolume[VolumeOf(pvs, va).value])
    && (forall v | v in byVolume :: byVolume[v] != [])
  }

  method GroupVolumeAttachments(vas: seq<VolumeAttachment>, byName: map<string, PersistentVolume>,
                                ghost pvs: seq<PersistentVolume>)
    returns (byVolume: map<string, seq<VolumeAttachment>>)
    requires forall n :: Named(pvs, n) == if n in byName then Some(byName[n]) else None
    ensures GroupsVAs(byVolume, vas, pvs)
  {
    byVolume := map[];
    for i := 0 to |vas|
      invariant GroupsVAs(byVolume, vas[..i], pvs)
    {
      var va := vas[i];
      assert vas[..i + 1] == vas[..i] + [va];
      if va.pvName.Some? && va.pvName.value in byName && byName[va.pvName.value].handle.Some? {
        var v := byName[va.pvName.value].handle.value;
        byVolume := byVolume[v := (if v in byVolume then byVolume[v] else []) + [va]];
      }
    }
    assert vas[..|vas|] == vas;
  }
}
