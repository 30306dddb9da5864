/** What OpenNebula reports about a volume's owners, and the guard that refuses to attach over them. */
module MetadataDrift {
  import opened Text

  /** A disk record is reduced to the VM it belongs to. */
  datatype Metadata = Metadata(imageState: string, imageRunningVMs: int, imageVMIDs: seq<int>,
                               requestedNodeID: int, attachedToRequestedNode: bool, diskVMIDs: seq<int>)

  /** An owner the publish to `requested` would collide with. */
  predicate Conflicts(requested: int, vm: int) {
    vm > 0 && !(requested > 0 && vm == requested)
  }

  predicate StrictlyIncreasing(ids: seq<int>) {
    forall i, j | 0 <= i < j < |ids| :: ids[i] < ids[j]
  }

  function InsertId(ids: seq<int>, id: int): seq<int> {
    if ids == [] || id < ids[0] then [id] + ids else [ids[0]] + InsertId(ids[1..], id)
  }

  lemma {:induction false} InsertIdMembers(ids: seq<int>, id: int)
    ensures forall k :: k in InsertId(ids, id) <==> k == id || k in ids
  {
    if ids != [] && id >= ids[0] {
      InsertIdMembers(ids[1..], id);
    }
  }

  lemma {:induction false} InsertIdIncreasing(ids: seq<int>, id: int)
    requires StrictlyIncreasing(ids) && id !in ids
    ensures StrictlyIncreasing(InsertId(ids, id))
  {
    if ids != [] && id >= ids[0] {
      InsertIdIncreasing(ids[1..], id);
      InsertIdMembers(ids[1..], id);
      var rest := InsertId(ids[1..], id);
      forall i | 0 <= i < |rest|
        ensures ids[0] < rest[i]
      {
        assert rest[i] in rest;
      }
    }
  }

  lemma HasMember(s: set<int>)
    ensures s == {} || exists x :: x in s
  {
    if forall x :: x !in s {
      assert s == {};
    }
  }

  /** The conflicting owners, without repetition and in increasing order. */
  method ConflictingOwnerVMIDs(m: Metadata) returns (ids: seq<int>)
    ensures StrictlyIncreasing(ids)
    ensures forall vm :: vm in ids <==> (vm in m.imageVMIDs || vm in m.diskVMIDs) && Conflicts(m.requestedNodeID, vm)
  {
    var seen: set<int> := {};
    for i := 0 to |m.imageVMIDs|
      invariant forall vm :: vm in seen <==> vm in m.imageVMIDs[..i] && Conflicts(m.requestedNodeID, vm)
    {
      if Conflicts(m.requestedNodeID, m.imageVMIDs[i]) {
        seen := seen + {m.imageVMIDs[i]};
      }
    }
    assert m.imageVMIDs[..|m.imageVMIDs|] == m.imageVMIDs;
    for i := 0 to |m.diskVMIDs|
      invariant forall vm :: vm in seen <==>
        (vm in m.imageVMIDs || vm in m.diskVMIDs[..i]) && Conflicts(m.requestedNodeID, vm)
    {
      if Conflicts(m.requestedNodeID, m.diskVMIDs[i]) {
        seen := seen + {m.diskVMIDs[i]};
      }
    }
    assert m.diskVMIDs[..|m.diskVMIDs|] == m.diskVMIDs;
    ids := [];
    var left := seen;
    while left != {}
      invariant StrictlyIncreasing(ids)
      invariant forall vm :: vm in seen <==> vm in left || vm in ids
      invariant forall vm | vm in ids :: vm !in left
      decreases |left|
    {
      HasMember(left);
      var vm :| vm in left;
      InsertIdMembers(ids, vm);
      InsertIdIncreasing(ids, vm);
      ids, left := InsertId(ids, vm), left - {vm};
    }
  }

  predicate ImageInUse(raw: string) {
    var state := Upper(Trim(raw));
    state == "USED" || state == "USED_PERS" || state == "LOCKED_USED" || state == "LOCKED_USED_PERS"
  }

  predicate HasConflict(m: Metadata) {
    || (exists vm | vm in m.imageVMIDs :: Conflicts(m.requestedNodeID, vm))
    || (exists vm | vm in m.diskVMIDs :: Conflicts(m.requestedNodeID, vm))
  }

  predicate DriftDetected(m: Metadata) {
    HasConflict(m) || (!m.attachedToRequestedNode && m.imageRunningVMs > 0 && ImageInUse(m.imageState))
  }

  method AttachmentMetadataDriftDetected(m: Metadata) returns (detected: bool)
    ensures detected == DriftDetected(m)
  {
    var owners := ConflictingOwnerVMIDs(m);
    if |owners| > 0 {
      assert owners[0] in owners;
      return true;
    }
    if m.attachedToRequestedNode {
      return false;
    }
    return m.imageRunningVMs > 0 && ImageInUse(m.imageState);
  }

  /** What the guard was told when it asked about the volume. */
  datatype Inspection = Found(metadata: Metadata) | Failed(quarantined: bool)

  datatype GuardConfig = GuardConfig(enabled: bool, eligible: bool)

  /** `rejectIfOpenNebulaMetadataDrift`: true lets the attach go ahead. */
  predicate GuardPasses(cfg: GuardConfig, inspection: Inspection) {
    if !cfg.enabled || !cfg.eligible then true
    else match inspection
      case Found(m) => !DriftDetected(m)
      case Failed(quarantined) => !quarantined
  }

  /** The inspection reports exactly the VMs that have the volume. */
  ghost predicate Truthful(m: Metadata, owners: set<int>, requested: int) {
    && m.requestedNodeID == requested
    && (forall vm :: vm in m.diskVMIDs <==> vm in owners)
    && (m.attachedToRequestedNode <==> requested > 0 && requested in owners)
  }

  /**
  A guard that is on and was told the truth lets a publish through exactly when every owner is the
  requested VM or a VM without a positive id, the image names no other positive owner, and the
  image is not in use while the requested VM lacks it.
  */
  lemma GuardPassesIff(cfg: GuardConfig, m: Metadata, owners: set<int>, requested: int)
    requires cfg.enabled && cfg.eligible && Truthful(m, owners, requested)
    ensures GuardPasses(cfg, Found(m)) <==>
            && (forall vm | vm in owners :: vm <= 0 || vm == requested)
            && (forall vm | vm in m.imageVMIDs :: vm <= 0 || vm == requested)
            && ((requested > 0 && requested in owners) || m.imageRunningVMs <= 0 || !ImageInUse(m.imageState))
  {
    assert (forall vm | vm in owners :: vm <= 0 || vm == requested)
      <==> !exists vm | vm in m.diskVMIDs :: Conflicts(m.requestedNodeID, vm);
    assert (forall vm | vm in m.imageVMIDs :: vm <= 0 || vm == requested)
      <==> !exists vm | vm in m.imageVMIDs :: Conflicts(m.requestedNodeID, vm);
  }

  /** A guard that is off lets everything through, and one that learns nothing whatever is not in quarantine. */
  lemma GuardWithoutFacts(cfg: GuardConfig, inspection: Inspection)
    requires !cfg.enabled || !cfg.eligible || inspection.Failed?
    ensures GuardPasses(cfg, inspection) <==>
            !(cfg.enabled && cfg.eligible && inspection == Failed(true))
  {
  }

  /** What a state means does not depend on blanks around it. */
  lemma StateIgnoresBlanks(left: string, state: string, right: string)
    requires AllSpace(left) && AllSpace(right) && Trim(state) == state
    ensures ImageInUse(left + state + right) <==> ImageInUse(state)
  {
    TrimIs(left, state, right);
  }

  predicate IsWord(s: string) {
    s != "" && forall i | 0 <= i < |s| :: 'A' <= s[i] <= 'Z' || 'a' <= s[i] <= 'z' || s[i] == '_'
  }

  lemma WordIsTrimmed(s: string)
    requires IsWord(s)
    ensures Trim(s) == s
  {
    assert !IsSpace(s[0]) && !IsSpace(s[|s| - 1]);
  }

  lemma UpperIsWord(s: string)
    requires IsWord(s)
    ensures IsWord(Upper(s)) && Upper(Upper(s)) == Upper(s)
  {
  }

  /** Of all state names exactly these four mean that a VM has the image, in capitals or not. */
  lemma InUseStates(state: string)
    requires IsWord(state)
    ensures ImageInUse(Upper(state)) <==> ImageInUse(state)
    ensures Upper(state) == state ==>
              (ImageInUse(state) <==> state in {"USED", "USED_PERS", "LOCKED_USED", "LOCKED_USED_PERS"})
  {
    WordIsTrimmed(state);
    UpperIsWord(state);
    WordIsTrimmed(Upper(state));
  }
}
