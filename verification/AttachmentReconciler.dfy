/**
The attachment reconciler. A pass lists what OpenNebula and Kubernetes report, classifies every
attachment without a VolumeAttachment, and acts on those that have been classified the same way for
the whole grace time. The seen maps kept between passes are proved to be the start of the current
unbroken run of passes.
*/
module AttachmentReconciler {
  import opened Basics
  import opened Text
  import opened ReconcilerSnapshot
  import opened GraceTimers

  function AttachmentItems(found: set<Attachment>): set<(string, Attachment)> {
    set a | a in found :: (Key(a), a)
  }

  function StaleItems(vas: set<VolumeAttachment>): set<(string, VolumeAttachment)> {
    set va | va in vas :: (va.name, va)
  }

  /** The attachments among `found` with one verdict, under their keys. */
  ghost function ItemsWith(verdicts: map<Attachment, Verdict>, found: set<Attachment>, verdict: Verdict)
    : set<(string, Attachment)>
  {
    set a | a in found && a in verdicts && verdicts[a] == verdict :: (Key(a), a)
  }

  lemma ItemsGrow(verdicts: map<Attachment, Verdict>, found: set<Attachment>, a: Attachment, verdict: Verdict)
    requires a in verdicts
    ensures verdicts[a] == verdict ==>
              ItemsWith(verdicts, found + {a}, verdict) == ItemsWith(verdicts, found, verdict) + {(Key(a), a)}
    ensures verdicts[a] != verdict ==> ItemsWith(verdicts, found + {a}, verdict) == ItemsWith(verdicts, found, verdict)
  {
  }

  lemma ItemsStay(verdicts: map<Attachment, Verdict>, found: set<Attachment>, more: set<Attachment>, verdict: Verdict)
    requires forall a | a in more :: a in verdicts && verdicts[a] != verdict
    ensures ItemsWith(verdicts, found + more, verdict) == ItemsWith(verdicts, found, verdict)
  {
  }

  /** The attachments of volumes that are not among these. */
  ghost function Outside(attachments: seq<Attachment>, volumes: set<string>): set<Attachment> {
    set a | a in attachments && a.volume !in volumes
  }

  lemma ItemsAll(snap: Snapshot, verdict: Verdict)
    ensures ItemsWith(Verdicts(snap), Outside(snap.attachments, {}), verdict) == AttachmentItems(Judged(snap, verdict))
  {
    var items := ItemsWith(Verdicts(snap), Outside(snap.attachments, {}), verdict);
    var all := AttachmentItems(Judged(snap, verdict));
    forall it | it in all
      ensures it in items
    {
      assert it.1 in Outside(snap.attachments, {}) && Verdicts(snap)[it.1] == verdict;
    }
    forall it | it in items
      ensures it in all
    {
      assert it.1 in Judged(snap, verdict);
    }
  }

  ghost function Verdicts(snap: Snapshot): map<Attachment, Verdict> {
    map a | a in snap.attachments :: Judge(snap, a)
  }

  /** The two attachment timers after the attachments in `found` were classified. */
  ghost predicate Classified(verdicts: map<Attachment, Verdict>, found: set<Attachment>,
                             orphans: Tally<Attachment>, divergent: Tally<Attachment>,
                             orphanSeen: map<string, Time>, divergentSeen: map<string, Time>, now: Time,
                             grace: Duration) {
    && Tallied(orphans, orphanSeen, ItemsWith(verdicts, found, Orphan), now, grace)
    && Tallied(divergent, divergentSeen, ItemsWith(verdicts, found, Divergent), now, grace)
  }

  predicate Matches(vas: seq<VolumeAttachment>, node: string) {
    exists va | va in vas :: Trim(va.node) == Trim(node) && va.attached
  }

  method HasMatching(vas: seq<VolumeAttachment>, node: string) returns (found: bool)
    ensures found <==> Matches(vas, node)
  {
    for i := 0 to |vas|
      invariant forall va | va in vas[..i] :: !(Trim(va.node) == Trim(node) && va.attached)
    {
      if Trim(vas[i].node) == Trim(node) && vas[i].attached {
        return true;
      }
    }
    return false;
  }

  /** The VolumeAttachments of one volume, and whether a pod uses it, as a pass has indexed them. */
  predicate IndexedFor(snap: Snapshot, volume: string, vas: seq<VolumeAttachment>, active: bool) {
    var pv := WithHandle(snap.pvs, volume);
    && pv.Some? && volume !in snap.skipped && (active <==> ActivePod(snap, pv.value))
    && (forall va | va in vas :: va in snap.vas && VolumeOf(snap.pvs, va) == Some(volume))
    && (forall va | va in snap.vas && VolumeOf(snap.pvs, va) == Some(volume) :: va in vas)
  }

  function ReadOff(vas: seq<VolumeAttachment>, active: bool, node: string): Verdict {
    if Matches(vas, node) || active then Keep else if |vas| > 0 then Divergent else Orphan
  }

  lemma JudgeFromIndex(snap: Snapshot, a: Attachment, vas: seq<VolumeAttachment>, active: bool)
    requires IndexedFor(snap, a.volume, vas, active)
    ensures Judge(snap, a) == ReadOff(vas, active, a.node)
  {
    if Matches(vas, a.node) {
      var va :| va in vas && Trim(va.node) == Trim(a.node) && va.attached;
      assert Announces(snap.pvs, va, a);
    }
    if |vas| > 0 {
      assert vas[0] in vas;
      assert HasVolumeAttachment(snap, a.volume);
    }
  }

  method ReconcileAttachment(a: Attachment, vas: seq<VolumeAttachment>, active: bool,
                             orphansIn: Tally<Attachment>, divergentIn: Tally<Attachment>, now: Time, grace: Duration,
                             ghost verdicts: map<Attachment, Verdict>, ghost found: set<Attachment>,
                             ghost orphanSeen: map<string, Time>, ghost divergentSeen: map<string, Time>)
    returns (orphans: Tally<Attachment>, divergent: Tally<Attachment>)
    requires grace > 0
    requires a in verdicts && verdicts[a] == ReadOff(vas, active, a.node)
    requires Classified(verdicts, found, orphansIn, divergentIn, orphanSeen, divergentSeen, now, grace)
    ensures Classified(verdicts, found + {a}, orphans, divergent, orphanSeen, divergentSeen, now, grace)
  {
    orphans, divergent := orphansIn, divergentIn;
    ItemsGrow(verdicts, found, a, Orphan);
    ItemsGrow(verdicts, found, a, Divergent);
    var matching := HasMatching(vas, a.node);
    if matching {
      return;
    }
    if active {
      return;
    }
    if |vas| > 0 {
      divergent := Meet(divergentIn, Key(a), a, now, grace, divergentSeen, ItemsWith(verdicts, found, Divergent));
    } else {
      orphans := Meet(orphansIn, Key(a), a, now, grace, orphanSeen, ItemsWith(verdicts, found, Orphan));
    }
  }

  method ReconcileVolume(observed: seq<Attachment>, vas: seq<VolumeAttachment>, active: bool,
                         orphansIn: Tally<Attachment>, divergentIn: Tally<Attachment>, now: Time, grace: Duration,
                         ghost verdicts: map<Attachment, Verdict>, ghost found: set<Attachment>,
                         ghost orphanSeen: map<string, Time>, ghost divergentSeen: map<string, Time>)
    returns (orphans: Tally<Attachment>, divergent: Tally<Attachment>)
    requires grace > 0
    requires forall a | a in observed :: a in verdicts && verdicts[a] == ReadOff(vas, active, a.node)
    requires Classified(verdicts, found, orphansIn, divergentIn, orphanSeen, divergentSeen, now, grace)
    ensures Classified(verdicts, found + (set a | a in observed), orphans, divergent,
                       orphanSeen, divergentSeen, now, grace)
  {
    orphans, divergent := orphansIn, divergentIn;
    ghost var met := found;
    for i := 0 to |observed|
      invariant met == found + (set a | a in observed[..i])
      invariant Classified(verdicts, met, orphans, divergent, orphanSeen, divergentSeen, now, grace)
    {
      orphans, divergent := ReconcileAttachment(observed[i], vas, active, orphans, divergent, now, grace,
                                                verdicts, met, orphanSeen, divergentSeen);
      met := met + {observed[i]};
    }
    assert observed[..|observed|] == observed;
  }

  lemma IndexGivesVerdicts(snap: Snapshot, volume: string, observed: seq<Attachment>, vas: seq<VolumeAttachment>,
                           active: bool)
    requires IndexedFor(snap, volume, vas, active)
    requires forall a | a in observed :: a in snap.attachments && a.volume == volume
    ensures forall a | a in observed :: a in Verdicts(snap) && Verdicts(snap)[a] == ReadOff(vas, active, a.node)
  {
    forall a | a in observed
      ensures Judge(snap, a) == ReadOff(vas, active, a.node)
    {
      JudgeFromIndex(snap, a, vas, active);
    }
  }

  lemma GroupCompletes(attachments: seq<Attachment>, byVolume: map<string, seq<Attachment>>,
                       left: set<string>, v: string)
    requires Groups(byVolume, attachments) && v in byVolume && v in left
    ensures Outside(attachments, left - {v}) == Outside(attachments, left) + set a | a in byVolume[v]
  {
  }

  lemma NothingClassified(snap: Snapshot, byVolume: map<string, seq<Attachment>>,
                          orphanSeen: map<string, Time>, divergentSeen: map<string, Time>, now: Time, grace: Duration)
    requires Groups(byVolume, snap.attachments)
    ensures Classified(Verdicts(snap), Outside(snap.attachments, byVolume.Keys),
                       Tally(orphanSeen, {}, {}), Tally(divergentSeen, {}, {}), orphanSeen, divergentSeen, now, grace)
  {
    assert Outside(snap.attachments, byVolume.Keys) == {};
  }

  class Reconciler {
    const orphanGrace: Duration
    const staleVAGrace: Duration
    var orphanSeen: map<string, Time>
    var divergentSeen: map<string, Time>
    var staleVASeen: map<string, Time>

    constructor (orphanGraceSeconds: int, staleVAGraceSeconds: int)
      ensures Valid()
      ensures orphanGrace == (if orphanGraceSeconds > 0 then orphanGraceSeconds else 120) * 1_000_000_000
      ensures staleVAGrace == (if staleVAGraceSeconds > 0 then staleVAGraceSeconds else 90) * 1_000_000_000
      ensures orphanSeen == divergentSeen == staleVASeen == map[]
    {
      orphanGrace := (if orphanGraceSeconds <= 0 then 120 else orphanGraceSeconds) * 1_000_000_000;
      staleVAGrace := (if staleVAGraceSeconds <= 0 then 90 else staleVAGraceSeconds) * 1_000_000_000;
      orphanSeen, divergentSeen, staleVASeen := map[], map[], map[];
    }

    predicate Valid() {
      orphanGrace > 0 && staleVAGrace > 0
    }

    method ClassifyGroup(snap: Snapshot, v: string, byHandle: map<string, PersistentVolume>, users: set<string>,
                         observed: seq<Attachment>, vaByVolume: map<string, seq<VolumeAttachment>>,
                         orphansIn: Tally<Attachment>, divergentIn: Tally<Attachment>, now: Time,
                         ghost found: set<Attachment>)
      returns (orphans: Tally<Attachment>, divergent: Tally<Attachment>)
      requires Valid()
      requires WithHandle(snap.pvs, v) == if v in byHandle then Some(byHandle[v]) else None
      requires forall k :: k in users <==> ClaimInUse(snap.pods, k)
      requires forall a | a in observed :: a in snap.attachments && a.volume == v
      requires GroupsVAs(vaByVolume, snap.vas, snap.pvs)
      requires Classified(Verdicts(snap), found, orphansIn, divergentIn, orphanSeen, divergentSeen, now, orphanGrace)
      ensures Classified(Verdicts(snap), found + (set a | a in observed), orphans, divergent,
                         orphanSeen, divergentSeen, now, orphanGrace)
    {
      if v !in byHandle || v in snap.skipped {
        ItemsStay(Verdicts(snap), found, (set a | a in observed), Orphan);
        ItemsStay(Verdicts(snap), found, (set a | a in observed), Divergent);
        return orphansIn, divergentIn;
      }
      var pvcKey := ClaimKey(byHandle[v]);
      var active := pvcKey != "" && pvcKey in users;
      var vas := if v in vaByVolume then vaByVolume[v] else [];
      IndexGivesVerdicts(snap, v, observed, vas, active);
      orphans, divergent := ReconcileVolume(observed, vas, active, orphansIn, divergentIn, now, orphanGrace,
                                            Verdicts(snap), found, orphanSeen, divergentSeen);
    }

    /** The first loop: every volume group, in any order. */
    method ClassifyAttachments(snap: Snapshot, byHandle: map<string, PersistentVolume>, users: set<string>,
                               byVolume: map<string, seq<Attachment>>,
                               vaByVolume: map<string, seq<VolumeAttachment>>, now: Time)
      returns (orphans: Tally<Attachment>, divergent: Tally<Attachment>)
      requires Valid()
      requires forall h :: WithHandle(snap.pvs, h) == if h in byHandle then Some(byHandle[h]) else None
      requires forall k :: k in users <==> ClaimInUse(snap.pods, k)
      requires Groups(byVolume, snap.attachments) && GroupsVAs(vaByVolume, snap.vas, snap.pvs)
      ensures Tallied(orphans, orphanSeen, AttachmentItems(Judged(snap, Orphan)), now, orphanGrace)
      ensures Tallied(divergent, divergentSeen, AttachmentItems(Judged(snap, Divergent)), now, orphanGrace)
    {
      orphans, divergent := Tally(orphanSeen, {}, {}), Tally(divergentSeen, {}, {});
      var volumes := byVolume.Keys;
      NothingClassified(snap, byVolume, orphanSeen, divergentSeen, now, orphanGrace);
      while volumes != {}
        invariant volumes <= byVolume.Keys
        invariant Classified(Verdicts(snap), Outside(snap.attachments, volumes), orphans, divergent,
                             orphanSeen, divergentSeen, now, orphanGrace)
        decreases |volumes|
      {
        var v :| v in volumes;
        GroupCompletes(snap.attachments, byVolume, volumes, v);
        orphans, divergent := ClassifyGroup(snap, v, byHandle, users, byVolume[v], vaByVolume,
                                            orphans, divergent, now, Outside(snap.attachments, volumes));
        volumes := volumes - {v};
      }
      ItemsAll(snap, Orphan);
      ItemsAll(snap, Divergent);
    }

    /** The second loop: attached VolumeAttachments that OpenNebula does not show. */
    method ClassifyVolumeAttachments(snap: Snapshot, byName: map<string, PersistentVolume>, keys: set<string>,
                                     now: Time)
      returns (stale: Tally<VolumeAttachment>)
      requires Valid()
      requires forall n :: Named(snap.pvs, n) == if n in byName then Some(byName[n]) else None
      requires forall k :: k in keys <==> Observed(snap, k)
      ensures Tallied(stale, staleVASeen, StaleItems(StaleOnes(snap)), now, staleVAGrace)
    {
      stale := Tally(staleVASeen, {}, {});
      ghost var met: set<VolumeAttachment> := {};
      for i := 0 to |snap.vas|
        invariant met == set va | va in snap.vas[..i] && Stale(snap, va)
        invariant Tallied(stale, staleVASeen, StaleItems(met), now, staleVAGrace)
      {
        var va := snap.vas[i];
        if va.pvName.Some? && va.attached && va.pvName.value in byName {
          var pv := byName[va.pvName.value];
          if pv.handle.Some? && va.name !in snap.skippedVAs && Key(Attachment(pv.handle.value, va.node)) !in keys {
            stale := Meet(stale, va.name, va, now, staleVAGrace, staleVASeen, StaleItems(met));
            assert StaleItems(met + {va}) == StaleItems(met) + {(va.name, va)};
            met := met + {va};
          }
        }
      }
      assert met == StaleOnes(snap);
    }

    /**
    A completed pass. It asks to detach exactly the attachments judged orphan or divergent whose key
    is due, and to delete exactly the due stale VolumeAttachments.
    */
    method ReconcileOnce(snap: Snapshot, now: Time)
      returns (orphans: set<Attachment>, divergent: set<Attachment>, stale: set<VolumeAttachment>)
      requires Valid()
      modifies this
      ensures orphanSeen == AfterPass(old(orphanSeen), KeysOf(AttachmentItems(Judged(snap, Orphan))), now)
      ensures divergentSeen == AfterPass(old(divergentSeen), KeysOf(AttachmentItems(Judged(snap, Divergent))), now)
      ensures staleVASeen == AfterPass(old(staleVASeen), KeysOf(StaleItems(StaleOnes(snap))), now)
      ensures orphans == DueItems(old(orphanSeen), AttachmentItems(Judged(snap, Orphan)), now, orphanGrace)
      ensures divergent == DueItems(old(divergentSeen), AttachmentItems(Judged(snap, Divergent)), now, orphanGrace)
      ensures stale == DueItems(old(staleVASeen), StaleItems(StaleOnes(snap)), now, staleVAGrace)
    {
      var byName, byHandle := IndexVolumes(snap.pvs);
      var users := ActiveClaims(snap.pods);
      var byVolume, keys := GroupAttachments(snap.attachments);
      var vaByVolume := GroupVolumeAttachments(snap.vas, byName, snap.pvs);
      var orphanTally, divergentTally := ClassifyAttachments(snap, byHandle, users, byVolume, vaByVolume, now);
      var staleTally := ClassifyVolumeAttachments(snap, byName, keys, now);
      orphanSeen := Prune(orphanTally.seen, orphanTally.current, orphanSeen, now);
      staleVASeen := Prune(staleTally.seen, staleTally.current, staleVASeen, now);
      divergentSeen := Prune(divergentTally.seen, divergentTally.current, divergentSeen, now);
      orphans, divergent, stale := orphanTally.acted, divergentTally.acted, staleTally.acted;
    }
  }
}
