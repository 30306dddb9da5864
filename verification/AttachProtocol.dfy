/**
Attach and detach as a protocol: publish, unpublish, sticky expiry, the reconciler's detach and
local device recovery, each one action at a time under the volume's lock, against an OpenNebula that is a set of
attachments. A node is named by the id of its VM.
*/
module AttachProtocol {
  import opened Basics
  import opened MetadataDrift

  type Vm = int

  /**
  What the single-attachment law depends on. `reliable`: inspections succeed and tell the truth.
  `recoversAnyway`: a recovery that does not find the disk on its node may attach it although
  another VM has the volume; otherwise that is ruled out, or no recovery ever arrives.
  */
  datatype Config = Config(guard: GuardConfig, reliable: bool, positiveIds: bool, recoversAnyway: bool)

  datatype Kind = Publish | Unpublish | Expire | Reconcile | Recover

  datatype Pc =
    | Queued                  // waiting for the volume's lock
    | Reuse                   // publish: look for a sticky attachment
    | Moving(from: Vm)        // publish: the sticky attachment is on another node
    | Check                   // publish: is it attached here already
    | Guard                   // publish: metadata drift
    | Attach                  // publish: about to send the attach command
    | Await(retry: bool)      // publish: polling, with a retry still to send or not
    | Present                 // unpublish, reconciler: is it attached here
    | Delay                   // unpublish: start a grace period instead
    | Confirm                 // expiry: is the sticky entry still there and expired
    | Desired                 // recovery: is the volume still wanted on this node
    | Locate                  // recovery: is it attached here
    | Evict                   // recovery: about to detach it from here
    | Detach(from: Vm)        // about to send the detach command
    | Finished                // about to release the lock
    | Released

  datatype Handler = Handler(kind: Kind, volume: string, vm: Vm, pc: Pc)

  datatype World = World(attached: set<(string, Vm)>, sticky: map<string, Vm>,
                         locks: map<string, nat>, handlers: seq<Handler>)

  datatype Command = Accepted | WrongState | Rejected

  /** What the outside world answers to one action. */
  datatype Answer =
    | Sees                          // reads succeed and are current
    | Misses                        // a read fails; the driver takes the disk for absent
    | Leaves                        // a refusal, a timeout or an error ends the handler
    | Inspects(found: Inspection)
    | Commands(result: Command)
    | StartsGrace(persisted: bool)
    | Unresolved                    // expiry: the volume or the VM cannot be looked up, so no read tells anything
    | StillDesired                  // Kubernetes still wants the volume on its sticky node

  datatype Step =
    | Arrive(kind: Kind, volume: string, vm: Vm)
    | AcquireLock(h: nat)
    | Act(h: nat, answer: Answer)
    | ReleaseLock(h: nat)
    | StickyChanges(volume: string, entry: Option<Vm>)  // fast paths, maintenance holds, the ConfigMap watch
    | Vanishes(volume: string, vm: Vm)                  // OpenNebula finishes a detach or drops a failed disk

  function Owners(w: World, volume: string): set<Vm> {
    set a | a in w.attached && a.0 == volume :: a.1
  }

  /** The property: at most one VM has the volume. */
  ghost predicate SingleAttachment(w: World) {
    forall a, b | a in w.attached && b in w.attached && a.0 == b.0 :: a == b
  }

  predicate Locked(pc: Pc) {
    !pc.Queued? && !pc.Released?
  }

  function Entry(kind: Kind): Pc {
    match kind
    case Publish => Reuse
    case Unpublish => Present
    case Expire => Confirm
    case Reconcile => Present
    case Recover => Desired
  }

  function Move(w: World, h: nat, pc: Pc): World
    requires h < |w.handlers|
  {
    w.(handlers := w.handlers[h := w.handlers[h].(pc := pc)])
  }

  /** What one action leaves behind. */
  datatype Effect = Effect(attached: set<(string, Vm)>, sticky: map<string, Vm>, pc: Pc)

  /** The locked bodies, one remote call or in-memory update per action. */
  function Outcome(cfg: Config, w: World, x: Handler, answer: Answer): Effect {
    var here := (x.volume, x.vm);
    var on, sticky := w.attached, w.sticky;
    var cleared := sticky - {x.volume};
    var reused := if x.volume in sticky && sticky[x.volume] == x.vm then cleared else sticky;
    if answer.Leaves? then Effect(on, sticky, Finished)
    else
      match x.pc
      case Reuse =>
        if x.volume !in sticky then Effect(on, sticky, Check)
        else if sticky[x.volume] == x.vm then
          Effect(on, cleared, if answer.Sees? && here in on then Finished else Check)
        else Effect(on, sticky, Moving(sticky[x.volume]))
      case Moving(from) =>
        if answer.Commands? then
          if answer.result.Accepted? then Effect(on - {(x.volume, from)}, cleared, Check)
          else Effect(on, sticky, Finished)
        else if answer.Misses? || (x.volume, from) !in on then Effect(on, cleared, Check)
        else Effect(on, sticky, x.pc)
      case Check =>
        if answer.Sees? && here in on then Effect(on, reused, Finished) else Effect(on, sticky, Guard)
      case Guard =>
        Effect(on, sticky, if answer.Inspects? && GuardPasses(cfg.guard, answer.found) then Attach else Finished)
      case Attach =>
        if !answer.Commands? || answer.result.Rejected? then Effect(on, sticky, Finished)
        else if answer.result.Accepted? then Effect(on + {here}, sticky, Await(false))
        else Effect(on, sticky, Await(true))
      case Await(retry) =>
        if answer.Commands? && retry then
          match answer.result
          case Accepted => Effect(on + {here}, sticky, Await(false))
          case WrongState => Effect(on, sticky, x.pc)
          case Rejected => Effect(on, sticky, Finished)
        else if answer.Sees? && here in on then Effect(on, if x.kind.Recover? then reused else sticky, Finished)
        else Effect(on, sticky, x.pc)
      case Present =>
        if answer.Misses? || here !in on || (x.kind.Reconcile? && x.volume in sticky) then Effect(on, sticky, Finished)
        else Effect(on, sticky, if x.kind.Unpublish? then Delay else Detach(x.vm))
      case Delay =>
        if answer.StartsGrace? then
          if answer.persisted then Effect(on, sticky[x.volume := x.vm], Finished)
          else Effect(on, cleared, Detach(x.vm))
        else Effect(on, sticky, Detach(x.vm))
      case Confirm =>
        if x.volume !in sticky then Effect(on, sticky, Finished)
        else if answer.Unresolved? then Effect(on, sticky, Detach(sticky[x.volume]))
        else if answer.Misses? || answer.StillDesired? || (x.volume, sticky[x.volume]) !in on then
          Effect(on, cleared, Finished)
        else Effect(on, sticky, Detach(sticky[x.volume]))
      case Desired => Effect(on, sticky, Locate)
      case Locate => Effect(on, sticky, if answer.Sees? && here in on then Evict else Attach)
      case Evict =>
        if answer.Commands? && answer.result.Accepted? then Effect(on - {here}, sticky, Attach)
        else Effect(on, sticky, Finished)
      case Detach(from) =>
        if answer.Commands? && answer.result.Accepted? then
          Effect(on - {(x.volume, from)}, if x.kind.Expire? then cleared else sticky, Finished)
        else Effect(on, sticky, Finished)
      case _ => Effect(on, sticky, x.pc)
  }

  function ActOn(cfg: Config, w: World, h: nat, answer: Answer): World
    requires h < |w.handlers|
  {
    var e := Outcome(cfg, w, w.handlers[h], answer);
    Move(w.(attached := e.attached, sticky := e.sticky), h, e.pc)
  }

  ghost predicate AnswerAllowed(cfg: Config, w: World, x: Handler, answer: Answer) {
    && (answer.Inspects? && cfg.reliable ==>
          answer.found.Found? && Truthful(answer.found.metadata, Owners(w, x.volume), x.vm))
    && (answer.Unresolved? ==> x.pc.Confirm?)
    && (!cfg.recoversAnyway && AttachesDirectly(w, x, answer) ==> Owners(w, x.volume) <= {x.vm})
  }

  /** Recovery goes on to attach without having found the disk on its node. */
  predicate AttachesDirectly(w: World, x: Handler, answer: Answer) {
    x.pc.Locate? && !answer.Leaves? && !(answer.Sees? && (x.volume, x.vm) in w.attached)
  }

  ghost predicate Enabled(cfg: Config, w: World, step: Step) {
    match step
    case Arrive(_, _, vm) => cfg.positiveIds ==> vm > 0
    case AcquireLock(h) => h < |w.handlers| && w.handlers[h].pc.Queued? && w.handlers[h].volume !in w.locks
    case Act(h, answer) =>
      && h < |w.handlers| && Locked(w.handlers[h].pc) && !w.handlers[h].pc.Finished?
      && AnswerAllowed(cfg, w, w.handlers[h], answer)
    case ReleaseLock(h) => h < |w.handlers| && w.handlers[h].pc.Finished?
    case StickyChanges(_, entry) => cfg.positiveIds && entry.Some? ==> entry.value > 0
    case Vanishes(_, _) => true
  }

  ghost function Apply(cfg: Config, w: World, step: Step): World
    requires Enabled(cfg, w, step)
  {
    match step
    case Arrive(kind, volume, vm) => w.(handlers := w.handlers + [Handler(kind, volume, vm, Queued)])
    case AcquireLock(h) =>
      Move(w.(locks := w.locks[w.handlers[h].volume := h]), h, Entry(w.handlers[h].kind))
    case Act(h, answer) => ActOn(cfg, w, h, answer)
    case ReleaseLock(h) => Move(w.(locks := w.locks - {w.handlers[h].volume}), h, Released)
    case StickyChanges(volume, entry) =>
      w.(sticky := if entry.Some? then w.sticky[volume := entry.value] else w.sticky - {volume})
    case Vanishes(volume, vm) => w.(attached := w.attached - {(volume, vm)})
  }

  ghost function Exec(cfg: Config, w: World, steps: seq<Step>): Option<World> {
    if steps == [] then Some(w)
    else
      var before := Exec(cfg, w, steps[..|steps| - 1]);
      var step := steps[|steps| - 1];
      if before.None? || !Enabled(cfg, before.value, step) then None else Some(Apply(cfg, before.value, step))
  }

  /** A controller that has just become leader: nothing in flight, nothing attached twice. */
  ghost predicate Fresh(cfg: Config, w: World) {
    && w.locks == map[] && w.handlers == [] && SingleAttachment(w)
    && (cfg.positiveIds ==> forall a | a in w.attached :: a.1 > 0)
  }

  // ---- The invariant ------------------------------------------------------------------------

  /** The handler knows that no other VM has the volume and may attach it. */
  predicate Committed(pc: Pc) {
    pc.Attach? || pc.Await? || pc.Evict?
  }

  ghost predicate LocksOk(w: World) {
    && (forall h | 0 <= h < |w.handlers| && Locked(w.handlers[h].pc) ::
          w.handlers[h].volume in w.locks && w.locks[w.handlers[h].volume] == h)
    && (forall h | 0 <= h < |w.handlers| && Committed(w.handlers[h].pc) ::
          forall a | a in w.attached && a.0 == w.handlers[h].volume :: a.1 == w.handlers[h].vm)
  }

  ghost predicate IdsPositive(w: World) {
    && (forall a | a in w.attached :: a.1 > 0)
    && (forall h | 0 <= h < |w.handlers| :: w.handlers[h].vm > 0)
  }

  ghost predicate Inv(w: World) {
    SingleAttachment(w) && LocksOk(w) && IdsPositive(w)
  }

  predicate Guarded(cfg: Config) {
    cfg.guard.enabled && cfg.guard.eligible && cfg.reliable && cfg.positiveIds
  }

  /** The exact condition of the law. */
  predicate Safe(cfg: Config) {
    Guarded(cfg) && !cfg.recoversAnyway
  }

  /**
  Only a committed handler adds attachments, and only its own; the guard commits a publish, and
  looking for the disk commits a recovery.
  */
  lemma OnlyCommittedAttach(cfg: Config, w: World, x: Handler, answer: Answer)
    ensures var e := Outcome(cfg, w, x, answer);
            && (forall a | a in e.attached && a !in w.attached :: Committed(x.pc) && a == (x.volume, x.vm))
            && (Locked(x.pc) ==> Locked(e.pc))
            && (Committed(e.pc) && !Committed(x.pc) ==>
                  && e.attached == w.attached && (x.pc.Guard? || x.pc.Locate?)
                  && (x.pc.Guard? ==> answer.Inspects? && GuardPasses(cfg.guard, answer.found))
                  && (x.pc.Locate? && !AttachesDirectly(w, x, answer) ==> (x.volume, x.vm) in w.attached))
  {
  }

  /** A handler that becomes committed is alone with the volume. */
  lemma CommittingIsAlone(cfg: Config, w: World, x: Handler, answer: Answer)
    requires Safe(cfg) && SingleAttachment(w) && IdsPositive(w) && AnswerAllowed(cfg, w, x, answer)
    requires Committed(Outcome(cfg, w, x, answer).pc) && !Committed(x.pc)
    ensures forall a | a in w.attached && a.0 == x.volume :: a.1 == x.vm
  {
    OnlyCommittedAttach(cfg, w, x, answer);
    if x.pc.Guard? {
      GuardPassesIff(cfg.guard, answer.found.metadata, Owners(w, x.volume), x.vm);
    }
    forall a | a in w.attached && a.0 == x.volume
      ensures a.1 == x.vm
    {
      assert a.1 in Owners(w, x.volume);
    }
  }

  lemma ActPreserves(cfg: Config, w: World, h: nat, answer: Answer)
    requires Safe(cfg) && Inv(w) && Enabled(cfg, w, Act(h, answer))
    ensures Inv(ActOn(cfg, w, h, answer))
  {
    var x := w.handlers[h];
    var e := Outcome(cfg, w, x, answer);
    OnlyCommittedAttach(cfg, w, x, answer);
    if Committed(e.pc) && !Committed(x.pc) {
      CommittingIsAlone(cfg, w, x, answer);
    }
    EffectPreserves(w, h, e);
  }

  lemma EffectPreserves(w: World, h: nat, e: Effect)
    requires Inv(w) && h < |w.handlers| && Locked(w.handlers[h].pc) && Locked(e.pc)
    requires var x := w.handlers[h];
             && (forall a | a in e.attached && a !in w.attached :: Committed(x.pc) && a == (x.volume, x.vm))
             && (Committed(e.pc) && !Committed(x.pc) ==>
                   e.attached == w.attached && forall a | a in w.attached && a.0 == x.volume :: a.1 == x.vm)
    ensures Inv(Move(w.(attached := e.attached, sticky := e.sticky), h, e.pc))
  {
  }

  lemma StepPreserves(cfg: Config, w: World, step: Step)
    requires Safe(cfg) && Inv(w) && Enabled(cfg, w, step)
    ensures Inv(Apply(cfg, w, step))
  {
    match step
    case Act(h, answer) => ActPreserves(cfg, w, h, answer);
    case _ =>
  }

  lemma {:induction false} RunsKeepInv(cfg: Config, w: World, steps: seq<Step>)
    requires Safe(cfg) && Fresh(cfg, w) && Exec(cfg, w, steps).Some?
    ensures Inv(Exec(cfg, w, steps).value)
  {
    if steps != [] {
      RunsKeepInv(cfg, w, steps[..|steps| - 1]);
      StepPreserves(cfg, Exec(cfg, w, steps[..|steps| - 1]).value, steps[|steps| - 1]);
    }
  }

  /** Where a publish sees its disk attached, no other VM has the volume. */
  lemma PublishedIsExclusive(cfg: Config, w: World, steps: seq<Step>, volume: string, vm: Vm)
    requires Safe(cfg) && Fresh(cfg, w) && Exec(cfg, w, steps).Some?
    requires (volume, vm) in Exec(cfg, w, steps).value.attached
    ensures Owners(Exec(cfg, w, steps).value, volume) == {vm}
  {
    RunsKeepInv(cfg, w, steps);
  }

  // ---- Exactly when the law holds -----------------------------------------------------------

  lemma Extend(cfg: Config, w: World, steps: seq<Step>, step: Step) returns (longer: seq<Step>)
    requires Exec(cfg, w, steps).Some? && Enabled(cfg, Exec(cfg, w, steps).value, step)
    ensures Exec(cfg, w, longer) == Some(Apply(cfg, Exec(cfg, w, steps).value, step))
  {
    longer := steps + [step];
    assert longer[..|longer| - 1] == steps;
  }

  /** An answer that gets a publish to VM 2 past the guard although another VM has the volume. */
  function Blind(cfg: Config, owner: Vm): Inspection {
    if cfg.reliable then Found(Metadata("READY", 0, [], 2, false, [owner])) else Failed(false)
  }

  /** A handler for VM 2 takes the lock while another VM has the volume. */
  lemma TakesLock(cfg: Config, kind: Kind, volume: string, owner: Vm) returns (w: World, steps: seq<Step>)
    ensures w == World({(volume, owner)}, map[], map[], []) && Exec(cfg, w, steps).Some?
    ensures Exec(cfg, w, steps).value ==
            World(w.attached, map[], map[volume := 0], [Handler(kind, volume, 2, Entry(kind))])
  {
    w := World({(volume, owner)}, map[], map[], []);
    steps := Extend(cfg, w, [], Arrive(kind, volume, 2));
    steps := Extend(cfg, w, steps, AcquireLock(0));
  }

  /** A publish comes as far as the guard. */
  lemma PublishReachesGuard(cfg: Config, volume: string, owner: Vm) returns (w: World, steps: seq<Step>)
    requires owner != 2
    ensures w == World({(volume, owner)}, map[], map[], []) && Exec(cfg, w, steps).Some?
    ensures var m := Exec(cfg, w, steps).value;
            m.attached == w.attached && m.handlers == [Handler(Publish, volume, 2, Guard)]
  {
    w, steps := TakesLock(cfg, Publish, volume, owner);
    steps := Extend(cfg, w, steps, Act(0, Sees));
    assert Exec(cfg, w, steps).value.handlers == [Handler(Publish, volume, 2, Check)];
    steps := Extend(cfg, w, steps, Act(0, Sees));
  }

  lemma BlindPasses(cfg: Config, owner: Vm)
    requires !Guarded(cfg) && owner == if cfg.positiveIds then 1 else 0
    ensures GuardPasses(cfg.guard, Blind(cfg, owner))
    ensures cfg.reliable ==> Blind(cfg, owner).Found? && Truthful(Blind(cfg, owner).metadata, {owner}, 2)
  {
    if cfg.guard.enabled && cfg.guard.eligible && cfg.reliable {
      GuardPassesIff(cfg.guard, Blind(cfg, owner).metadata, {owner}, 2);
    }
  }

  /** An attach command accepted while another VM has the volume breaks the law. */
  lemma SecondAttach(cfg: Config, w: World, steps: seq<Step>, kind: Kind, volume: string, owner: Vm)
    returns (longer: seq<Step>)
    requires owner != 2 && Exec(cfg, w, steps).Some? && (volume, owner) in Exec(cfg, w, steps).value.attached
    requires Exec(cfg, w, steps).value.handlers == [Handler(kind, volume, 2, Attach)]
    ensures Exec(cfg, w, longer).Some? && !SingleAttachment(Exec(cfg, w, longer).value)
  {
    longer := Extend(cfg, w, steps, Act(0, Commands(Accepted)));
    var e := Exec(cfg, w, longer).value;
    assert (volume, owner) in e.attached && (volume, 2) in e.attached;
  }

  /** Without one of the conditions, that publish goes through. */
  lemma UnguardedDoubleAttach(cfg: Config, volume: string) returns (w: World, steps: seq<Step>)
    requires !Guarded(cfg)
    ensures Fresh(cfg, w) && Exec(cfg, w, steps).Some?
    ensures !SingleAttachment(Exec(cfg, w, steps).value)
  {
    var owner := if cfg.positiveIds then 1 else 0;
    w, steps := PublishReachesGuard(cfg, volume, owner);
    BlindPasses(cfg, owner);
    assert Owners(Exec(cfg, w, steps).value, volume) == {owner};
    steps := Extend(cfg, w, steps, Act(0, Inspects(Blind(cfg, owner))));
    steps := SecondAttach(cfg, w, steps, Publish, volume, owner);
  }

  /** A recovery on VM 2 comes as far as the attach although another VM has the volume. */
  lemma RecoveryReachesAttach(cfg: Config, volume: string) returns (w: World, steps: seq<Step>)
    requires cfg.recoversAnyway
    ensures w == World({(volume, 1)}, map[], map[], []) && Exec(cfg, w, steps).Some?
    ensures var m := Exec(cfg, w, steps).value;
            m.attached == w.attached && m.handlers == [Handler(Recover, volume, 2, Attach)]
  {
    w, steps := TakesLock(cfg, Recover, volume, 1);
    steps := Extend(cfg, w, steps, Act(0, Sees));
    assert Exec(cfg, w, steps).value.handlers == [Handler(Recover, volume, 2, Locate)];
    steps := Extend(cfg, w, steps, Act(0, Sees));
  }

  /** With everything else in place, a recovery that attaches anyway attaches to a second VM. */
  lemma RecoveryDoubleAttach(cfg: Config, volume: string) returns (w: World, steps: seq<Step>)
    requires Guarded(cfg) && cfg.recoversAnyway
    ensures Fresh(cfg, w) && Exec(cfg, w, steps).Some?
    ensures !SingleAttachment(Exec(cfg, w, steps).value)
  {
    w, steps := RecoveryReachesAttach(cfg, volume);
    steps := SecondAttach(cfg, w, steps, Recover, volume, 1);
  }

  /**
  Every run of publish, unpublish, sticky move, sticky expiry, reconciler detach and local device
  recovery keeps every volume on at most one VM if and only if the drift guard is on, the volume is
  eligible for it, inspections succeed and tell the truth, VM ids are positive, and a recovery that
  does not find the disk on its node attaches it only when no other VM has the volume.
  */
  lemma SingleAttachmentIffSafe(cfg: Config)
    ensures Safe(cfg) <==>
            forall w, steps | Fresh(cfg, w) && Exec(cfg, w, steps).Some? :: SingleAttachment(Exec(cfg, w, steps).value)
  {
    if Safe(cfg) {
      forall w, steps | Fresh(cfg, w) && Exec(cfg, w, steps).Some?
        ensures SingleAttachment(Exec(cfg, w, steps).value)
      {
        RunsKeepInv(cfg, w, steps);
      }
    } else if Guarded(cfg) {
      var w, steps := RecoveryDoubleAttach(cfg, "v");
    } else {
      var w, steps := UnguardedDoubleAttach(cfg, "v");
    }
  }
}
