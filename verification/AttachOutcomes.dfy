/**
What the handlers of the attach protocol achieve: what holds when one ends without a failure, how
soon it ends, what it leaves alone, and that nothing undoes its work while it holds the volume's lock.
*/
module AttachOutcomes {
  import opened Basics
  import opened MetadataDrift
  import opened AttachProtocol

  // ---- Where a handler can be ---------------------------------------------------------------

  predicate PcOk(x: Handler) {
    match x.pc
    case Queued | Finished | Released => true
    case Reuse | Check | Guard => x.kind.Publish?
    case Moving(from) => x.kind.Publish? && from != x.vm
    case Attach | Await(_) => x.kind.Publish? || x.kind.Recover?
    case Present => x.kind.Unpublish? || x.kind.Reconcile?
    case Delay => x.kind.Unpublish?
    case Confirm => x.kind.Expire?
    case Desired | Locate | Evict => x.kind.Recover?
    case Detach(from) => x.kind.Expire? || ((x.kind.Unpublish? || x.kind.Reconcile?) && from == x.vm)
  }

  /** Every handler is where its kind can be, and the one inside has the lock of its volume. */
  ghost predicate Ordered(w: World) {
    && (forall h | 0 <= h < |w.handlers| :: PcOk(w.handlers[h]))
    && (forall h | 0 <= h < |w.handlers| && Locked(w.handlers[h].pc) ::
          w.handlers[h].volume in w.locks && w.locks[w.handlers[h].volume] == h)
  }

  lemma ActKeepsPcOk(cfg: Config, w: World, x: Handler, answer: Answer)
    requires PcOk(x) && Locked(x.pc) && !x.pc.Finished?
    ensures PcOk(x.(pc := Outcome(cfg, w, x, answer).pc)) && Locked(Outcome(cfg, w, x, answer).pc)
  {
  }

  lemma StepKeepsOrdered(cfg: Config, w: World, step: Step)
    requires Ordered(w) && Enabled(cfg, w, step)
    ensures Ordered(Apply(cfg, w, step))
  {
    if step.Act? {
      ActKeepsPcOk(cfg, w, w.handlers[step.h], step.answer);
    }
  }

  lemma {:induction false} RunsKeepOrdered(cfg: Config, w: World, steps: seq<Step>)
    requires Ordered(w) && Exec(cfg, w, steps).Some?
    ensures Ordered(Exec(cfg, w, steps).value)
  {
    if steps != [] {
      RunsKeepOrdered(cfg, w, steps[..|steps| - 1]);
      StepKeepsOrdered(cfg, Exec(cfg, w, steps[..|steps| - 1]).value, steps[|steps| - 1]);
    }
  }

  // ---- What a handler achieves --------------------------------------------------------------

  predicate IsAccepted(answer: Answer) {
    answer.Commands? && answer.result.Accepted?
  }

  /** A failed or refused action; whether the disk is attached is a read that must not fail on the way to a detach. */
  predicate Fails(cfg: Config, x: Handler, answer: Answer) {
    || answer.Leaves?
    || match x.pc
       case Present => answer.Misses?
       case Guard => !(answer.Inspects? && GuardPasses(cfg.guard, answer.found))
       case Moving(_) => answer.Commands? && !answer.result.Accepted?
       case Attach => !answer.Commands? || answer.result.Rejected?
       case Await(_) => answer.Commands? && answer.result.Rejected?
       case Evict | Detach(_) => !IsAccepted(answer)
       case _ => false
  }

  predicate HasEntry(x: Handler, sticky: map<string, Vm>) {
    x.volume in sticky && sticky[x.volume] == x.vm
  }

  /**
  What a handler is for. A publish or a recovery: the volume is on its VM. An unpublish: it is not,
  or it is kept there as a sticky attachment. The reconciler: it is not there, or it is sticky. An
  expiry: it is not sticky any more.
  */
  predicate Achieved(x: Handler, attached: set<(string, Vm)>, sticky: map<string, Vm>) {
    match x.kind
    case Publish => (x.volume, x.vm) in attached
    case Recover => (x.volume, x.vm) in attached
    case Unpublish => (x.volume, x.vm) !in attached || HasEntry(x, sticky)
    case Reconcile => (x.volume, x.vm) !in attached || x.volume in sticky
    case Expire => x.volume !in sticky
  }

  lemma FinishedMeansAchieved(cfg: Config, w: World, x: Handler, answer: Answer)
    requires PcOk(x) && Locked(x.pc) && !x.pc.Finished? && !Fails(cfg, x, answer)
    ensures var e := Outcome(cfg, w, x, answer); e.pc.Finished? ==> Achieved(x, e.attached, e.sticky)
  {
  }

  /** In every run, an action that ends a handler without a failure leaves what the handler is for. */
  lemma HandlersAchieve(cfg: Config, w: World, steps: seq<Step>, h: nat, answer: Answer)
    requires Fresh(cfg, w) && Exec(cfg, w, steps).Some? && Enabled(cfg, Exec(cfg, w, steps).value, Act(h, answer))
    ensures var m := Exec(cfg, w, steps).value;
            var end := Apply(cfg, m, Act(h, answer));
            !Fails(cfg, m.handlers[h], answer) && end.handlers[h].pc.Finished? ==>
              Achieved(m.handlers[h], end.attached, end.sticky)
  {
    RunsKeepOrdered(cfg, w, steps);
    var m := Exec(cfg, w, steps).value;
    if !Fails(cfg, m.handlers[h], answer) {
      FinishedMeansAchieved(cfg, m, m.handlers[h], answer);
    }
  }

  /** An accepted command has taken effect, and one refused for the VM's state is sent again. */
  lemma CommandsTakeEffect(cfg: Config, w: World, x: Handler, answer: Answer)
    requires PcOk(x) && answer.Commands?
    ensures var e := Outcome(cfg, w, x, answer);
            if x.pc.Attach? || x.pc == Await(true) then
              match answer.result
              case Accepted => e.attached == w.attached + {(x.volume, x.vm)} && e.pc == Await(false)
              case WrongState => e.attached == w.attached && e.pc == Await(true)
              case Rejected => e.attached == w.attached && e.pc == Finished
            else if IsAccepted(answer) && (x.pc.Detach? || x.pc.Moving?) then
              e.attached == w.attached - {(x.volume, x.pc.from)} && (!HomeDetach(x) ==> x.volume !in e.sticky)
            else
              e.attached == if IsAccepted(answer) && x.pc.Evict? then w.attached - {(x.volume, x.vm)} else w.attached
  {
  }

  predicate HomeDetach(x: Handler) {
    x.kind.Unpublish? || x.kind.Reconcile?
  }

  /**
  An unpublish starts a grace period or detaches, a publish goes on from another node's sticky
  attachment only without it, an expiry forgets a disk it still finds only because Kubernetes wants
  it, and a recovery that sees the disk detaches it first.
  */
  lemma NextActions(cfg: Config, w: World, x: Handler, answer: Answer)
    requires PcOk(x) && !answer.Leaves?
    ensures var e := Outcome(cfg, w, x, answer);
            && (x.pc.Delay? ==>
                  if answer == StartsGrace(true) then HasEntry(x, e.sticky) && e.pc.Finished?
                  else e.pc == Detach(x.vm) && (answer.StartsGrace? ==> x.volume !in e.sticky))
            && (x.kind.Recover? && e.pc.Finished? && x.pc.Await? && (x.volume, x.vm) in e.attached && answer.Sees? ==>
                  !HasEntry(x, e.sticky))
            && (x.pc.Moving? && e.pc.Check? ==> x.volume !in e.sticky)
            && (x.pc.Confirm? && e.pc.Finished? && x.volume in w.sticky && !answer.StillDesired? && !answer.Misses? ==>
                  (x.volume, w.sticky[x.volume]) !in e.attached)
            && (x.pc.Locate? ==> (e.pc.Evict? <==> answer.Sees? && (x.volume, x.vm) in w.attached))
  {
  }

  // ---- What a handler leaves alone ----------------------------------------------------------

  /** A publish and an expiry detach from the VM they found in the sticky entry, the others from their own. */
  predicate MayDetach(x: Handler, vm: Vm) {
    match x.kind
    case Publish => x.pc == Moving(vm)
    case Expire => x.pc == Detach(vm)
    case _ => vm == x.vm
  }

  /** Attachments go only by an accepted command of a handler that may detach them. */
  lemma OnlyCommandsDetach(cfg: Config, w: World, x: Handler, answer: Answer, a: (string, Vm))
    requires PcOk(x)
    requires a in w.attached && a !in Outcome(cfg, w, x, answer).attached
    ensures IsAccepted(answer) && a.0 == x.volume && MayDetach(x, a.1)
  {
  }

  /**
  A publish and an expiry aim at the VM of the sticky entry. An expiry detaches no disk that
  Kubernetes still wants there and, unless it could not look, only one it saw there; the reconciler
  none that is sticky.
  */
  lemma DetachTargets(cfg: Config, w: World, x: Handler, answer: Answer)
    requires PcOk(x) && !x.pc.Moving? && !x.pc.Detach?
    ensures var pc := Outcome(cfg, w, x, answer).pc;
            && (pc.Moving? ==> x.volume in w.sticky && w.sticky[x.volume] == pc.from)
            && (pc.Detach? && x.kind.Expire? ==>
                  && x.volume in w.sticky && w.sticky[x.volume] == pc.from
                  && !answer.StillDesired?
                  && (!answer.Unresolved? ==> (x.volume, pc.from) in w.attached && !answer.Misses?))
            && (pc.Detach? && x.pc.Present? ==> (x.volume, x.vm) in w.attached && x.volume !in w.sticky)
  {
  }

  /**
  Other volumes' entries stay. Only an unpublish makes one, for its own VM. A publish and an expiry
  end one, a recovery its own VM's, and an unpublish one that its failed start rolls back.
  */
  lemma OnlyOwnEntryChanges(cfg: Config, w: World, x: Handler, answer: Answer, volume: string)
    requires PcOk(x)
    ensures var sticky := Outcome(cfg, w, x, answer).sticky;
            && (volume != x.volume ==>
                  && (volume in sticky <==> volume in w.sticky)
                  && (volume in sticky ==> sticky[volume] == w.sticky[volume]))
            && (x.volume in sticky ==>
                  || (x.volume in w.sticky && sticky[x.volume] == w.sticky[x.volume])
                  || (x.pc.Delay? && sticky[x.volume] == x.vm))
            && (x.volume in w.sticky && x.volume !in sticky ==>
                  || x.kind.Publish? || x.kind.Expire? || (x.kind.Recover? && w.sticky[x.volume] == x.vm)
                  || (x.pc.Delay? && answer == StartsGrace(false)))
  {
  }

  /** A publish that has looked for a sticky attachment leaves none for its own VM that an expiry could detach later. */
  lemma PublishClaims(cfg: Config, w: World, x: Handler, answer: Answer)
    requires PcOk(x) && x.kind.Publish? && Locked(x.pc) && !x.pc.Finished?
    requires || (x.pc.Reuse? && !answer.Leaves?)
             || (x.pc.Check? && answer.Sees? && (x.volume, x.vm) in w.attached)
             || (!x.pc.Reuse? && !HasEntry(x, w.sticky))
    ensures !HasEntry(x, Outcome(cfg, w, x, answer).sticky)
  {
  }

  // ---- How soon a handler ends --------------------------------------------------------------

  /** A bound on the actions still to come. */
  function Rank(pc: Pc): nat {
    match pc
    case Reuse => 7
    case Moving(_) | Desired => 6
    case Check | Locate => 5
    case Guard | Evict => 4
    case Attach | Present => 3
    case Await(retry) => if retry then 2 else 1
    case Delay | Confirm => 2
    case Detach(_) => 1
    case Queued | Finished | Released => 0
  }

  /** The answer tells the handler something new: not another look at a disk that has not moved yet. */
  predicate Tells(w: World, x: Handler, answer: Answer) {
    match x.pc
    case Moving(from) => answer.Commands? || answer.Misses? || (x.volume, from) !in w.attached
    case Await(retry) => (retry && IsAccepted(answer)) || (answer.Sees? && (x.volume, x.vm) in w.attached)
    case _ => true
  }

  lemma ActionsCount(cfg: Config, w: World, x: Handler, answer: Answer)
    requires PcOk(x) && Locked(x.pc) && !x.pc.Finished? && Tells(w, x, answer)
    ensures Rank(Outcome(cfg, w, x, answer).pc) < Rank(x.pc)
  {
  }

  /** How many of the steps are actions of this handler. */
  function Actions(steps: seq<Step>, h: nat): nat {
    if steps == [] then 0
    else Actions(steps[..|steps| - 1], h) + (if steps[|steps| - 1].Act? && steps[|steps| - 1].h == h then 1 else 0)
  }

  ghost predicate AlwaysTold(cfg: Config, w: World, steps: seq<Step>, h: nat)
    requires Exec(cfg, w, steps).Some?
  {
    steps == [] ||
    (var before, step := steps[..|steps| - 1], steps[|steps| - 1];
     var m := Exec(cfg, w, before).value;
     AlwaysTold(cfg, w, before, h) && (step.Act? && step.h == h ==> Tells(m, m.handlers[h], step.answer)))
  }

  lemma StepCounts(cfg: Config, w: World, step: Step, h: nat)
    requires Ordered(w) && Enabled(cfg, w, step) && h < |w.handlers| && !w.handlers[h].pc.Queued?
    requires step.Act? && step.h == h ==> Tells(w, w.handlers[h], step.answer)
    ensures var pc := Apply(cfg, w, step).handlers[h].pc;
            !pc.Queued? && Rank(pc) + (if step.Act? && step.h == h then 1 else 0) <= Rank(w.handlers[h].pc)
  {
    if step.Act? && step.h == h {
      ActionsCount(cfg, w, w.handlers[h], step.answer);
      ActKeepsPcOk(cfg, w, w.handlers[h], step.answer);
    }
  }

  /** A handler inside ends after as many telling actions as its rank says, seven at most, whatever else happens. */
  lemma {:induction false} HandlersEnd(cfg: Config, w: World, steps: seq<Step>, h: nat)
    requires Ordered(w) && Exec(cfg, w, steps).Some? && h < |w.handlers| && !w.handlers[h].pc.Queued?
    requires AlwaysTold(cfg, w, steps, h)
    ensures h < |Exec(cfg, w, steps).value.handlers|
    ensures var pc := Exec(cfg, w, steps).value.handlers[h].pc;
            !pc.Queued? && Rank(pc) + Actions(steps, h) <= Rank(w.handlers[h].pc) <= 7
  {
    if steps != [] {
      var before, step := steps[..|steps| - 1], steps[|steps| - 1];
      HandlersEnd(cfg, w, before, h);
      RunsKeepOrdered(cfg, w, before);
      StepCounts(cfg, Exec(cfg, w, before).value, step, h);
    }
  }

  // ---- What nothing undoes ------------------------------------------------------------------

  /** While a handler has the lock and may not attach, nothing attaches its volume. */
  lemma StepKeepsDetached(cfg: Config, w: World, step: Step, h: nat, vm: Vm)
    requires Ordered(w) && Enabled(cfg, w, step) && h < |w.handlers| && w.handlers[h].pc.Finished?
    requires (w.handlers[h].volume, vm) !in w.attached
    ensures (w.handlers[h].volume, vm) !in Apply(cfg, w, step).attached
  {
    if step.Act? {
      OnlyCommittedAttach(cfg, w, w.handlers[step.h], step.answer);
    }
  }

  /** So what a finished handler has detached stays detached until it gives the lock back. */
  lemma {:induction false} StaysDetached(cfg: Config, w: World, steps: seq<Step>, h: nat, vm: Vm)
    requires Ordered(w) && Exec(cfg, w, steps).Some? && h < |w.handlers| && w.handlers[h].pc.Finished?
    requires (w.handlers[h].volume, vm) !in w.attached && ReleaseLock(h) !in steps
    ensures var m := Exec(cfg, w, steps).value;
            && h < |m.handlers| && m.handlers[h] == w.handlers[h]
            && (w.handlers[h].volume, vm) !in m.attached
  {
    if steps != [] {
      var before, step := steps[..|steps| - 1], steps[|steps| - 1];
      assert step in steps && forall t | t in before :: t in steps;
      StaysDetached(cfg, w, before, h, vm);
      RunsKeepOrdered(cfg, w, before);
      StepKeepsDetached(cfg, Exec(cfg, w, before).value, step, h, vm);
    }
  }

  predicate ChangesEntry(step: Step, volume: string) {
    step.StickyChanges? && step.volume == volume
  }

  lemma StepKeepsUnclaimed(cfg: Config, w: World, step: Step, h: nat)
    requires Ordered(w) && Enabled(cfg, w, step) && h < |w.handlers|
    requires var x := w.handlers[h];
             x.kind.Publish? && Locked(x.pc) && !x.pc.Reuse? && !HasEntry(x, w.sticky) && !ChangesEntry(step, x.volume)
    ensures !HasEntry(w.handlers[h], Apply(cfg, w, step).sticky)
  {
    if step.Act? {
      OnlyOwnEntryChanges(cfg, w, w.handlers[step.h], step.answer, w.handlers[h].volume);
      if step.h == h {
        PublishClaims(cfg, w, w.handlers[h], step.answer);
      }
    }
  }

  /**
  A publish that has looked for a sticky attachment gives the lock back with none for its own VM,
  unless somebody without the lock puts one there meanwhile: no expiry detaches what it attached.
  */
  lemma {:induction false} StaysUnclaimed(cfg: Config, w: World, steps: seq<Step>, h: nat)
    requires Ordered(w) && Exec(cfg, w, steps).Some? && h < |w.handlers|
    requires var x := w.handlers[h]; x.kind.Publish? && Locked(x.pc) && !x.pc.Reuse? && !HasEntry(x, w.sticky)
    requires ReleaseLock(h) !in steps && forall t | t in steps :: !ChangesEntry(t, w.handlers[h].volume)
    ensures var m := Exec(cfg, w, steps).value;
            && h < |m.handlers| && m.handlers[h] == w.handlers[h].(pc := m.handlers[h].pc)
            && Locked(m.handlers[h].pc) && !m.handlers[h].pc.Reuse? && !HasEntry(m.handlers[h], m.sticky)
  {
    if steps != [] {
      var before, step := steps[..|steps| - 1], steps[|steps| - 1];
      assert step in steps && forall t | t in before :: t in steps;
      StaysUnclaimed(cfg, w, before, h);
      RunsKeepOrdered(cfg, w, before);
      var m := Exec(cfg, w, before).value;
      StepKeepsUnclaimed(cfg, m, step, h);
      if step.Act? && step.h == h {
        ActKeepsPcOk(cfg, m, m.handlers[h], step.answer);
      }
    }
  }
}
