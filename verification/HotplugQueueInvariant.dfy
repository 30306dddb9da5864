/** Every step of the hotplug queue keeps its invariant, and what that means for whole runs. */
module HotplugQueueInvariant {
  import opened Basics
  import opened HotplugQueue
  import opened HotplugQueueSystem

  lemma OtherWorkersElsewhere(s: System, w: nat, i: nat)
    requires OneWorkerPerEntry(s)
    requires w < |s.workers| && i < |s.workers| && w != i
    requires !s.workers[w].pc.Exited? && !s.workers[i].pc.Exited?
    ensures s.workers[w].node != s.workers[i].node
  {
    if s.workers[w].node == s.workers[i].node {
      if w < i {
        LiveWorkersAtLeastTwo(s.workers, w, i, s.workers[w].node);
      } else {
        LiveWorkersAtLeastTwo(s.workers, i, w, s.workers[w].node);
      }
    }
  }

  lemma ArrivePreserves(cfg: Config, s: System, step: Step)
    requires Inv(s) && step.Arrive? && Enabled(s, step)
    ensures Inv(Apply(cfg, s, step))
  {
    var s' := Apply(cfg, s, step);
    assert s'.callers[..|s'.callers| - 1] == s.callers;
    forall c | 0 <= c < |s'.callers|
      ensures CallerOk(s'.queues.life, s'.callers, c)
    {
      if c < |s.callers| {
        assert CallerOk(s.queues.life, s.callers, c);
      }
    }
  }

  /** Moving one caller between program points that count alike keeps every count. */
  lemma CallerMovePreserves(s: System, c: nat, pc: CallerPc)
    requires Inv(s) && c < |s.callers|
    requires !s.callers[c].pc.Arrived? && !pc.Arrived?
    requires forall id :: JoinedTo(s.callers[c].(pc := pc), id) == JoinedTo(s.callers[c], id)
    requires CallerOk(s.queues.life, s.callers[c := s.callers[c].(pc := pc)], c)
    ensures Inv(SetCaller(s, c, pc))
  {
    var s' := SetCaller(s, c, pc);
    QueuedCallsUpdate(s.callers, c, s'.callers[c]);
    forall id
      ensures JoinedCallers(s'.callers, id) == JoinedCallers(s.callers, id)
    {
      JoinedCallersUpdate(s.callers, c, s'.callers[c], id);
    }
    forall k | 0 <= k < |s'.callers|
      ensures CallerOk(s'.queues.life, s'.callers, k)
    {
      assert CallerOk(s.queues.life, s.callers, k);
    }
  }

  lemma ObservePreserves(cfg: Config, s: System, step: Step)
    requires Inv(s) && (step.ObserveStarted? || step.ObserveDone?) && Enabled(s, step)
    ensures Inv(Apply(cfg, s, step))
  {
    assert CallerOk(s.queues.life, s.callers, step.c);
    CallerMovePreserves(s, step.c, Apply(cfg, s, step).callers[step.c].pc);
  }

  // ---- Cancelling ---------------------------------------------------------------------------

  predicate DistinctIds(pending: seq<Request>) {
    forall j, k | 0 <= j < k < |pending| :: pending[j].id != pending[k].id
  }

  lemma WithoutKeeps(pending: seq<Request>, i: nat)
    requires i < |pending| && DistinctIds(pending)
    ensures DistinctIds(Without(pending, i))
    ensures forall p :: p in Without(pending, i) <==> p in pending && p != pending[i]
    ensures forall p | p in Without(pending, i) :: p.id != pending[i].id
  {
    var rest := Without(pending, i);
    assert forall j | 0 <= j < |rest| :: rest[j] == pending[if j < i then j else j + 1];
    forall p | p in pending && p != pending[i]
      ensures p in rest
    {
      var j :| 0 <= j < |pending| && pending[j] == p;
      assert rest[if j < i then j else j - 1] == p;
    }
  }

  /** What a successful `CancelSection` does, told without its arithmetic. */
  lemma CancelEffect(q: Queues, r: Request, k: CancelResult)
    requires k == CancelSection(q, r.id, r.node) && k.cancelled
    requires forall n | n in q.nodes :: PendingIn(q, n)
    requires Accepted(q.life, r)
    ensures r.node in q.nodes && r in q.nodes[r.node].pending && Untouched(q.life[r.id])
    ensures k.queues.nodes.Keys == q.nodes.Keys
    ensures forall n | n in q.nodes && n != r.node :: k.queues.nodes[n] == q.nodes[n]
    ensures k.queues.nodes[r.node].active == q.nodes[r.node].active
    ensures k.queues.nodes[r.node].running == q.nodes[r.node].running
    ensures q.nodes[r.node].active != Some(r)
    ensures r !in k.queues.nodes[r.node].pending
    ensures forall p | p in q.nodes[r.node].pending && p != r :: p in k.queues.nodes[r.node].pending
    ensures k.queues.life == q.life[r.id := q.life[r.id].(outcome := Some(QueueTimeout), completers := [ByCancel])]
    ensures forall n | n in k.queues.nodes :: PendingIn(k.queues, n)
  {
    var nq := QueueOf(q, r.node);
    var i := IndexOf(nq.pending, r.id);
    assert PendingIn(q, r.node);
    assert nq.pending[i] == r;
    assert q.life[r.id].completers + [ByCancel] == [ByCancel];
    WithoutKeeps(nq.pending, i);
    forall n | n in k.queues.nodes
      ensures PendingIn(k.queues, n)
    {
      PendingAfterCancel(q, r, k, n);
    }
  }

  lemma PendingAfterCancel(q: Queues, r: Request, k: CancelResult, n: string)
    requires k == CancelSection(q, r.id, r.node) && k.cancelled
    requires forall n | n in q.nodes :: PendingIn(q, n)
    requires Accepted(q.life, r) && n in k.queues.nodes
    ensures PendingIn(k.queues, n)
  {
    assert PendingIn(q, n) && PendingIn(q, r.node);
    WithoutKeeps(q.nodes[r.node].pending, IndexOf(q.nodes[r.node].pending, r.id));
  }

  lemma GiveUpPreserves(cfg: Config, s: System, step: Step)
    requires Inv(s) && step.GiveUp? && Enabled(s, step)
    ensures Inv(Apply(cfg, s, step))
  {
    var c := step.c;
    var pc := s.callers[c].pc;
    assert CallerOk(s.queues.life, s.callers, c);
    var s' := Apply(cfg, s, step);
    var k := CancelSection(s.queues, pc.target.id, pc.target.node);
    if pc.joined || !k.cancelled {
      CallerMovePreserves(s, c, s'.callers[c].pc);
    } else {
      CancelEffect(s.queues, pc.target, k);
      CancelledPreserves(s, c, k);
    }
  }

  lemma CancelledPreserves(s: System, c: nat, k: CancelResult)
    requires Inv(s) && c < |s.callers| && s.callers[c].pc.Waiting? && !s.callers[c].pc.joined
    requires k == CancelSection(s.queues, s.callers[c].pc.target.id, s.callers[c].pc.target.node) && k.cancelled
    ensures Inv(SetCaller(s.(queues := k.queues), c,
                          Returned(s.callers[c].pc.target, false, ThroughTimeout, QueueTimeout)))
  {
    assert CallerOk(s.queues.life, s.callers, c);
    var r := s.callers[c].pc.target;
    CancelEffect(s.queues, r, k);
    var m := s.(queues := k.queues);
    assert WorkersHoldActive(m);
    CancelKeepsLives(s.queues, r, k);
    CancelKeepsCallers(s, r, k);
    AcceptedUpdate(s.queues.life, m.queues.life, r.id, |s.callers|);
    CallerMovePreserves(m, c, Returned(r, false, ThroughTimeout, QueueTimeout));
  }

  lemma CancelKeepsLives(q: Queues, r: Request, k: CancelResult)
    requires k == CancelSection(q, r.id, r.node) && k.cancelled && Accepted(q.life, r)
    requires (forall n | n in q.nodes :: PendingIn(q, n)) && forall id | id in q.life :: LifeOk(q, id)
    ensures forall id | id in k.queues.life :: LifeOk(k.queues, id)
  {
    CancelEffect(q, r, k);
    forall id | id in k.queues.life
      ensures LifeOk(k.queues, id)
    {
      assert LifeOk(q, id);
    }
  }

  lemma CancelKeepsCallers(s: System, r: Request, k: CancelResult)
    requires Inv(s) && k == CancelSection(s.queues, r.id, r.node) && k.cancelled && Accepted(s.queues.life, r)
    ensures forall i | 0 <= i < |s.callers| :: CallerOk(k.queues.life, s.callers, i)
  {
    CancelEffect(s.queues, r, k);
    forall i | 0 <= i < |s.callers|
      ensures CallerOk(k.queues.life, s.callers, i)
    {
      assert CallerOk(s.queues.life, s.callers, i);
    }
  }

  // ---- The worker's steps -------------------------------------------------------------------

  /** A live worker that stays alive leaves every count of live workers alone. */
  lemma SameLiveWorkers(s: System, w: nat, pc: WorkerPc)
    requires w < |s.workers| && !s.workers[w].pc.Exited? && !pc.Exited?
    ensures forall n :: LiveWorkers(SetWorker(s, w, pc).workers, n) == LiveWorkers(s.workers, n)
  {
    forall n
      ensures LiveWorkers(SetWorker(s, w, pc).workers, n) == LiveWorkers(s.workers, n)
    {
      LiveWorkersUpdate(s.workers, w, s.workers[w].(pc := pc), n);
    }
  }

  lemma LaunchPreserves(cfg: Config, s: System, step: Step)
    requires Inv(s) && step.Launch? && Enabled(s, step)
    ensures Inv(Apply(cfg, s, step))
  {
    SameLiveWorkers(s, step.w, Choosing);
  }

  /** What a worker may do to the life `was` of the request it holds when it moves to `pc`. */
  predicate HeldUpdate(pc: WorkerPc, was: Life, l: Life) {
    && l.request == was.request && l.coalesced == was.coalesced
    && was.outcome.None? && was.completers == []
    && HeldLife(pc, l)
    && |l.completers| == (if l.outcome.Some? then 1 else 0) && l.completers != [ByCancel]
  }

  /** No other worker and no pending request shares the id a worker holds. */
  lemma HeldIdIsUnique(s: System, w: nat)
    requires Inv(s) && w < |s.workers| && Held(s.workers[w].pc).Some?
    ensures forall i | 0 <= i < |s.workers| && i != w && Held(s.workers[i].pc).Some? ::
              Held(s.workers[i].pc).value.id != Held(s.workers[w].pc).value.id
    ensures forall n | n in s.queues.nodes :: forall k | 0 <= k < |s.queues.nodes[n].pending| ::
              s.queues.nodes[n].pending[k].id != Held(s.workers[w].pc).value.id
  {
    forall i | 0 <= i < |s.workers| && i != w && Held(s.workers[i].pc).Some?
      ensures Held(s.workers[i].pc).value.id != Held(s.workers[w].pc).value.id
    {
      OtherWorkersElsewhere(s, w, i);
    }
    forall n | n in s.queues.nodes
      ensures forall k | 0 <= k < |s.queues.nodes[n].pending| ::
              s.queues.nodes[n].pending[k].id != Held(s.workers[w].pc).value.id
    {
      assert PendingIn(s.queues, n);
    }
  }

  /** A worker that updates the life of the request it holds disturbs nobody else. */
  lemma HeldUpdatePreserves(s: System, w: nat, pc: WorkerPc, l: Life)
    requires Inv(s) && w < |s.workers| && Held(s.workers[w].pc).Some?
    requires Held(pc) == Held(s.workers[w].pc) && !pc.Exited?
    requires HeldUpdate(pc, s.queues.life[Held(pc).value.id], l)
    ensures Inv(SetWorker(s.(queues := s.queues.(life := s.queues.life[Held(pc).value.id := l])), w, pc))
  {
    var r := Held(pc).value;
    var q' := s.queues.(life := s.queues.life[r.id := l]);
    var s' := SetWorker(s.(queues := q'), w, pc);
    SameLiveWorkers(s, w, pc);
    HeldIdIsUnique(s, w);
    assert OneWorkerPerEntry(s');
    assert WorkersHoldActive(s');
    forall n | n in q'.nodes
      ensures PendingIn(q', n)
    {
      assert PendingIn(s.queues, n);
    }
    HeldUpdateLives(s, w, pc, l);
  }

  lemma HeldUpdateLives(s: System, w: nat, pc: WorkerPc, l: Life)
    requires Inv(s) && w < |s.workers| && Held(s.workers[w].pc).Some?
    requires Held(pc) == Held(s.workers[w].pc) && !pc.Exited?
    requires HeldUpdate(pc, s.queues.life[Held(pc).value.id], l)
    ensures var s' := SetWorker(s.(queues := s.queues.(life := s.queues.life[Held(pc).value.id := l])), w, pc);
            LivesOk(s') && CallersOk(s') && CountsOk(s')
  {
    var r := Held(pc).value;
    var q' := s.queues.(life := s.queues.life[r.id := l]);
    assert LifeOk(s.queues, r.id);
    forall id | id in q'.life
      ensures LifeOk(q', id)
    {
      assert LifeOk(s.queues, id);
    }
    forall c | 0 <= c < |s.callers|
      ensures CallerOk(q'.life, s.callers, c)
    {
      assert CallerOk(s.queues.life, s.callers, c);
    }
    AcceptedUpdate(s.queues.life, q'.life, r.id, |s.callers|);
  }

  lemma HeldStepPreserves(cfg: Config, s: System, step: Step)
    requires Inv(s) && (step.AnnounceStart? || step.RunRequest? || step.CompleteRequest?) && Enabled(s, step)
    ensures Inv(Apply(cfg, s, step))
  {
    var s' := Apply(cfg, s, step);
    var pc := s'.workers[step.w].pc;
    var id := Held(pc).value.id;
    assert s.queues.life[id].completers + [ByWorker] == [ByWorker];
    assert s.queues.life == s.queues.life[id := s.queues.life[id]];
    HeldUpdatePreserves(s, step.w, pc, s'.queues.life[id]);
  }

  lemma FinishPreserves(cfg: Config, s: System, step: Step)
    requires Inv(s) && step.FinishRequest? && Enabled(s, step)
    ensures Inv(Apply(cfg, s, step))
  {
    var s' := Apply(cfg, s, step);
    SameLiveWorkers(s, step.w, Choosing);
    forall i | 0 <= i < |s.workers| && i != step.w && !s.workers[i].pc.Exited?
      ensures s.workers[i].node != s.workers[step.w].node
    {
      OtherWorkersElsewhere(s, step.w, i);
    }
    assert WorkersHoldActive(s');
    forall n | n in s'.queues.nodes
      ensures PendingIn(s'.queues, n)
    {
      assert PendingIn(s.queues, n);
    }
    forall id | id in s'.queues.life
      ensures LifeOk(s'.queues, id)
    {
      assert LifeOk(s.queues, id);
    }
  }

  lemma ChoosePreserves(cfg: Config, s: System, step: Step)
    requires Inv(s) && step.Choose? && Enabled(s, step)
    ensures Inv(Apply(cfg, s, step))
  {
    var s' := Apply(cfg, s, step);
    ChooseKeepsWorkers(cfg, s, step.w);
    ChooseKeepsRequests(cfg, s, step.w);
  }

  lemma ChooseKeepsWorkers(cfg: Config, s: System, w: nat)
    requires Inv(s) && Enabled(s, Choose(w))
    ensures OneWorkerPerEntry(Apply(cfg, s, Choose(w))) && WorkersHoldActive(Apply(cfg, s, Choose(w)))
  {
    var s' := Apply(cfg, s, Choose(w));
    var node := s.workers[w].node;
    assert PendingIn(s.queues, node);
    forall i | 0 <= i < |s.workers| && i != w && !s.workers[i].pc.Exited?
      ensures s.workers[i].node != node
    {
      OtherWorkersElsewhere(s, w, i);
    }
    forall n
      ensures LiveWorkers(s'.workers, n) == if n in s'.queues.nodes then 1 else 0
    {
      LiveWorkersUpdate(s.workers, w, s'.workers[w], n);
    }
  }

  lemma ChooseKeepsRequests(cfg: Config, s: System, w: nat)
    requires Inv(s) && Enabled(s, Choose(w))
    ensures PendingUntouched(Apply(cfg, s, Choose(w))) && LivesOk(Apply(cfg, s, Choose(w)))
  {
    var node := s.workers[w].node;
    var nq := s.queues.nodes[node];
    if nq.pending == [] {
      ExitKeepsRequests(s.queues, node);
    } else {
      DispatchKeepsPending(s.queues, node, Selected(cfg, nq.pending, s.clock));
      DispatchKeepsLives(s.queues, node, Selected(cfg, nq.pending, s.clock));
    }
  }

  lemma ExitKeepsRequests(q: Queues, node: string)
    requires forall n | n in q.nodes :: PendingIn(q, n)
    requires forall id | id in q.life :: LifeOk(q, id)
    requires node in q.nodes && q.nodes[node].active.None? && q.nodes[node].pending == []
    ensures var q' := q.(nodes := q.nodes - {node});
            (forall n | n in q'.nodes :: PendingIn(q', n)) && (forall id | id in q'.life :: LifeOk(q', id))
  {
    var q' := q.(nodes := q.nodes - {node});
    assert forall n | n in q'.nodes :: PendingIn(q, n) ==> PendingIn(q', n);
    assert forall id | id in q'.life :: LifeOk(q, id) ==> LifeOk(q', id);
  }

  /** The queues after `NextSection` takes the i-th pending request of a node. */
  function Dispatched(q: Queues, node: string, i: nat): Queues
    requires node in q.nodes && i < |q.nodes[node].pending|
  {
    var nq := q.nodes[node];
    q.(nodes := q.nodes[node := nq.(active := Some(nq.pending[i]), pending := Without(nq.pending, i))])
  }

  lemma DispatchKeepsPending(q: Queues, node: string, i: nat)
    requires forall n | n in q.nodes :: PendingIn(q, n)
    requires node in q.nodes && i < |q.nodes[node].pending|
    ensures forall n | n in Dispatched(q, node, i).nodes :: PendingIn(Dispatched(q, node, i), n)
  {
    var q' := Dispatched(q, node, i);
    assert PendingIn(q, node);
    WithoutKeeps(q.nodes[node].pending, i);
    forall n | n in q'.nodes
      ensures PendingIn(q', n)
    {
      assert PendingIn(q, n);
    }
  }

  lemma DispatchKeepsLives(q: Queues, node: string, i: nat)
    requires forall n | n in q.nodes :: PendingIn(q, n)
    requires forall id | id in q.life :: LifeOk(q, id)
    requires node in q.nodes && q.nodes[node].active.None? && i < |q.nodes[node].pending|
    ensures forall id | id in q.life :: LifeOk(Dispatched(q, node, i), id)
  {
    var q' := Dispatched(q, node, i);
    assert PendingIn(q, node);
    WithoutKeeps(q.nodes[node].pending, i);
    assert forall id | id in q.life :: LifeOk(q, id) ==> LifeOk(q', id);
  }

  // ---- Enqueueing ---------------------------------------------------------------------------

  lemma EnqueuePreserves(cfg: Config, s: System, step: Step)
    requires Inv(s) && step.Enqueue? && Enabled(s, step)
    ensures Inv(Apply(cfg, s, step))
  {
    assert CallerOk(s.queues.life, s.callers, step.c);
    var e := EnqueueSection(cfg, s.queues, s.callers[step.c].request);
    if e.joined {
      JoinPreserves(cfg, s, step.c);
    } else {
      AcceptPreserves(cfg, s, step.c);
    }
  }

  /** A duplicate is an accepted request other than the caller's own. */
  lemma DuplicateIsAccepted(cfg: Config, s: System, c: nat)
    requires Inv(s) && Enabled(s, Enqueue(c))
    ensures var e := EnqueueSection(cfg, s.queues, s.callers[c].request);
            e.joined ==>
              Accepted(s.queues.life, e.target) && e.target.id != c && s.callers[c].request.node in s.queues.nodes
  {
    var r := s.callers[c].request;
    assert CallerOk(s.queues.life, s.callers, c);
    if r.node in s.queues.nodes {
      assert PendingIn(s.queues, r.node);
      var w := LiveWorkersWitness(s.workers, r.node);
    }
  }

  lemma JoinPreserves(cfg: Config, s: System, c: nat)
    requires Inv(s) && Enabled(s, Enqueue(c))
    requires EnqueueSection(cfg, s.queues, s.callers[c].request).joined
    ensures Inv(Apply(cfg, s, Enqueue(c)))
  {
    var s' := Apply(cfg, s, Enqueue(c));
    DuplicateIsAccepted(cfg, s, c);
    assert s'.queues.nodes == s.queues.nodes;
    assert WorkersHoldActive(s');
    forall n | n in s'.queues.nodes
      ensures PendingIn(s'.queues, n)
    {
      assert PendingIn(s.queues, n);
    }
    assert forall id | id in s'.queues.life :: LifeOk(s.queues, id) && LifeOk(s'.queues, id);
    JoinKeepsCallers(cfg, s, c);
    JoinKeepsCounts(cfg, s, c);
  }

  lemma JoinKeepsCallers(cfg: Config, s: System, c: nat)
    requires Inv(s) && Enabled(s, Enqueue(c))
    requires EnqueueSection(cfg, s.queues, s.callers[c].request).joined
    ensures CallersOk(Apply(cfg, s, Enqueue(c)))
  {
    var s' := Apply(cfg, s, Enqueue(c));
    DuplicateIsAccepted(cfg, s, c);
    forall k | 0 <= k < |s'.callers|
      ensures CallerOk(s'.queues.life, s'.callers, k)
    {
      assert CallerOk(s.queues.life, s.callers, k);
    }
  }

  lemma JoinKeepsCounts(cfg: Config, s: System, c: nat)
    requires Inv(s) && Enabled(s, Enqueue(c))
    requires EnqueueSection(cfg, s.queues, s.callers[c].request).joined
    ensures CountsOk(Apply(cfg, s, Enqueue(c)))
  {
    var s' := Apply(cfg, s, Enqueue(c));
    var target := EnqueueSection(cfg, s.queues, s.callers[c].request).target;
    DuplicateIsAccepted(cfg, s, c);
    assert LifeOk(s.queues, target.id);
    forall id
      ensures JoinedCallers(s'.callers, id) == JoinedCallers(s.callers, id) + (if id == target.id then 1 else 0)
    {
      JoinedCallersUpdate(s.callers, c, s'.callers[c], id);
    }
    QueuedCallsUpdate(s.callers, c, s'.callers[c]);
    AcceptedUpdate(s.queues.life, s'.queues.life, target.id, |s.callers|);
  }

  lemma AcceptPreserves(cfg: Config, s: System, c: nat)
    requires Inv(s) && Enabled(s, Enqueue(c))
    requires !EnqueueSection(cfg, s.queues, s.callers[c].request).joined
    ensures Inv(Apply(cfg, s, Enqueue(c)))
  {
    AcceptKeepsWorkers(cfg, s, c);
    AcceptKeepsPending(cfg, s, c);
    AcceptKeepsLives(cfg, s, c);
    AcceptKeepsCallers(cfg, s, c);
    AcceptKeepsCounts(cfg, s, c);
  }

  lemma AcceptKeepsWorkers(cfg: Config, s: System, c: nat)
    requires Inv(s) && Enabled(s, Enqueue(c))
    requires !EnqueueSection(cfg, s.queues, s.callers[c].request).joined
    ensures OneWorkerPerEntry(Apply(cfg, s, Enqueue(c))) && WorkersHoldActive(Apply(cfg, s, Enqueue(c)))
  {
    var s' := Apply(cfg, s, Enqueue(c));
    var r := s.callers[c].request;
    assert CallerOk(s.queues.life, s.callers, c);
    forall n
      ensures LiveWorkers(s'.workers, n) == if n in s'.queues.nodes then 1 else 0
    {
      if |s'.workers| > |s.workers| {
        assert s'.workers[..|s'.workers| - 1] == s.workers;
      }
    }
    if r.node !in s.queues.nodes {
      forall i | 0 <= i < |s.workers| && !s.workers[i].pc.Exited?
        ensures s.workers[i].node != r.node
      {
      }
    }
  }

  lemma AcceptKeepsPending(cfg: Config, s: System, c: nat)
    requires Inv(s) && Enabled(s, Enqueue(c))
    requires !EnqueueSection(cfg, s.queues, s.callers[c].request).joined
    ensures PendingUntouched(Apply(cfg, s, Enqueue(c)))
  {
    var q' := Apply(cfg, s, Enqueue(c)).queues;
    forall n | n in q'.nodes
      ensures PendingIn(q', n)
    {
      AcceptKeepsPendingIn(cfg, s, c, n);
    }
  }

  lemma AcceptKeepsPendingIn(cfg: Config, s: System, c: nat, n: string)
    requires Inv(s) && Enabled(s, Enqueue(c))
    requires !EnqueueSection(cfg, s.queues, s.callers[c].request).joined
    requires n in Apply(cfg, s, Enqueue(c)).queues.nodes
    ensures PendingIn(Apply(cfg, s, Enqueue(c)).queues, n)
  {
    var r := s.callers[c].request;
    assert CallerOk(s.queues.life, s.callers, c);
    if n in s.queues.nodes {
      assert PendingIn(s.queues, n);
    }
    if r.node in s.queues.nodes {
      var w := LiveWorkersWitness(s.workers, r.node);
    }
    var life := Life(r, EffectiveWaitLimit(cfg, QueueOf(s.queues, r.node)), 0, false, None, [], 0);
    PendingAfterAccept(s.queues, r, life, n);
  }

  lemma PendingAfterAccept(q: Queues, r: Request, life: Life, n: string)
    requires r.id !in q.life && Untouched(life) && life.request == r
    requires n in q.nodes ==> PendingIn(q, n)
    requires n == r.node || n in q.nodes
    requires QueueOf(q, r.node).active.Some? ==> QueueOf(q, r.node).active.value.id in q.life
    ensures var nq := QueueOf(q, r.node);
            PendingIn(Queues(q.nodes[r.node := NodeQueue(nq.active, nq.pending + [r], true)], q.life[r.id := life]), n)
  {
  }

  lemma AcceptKeepsLives(cfg: Config, s: System, c: nat)
    requires Inv(s) && Enabled(s, Enqueue(c))
    requires !EnqueueSection(cfg, s.queues, s.callers[c].request).joined
    ensures LivesOk(Apply(cfg, s, Enqueue(c)))
  {
    var q' := Apply(cfg, s, Enqueue(c)).queues;
    assert CallerOk(s.queues.life, s.callers, c);
    forall id | id in q'.life
      ensures LifeOk(q', id)
    {
      if id in s.queues.life {
        assert LifeOk(s.queues, id);
      }
    }
  }

  lemma AcceptKeepsCallers(cfg: Config, s: System, c: nat)
    requires Inv(s) && Enabled(s, Enqueue(c))
    requires !EnqueueSection(cfg, s.queues, s.callers[c].request).joined
    ensures CallersOk(Apply(cfg, s, Enqueue(c)))
  {
    var s' := Apply(cfg, s, Enqueue(c));
    assert CallerOk(s.queues.life, s.callers, c);
    forall k | 0 <= k < |s'.callers|
      ensures CallerOk(s'.queues.life, s'.callers, k)
    {
      assert CallerOk(s.queues.life, s.callers, k);
    }
  }

  lemma AcceptKeepsCounts(cfg: Config, s: System, c: nat)
    requires Inv(s) && Enabled(s, Enqueue(c))
    requires !EnqueueSection(cfg, s.queues, s.callers[c].request).joined
    ensures CountsOk(Apply(cfg, s, Enqueue(c)))
  {
    var s' := Apply(cfg, s, Enqueue(c));
    assert CallerOk(s.queues.life, s.callers, c);
    forall id
      ensures JoinedCallers(s'.callers, id) == JoinedCallers(s.callers, id)
    {
      JoinedCallersUpdate(s.callers, c, s'.callers[c], id);
    }
    QueuedCallsUpdate(s.callers, c, s'.callers[c]);
    AcceptedUpdate(s.queues.life, s'.queues.life, c, |s.callers|);
  }

  // ---- Whole runs ---------------------------------------------------------------------------

  lemma StepPreserves(cfg: Config, s: System, step: Step)
    requires Inv(s) && Enabled(s, step)
    ensures Inv(Apply(cfg, s, step))
  {
    match step
    case Tick(_) =>
    case Arrive(_, _, _, _) => ArrivePreserves(cfg, s, step);
    case Enqueue(_) => EnqueuePreserves(cfg, s, step);
    case ObserveStarted(_) => ObservePreserves(cfg, s, step);
    case ObserveDone(_) => ObservePreserves(cfg, s, step);
    case GiveUp(_) => GiveUpPreserves(cfg, s, step);
    case Launch(_) => LaunchPreserves(cfg, s, step);
    case Choose(_) => ChoosePreserves(cfg, s, step);
    case AnnounceStart(_) => HeldStepPreserves(cfg, s, step);
    case RunRequest(_, _, _) => HeldStepPreserves(cfg, s, step);
    case CompleteRequest(_) => HeldStepPreserves(cfg, s, step);
    case FinishRequest(_) => FinishPreserves(cfg, s, step);
  }

  /** The invariant holds after every schedule. */
  lemma {:induction false} RunsKeepInv(cfg: Config, clock: Time, steps: seq<Step>)
    requires Exec(cfg, Init(clock), steps).Some?
    ensures Inv(Exec(cfg, Init(clock), steps).value)
  {
    if steps != [] {
      RunsKeepInv(cfg, clock, steps[..|steps| - 1]);
      StepPreserves(cfg, Exec(cfg, Init(clock), steps[..|steps| - 1]).value, steps[|steps| - 1]);
    }
  }

  lemma ReachableInv(cfg: Config, s: System)
    requires Reachable(cfg, s)
    ensures Inv(s)
  {
    var clock, steps :| Exec(cfg, Init(clock), steps) == Some(s);
    RunsKeepInv(cfg, clock, steps);
  }

  /**
  A node has an entry exactly when it has exactly one live worker, so a pending request always has
  a worker to serve it, and no two workers ever hold requests of one node.
  */
  lemma OneWorkerPerNode(cfg: Config, s: System, n: string)
    requires Reachable(cfg, s)
    ensures LiveWorkers(s.workers, n) == if n in s.queues.nodes then 1 else 0
    ensures QueueOf(s.queues, n).pending != [] ==> LiveWorkers(s.workers, n) == 1
    ensures forall i, j | 0 <= i < |s.workers| && 0 <= j < |s.workers|
                       && Held(s.workers[i].pc).Some? && Held(s.workers[j].pc).Some?
                       && Held(s.workers[i].pc).value.node == Held(s.workers[j].pc).value.node :: i == j
  {
    ReachableInv(cfg, s);
    forall i, j | 0 <= i < |s.workers| && 0 <= j < |s.workers|
               && Held(s.workers[i].pc).Some? && Held(s.workers[j].pc).Some?
               && Held(s.workers[i].pc).value.node == Held(s.workers[j].pc).value.node
      ensures i == j
    {
      if i != j {
        OtherWorkersElsewhere(s, i, j);
      }
    }
  }

  /** Worker `w` serves the node and is not blocked at its program point. */
  predicate WorkerCanStep(s: System, w: nat, node: string) {
    && w < |s.workers| && LiveOn(s.workers[w], node)
    && (|| Enabled(s, Launch(w)) || Enabled(s, Choose(w)) || Enabled(s, AnnounceStart(w))
        || Enabled(s, RunRequest(w, true, Success)) || Enabled(s, CompleteRequest(w)) || Enabled(s, FinishRequest(w)))
  }

  /**
  An accepted request has been completed at most once, by the canceller or by the worker but never
  by both; its function has run at most once, and not at all when the request was cancelled.
  */
  lemma RequestsCompleteOnce(cfg: Config, s: System, id: nat)
    requires Reachable(cfg, s) && id in s.queues.life
    ensures |s.queues.life[id].completers| == if s.queues.life[id].outcome.Some? then 1 else 0
    ensures s.queues.life[id].runs <= 1
    ensures ByCancel in s.queues.life[id].completers ==> s.queues.life[id].runs == 0
  {
    ReachableInv(cfg, s);
    assert LifeOk(s.queues, id);
  }

  /** Until it is completed, an accepted request is pending or active on a node whose worker can take a step. */
  lemma RequestsAreNotLost(cfg: Config, s: System, id: nat)
    requires Reachable(cfg, s) && id in s.queues.life && s.queues.life[id].outcome.None?
    ensures Live(s.queues, s.queues.life[id].request)
    ensures exists w :: WorkerCanStep(s, w, s.queues.life[id].request.node)
  {
    ReachableInv(cfg, s);
    assert LifeOk(s.queues, id);
    var node := s.queues.life[id].request.node;
    assert LiveWorkers(s.workers, node) == 1;
    var w := LiveWorkersWitness(s.workers, node);
    LiveWorkerCanStep(s, w, node);
  }

  lemma LiveWorkerCanStep(s: System, w: nat, node: string)
    requires w < |s.workers| && LiveOn(s.workers[w], node)
    ensures WorkerCanStep(s, w, node)
  {
  }

  /**
  The `Run` calls that were queued are the accepted requests plus the sum of their coalesced
  counters, and each counter is the number of callers that joined that request.
  */
  lemma CallsAreConserved(cfg: Config, s: System)
    requires Reachable(cfg, s)
    ensures QueuedCalls(s.callers) == AcceptedPlusCoalesced(s.queues.life, |s.callers|)
    ensures forall id | id in s.queues.life :: id < |s.callers|
    ensures forall id | id in s.queues.life :: s.queues.life[id].coalesced == JoinedCallers(s.callers, id)
  {
    ReachableInv(cfg, s);
  }

  /**
  A caller that returned through `done` got the error recorded for its target; a joined caller's
  own request was never accepted, so its function never runs; an owner that timed out was cancelled.
  */
  lemma CallersGetTheRecordedError(cfg: Config, s: System, c: nat)
    requires Reachable(cfg, s) && c < |s.callers| && s.callers[c].pc.Returned?
    ensures var pc := s.callers[c].pc;
            && Accepted(s.queues.life, pc.target)
            && (pc.via.ThroughDone? ==> s.queues.life[pc.target.id].outcome == Some(pc.err))
            && (pc.joined ==> c !in s.queues.life)
            && (!pc.joined ==> pc.target.id == c)
            && (!pc.joined && pc.via.ThroughTimeout? ==>
                  s.queues.life[c].runs == 0 && s.queues.life[c].outcome == Some(QueueTimeout))
  {
    ReachableInv(cfg, s);
    assert CallerOk(s.queues.life, s.callers, c);
    assert LifeOk(s.queues, s.callers[c].pc.target.id);
  }

  // ---- Deduplication ------------------------------------------------------------------------

  lemma WithoutKeepsNoTwins(nq: NodeQueue, i: nat)
    requires i < |nq.pending| && NoTwinsIn(nq)
    ensures NoTwinsIn(nq.(pending := Without(nq.pending, i)))
    ensures NoTwinsIn(nq.(active := Some(nq.pending[i]), pending := Without(nq.pending, i)))
  {
    var rest := Without(nq.pending, i);
    assert forall k | 0 <= k < |rest| :: rest[k] == nq.pending[if k < i then k else k + 1];
  }

  lemma EnqueueKeepsNoTwins(cfg: Config, q: Queues, r: Request)
    requires cfg.dedupe && NoTwins(q)
    ensures NoTwins(EnqueueSection(cfg, q, r).queues)
  {
    var nq := QueueOf(q, r.node);
    if FindDuplicate(nq, r).None? {
      assert NoTwinsIn(NodeQueue(nq.active, nq.pending + [r], true));
    }
  }

  lemma StepKeepsNoTwins(cfg: Config, s: System, step: Step)
    requires cfg.dedupe && NoTwins(s.queues) && Enabled(s, step)
    ensures NoTwins(Apply(cfg, s, step).queues)
  {
    match step
    case Enqueue(c) => EnqueueKeepsNoTwins(cfg, s.queues, s.callers[c].request);
    case Choose(w) =>
      var nq := QueueOf(s.queues, s.workers[w].node);
      if nq.pending != [] {
        WithoutKeepsNoTwins(nq, Selected(cfg, nq.pending, s.clock));
      }
    case GiveUp(c) =>
      var r := s.callers[c].pc.target;
      var nq := QueueOf(s.queues, r.node);
      if IndexOf(nq.pending, r.id) < |nq.pending| {
        WithoutKeepsNoTwins(nq, IndexOf(nq.pending, r.id));
      }
    case FinishRequest(w) =>
      var nq := QueueOf(s.queues, s.workers[w].node);
      assert NoTwinsIn(nq) ==> NoTwinsIn(nq.(active := None));
    case _ =>
  }

  /** While deduplication is on, no two live requests of a node share operation and volume. */
  lemma {:induction false} RunsKeepNoTwins(cfg: Config, clock: Time, steps: seq<Step>)
    requires cfg.dedupe && Exec(cfg, Init(clock), steps).Some?
    ensures NoTwins(Exec(cfg, Init(clock), steps).value.queues)
  {
    if steps != [] {
      RunsKeepNoTwins(cfg, clock, steps[..|steps| - 1]);
      StepKeepsNoTwins(cfg, Exec(cfg, Init(clock), steps[..|steps| - 1]).value, steps[|steps| - 1]);
    }
  }
}
