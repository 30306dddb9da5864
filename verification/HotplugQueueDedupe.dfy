/** Who joins whom in the hotplug queue, told by the fields of the requests. */
module HotplugQueueDedupe {
  import opened Basics
  import opened HotplugQueue
  import opened HotplugQueueSystem
  import opened HotplugQueueInvariant

  /**
  A request joins exactly when one for its own node, operation and volume runs or waits there, and
  then it joins such a request; otherwise it is accepted itself, as the last one of its node.
  */
  lemma JoinsIff(cfg: Config, q: Queues, r: Request)
    ensures var e, nq := EnqueueSection(cfg, q, r), QueueOf(q, r.node);
            && (e.joined <==> cfg.dedupe && Asked(nq, r.node, r.operation, r.volume))
            && (e.joined ==> Outstanding(nq, e.target) && QueueOf(e.queues, r.node) == nq)
            && (!e.joined ==> e.target == r && QueueOf(e.queues, r.node).pending == nq.pending + [r])
            && (!e.joined ==> r.id in e.queues.life && e.queues.life[r.id].waitLimit == EffectiveWaitLimit(cfg, nq))
            && e.target.node == r.node && e.target.operation == r.operation && e.target.volume == r.volume
  {
    var nq := QueueOf(q, r.node);
    if FindDuplicate(nq, r).Some? {
      assert Outstanding(nq, FindDuplicate(nq, r).value);
    }
  }

  /** In every run the node need not be compared: a node's queue holds no other node's requests. */
  lemma JoinsIffInRuns(cfg: Config, s: System, c: nat)
    requires Reachable(cfg, s) && Enabled(s, Enqueue(c))
    ensures var r := s.callers[c].request;
            EnqueueSection(cfg, s.queues, r).joined <==>
            cfg.dedupe && exists p | Outstanding(QueueOf(s.queues, r.node), p) ::
                            p.operation == r.operation && p.volume == r.volume
  {
    var r := s.callers[c].request;
    JoinsIff(cfg, s.queues, r);
    ReachableInv(cfg, s);
    forall p | Outstanding(QueueOf(s.queues, r.node), p)
      ensures p.node == r.node
    {
      OutstandingIsHere(s, r.node, p);
    }
  }

  lemma OutstandingIsHere(s: System, node: string, p: Request)
    requires Inv(s) && Outstanding(QueueOf(s.queues, node), p)
    ensures p.node == node
  {
    assert PendingIn(s.queues, node);
    if s.queues.nodes[node].active == Some(p) {
      var w := LiveWorkersWitness(s.workers, node);
      assert Held(s.workers[w].pc) == Some(p);
    }
  }

  /** While deduplication is on, a node never has two requests for one operation on one volume. */
  lemma OneRequestPerWork(cfg: Config, clock: Time, steps: seq<Step>, node: string, p: Request, q: Request)
    requires cfg.dedupe && Exec(cfg, Init(clock), steps).Some?
    requires var nq := QueueOf(Exec(cfg, Init(clock), steps).value.queues, node);
             Outstanding(nq, p) && Outstanding(nq, q) && p.operation == q.operation && p.volume == q.volume
    ensures p == q
  {
    var s := Exec(cfg, Init(clock), steps).value;
    RunsKeepNoTwins(cfg, clock, steps);
    RunsKeepInv(cfg, clock, steps);
    OutstandingIsHere(s, node, p);
    OutstandingIsHere(s, node, q);
    assert NoTwinsIn(s.queues.nodes[node]);
  }

  /** Every caller past `enqueue` waits for its own operation on its own volume of its own node. */
  ghost predicate OwnWork(s: System) {
    forall c | 0 <= c < |s.callers| && !s.callers[c].pc.Arrived? ::
      var own, target := s.callers[c].request, s.callers[c].pc.target;
      target.node == own.node && target.operation == own.operation && target.volume == own.volume
  }

  lemma StepKeepsOwnWork(cfg: Config, s: System, step: Step)
    requires OwnWork(s) && Enabled(s, step)
    ensures OwnWork(Apply(cfg, s, step))
  {
    if step.Enqueue? {
      JoinsIff(cfg, s.queues, s.callers[step.c].request);
    }
  }

  lemma {:induction false} RunsKeepOwnWork(cfg: Config, clock: Time, steps: seq<Step>)
    requires Exec(cfg, Init(clock), steps).Some?
    ensures OwnWork(Exec(cfg, Init(clock), steps).value)
  {
    if steps != [] {
      RunsKeepOwnWork(cfg, clock, steps[..|steps| - 1]);
      StepKeepsOwnWork(cfg, Exec(cfg, Init(clock), steps[..|steps| - 1]).value, steps[|steps| - 1]);
    }
  }

  /** A call that returns through done returns what its own operation on its own volume ended with. */
  lemma CallersGetTheirOwnResult(cfg: Config, clock: Time, steps: seq<Step>, c: nat)
    requires Exec(cfg, Init(clock), steps).Some? && c < |Exec(cfg, Init(clock), steps).value.callers|
    requires var pc := Exec(cfg, Init(clock), steps).value.callers[c].pc; pc.Returned? && pc.via.ThroughDone?
    ensures var s := Exec(cfg, Init(clock), steps).value;
            var own, pc := s.callers[c].request, s.callers[c].pc;
            && pc.target.id in s.queues.life && s.queues.life[pc.target.id].outcome == Some(pc.err)
            && var served := s.queues.life[pc.target.id].request;
            served.node == own.node && served.operation == own.operation && served.volume == own.volume
  {
    RunsKeepOwnWork(cfg, clock, steps);
    RunsKeepInv(cfg, clock, steps);
    assert CallerOk(Exec(cfg, Init(clock), steps).value.queues.life, Exec(cfg, Init(clock), steps).value.callers, c);
  }

  // ---- How long an accepted request may wait ------------------------------------------------

  function AtMost(cap: Duration, wait: Duration): Duration {
    if 0 < cap < wait then cap else wait
  }

  /** The first request of a node waits for the configured time. */
  lemma WaitLimitOfEmpty(cfg: Config)
    ensures EffectiveWaitLimit(cfg, EmptyQueue) == if cfg.maxWait <= 0 then 0 else AtMost(cfg.maxWaitCap, cfg.maxWait)
  {
  }

  /** Each further request ahead of it, waiting or active, adds the time per item, up to the cap. */
  lemma WaitLimitGrows(cfg: Config, q: NodeQueue, r: Request)
    ensures var limit, longer := EffectiveWaitLimit(cfg, q), q.(pending := q.pending + [r]);
            EffectiveWaitLimit(cfg, longer) ==
            if cfg.maxWait <= 0 || cfg.perItemWait <= 0 then limit else AtMost(cfg.maxWaitCap, limit + cfg.perItemWait)
    ensures q.active.None? ==>
              EffectiveWaitLimit(cfg, q.(active := Some(r))) == EffectiveWaitLimit(cfg, q.(pending := q.pending + [r]))
  {
    var depth := |q.pending| + (if q.active.Some? then 1 else 0);
    assert (depth + 1) * cfg.perItemWait == depth * cfg.perItemWait + cfg.perItemWait;
    assert cfg.perItemWait > 0 ==> depth * cfg.perItemWait >= 0;
  }
}
