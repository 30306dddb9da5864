/**
Every interleaving of the hotplug queue. A state holds the shared queues, one program counter
per worker goroutine and one per `Run` call; a step is one critical section or one unlocked action.
*/
module HotplugQueueSystem {
  import opened Basics
  import opened HotplugQueue

  /** `Launching` is the time between the decision to start a worker and its first instruction. */
  datatype WorkerPc =
    | Launching
    | Choosing
    | Chosen(r: Request)
    | Started(r: Request)
    | Ran(r: Request, err: Outcome)
    | Completed(r: Request)
    | Exited

  datatype Worker = Worker(node: string, pc: WorkerPc)

  datatype Via = ThroughDone | ThroughTimeout

  datatype CallerPc =
    | Arrived
    | Waiting(target: Request, joined: bool)
    | Awaiting(target: Request)
    | Returned(target: Request, joined: bool, via: Via, err: Outcome)

  /** One `Run` call; the i-th call to reach the sequence counter gets request id i. */
  datatype Caller = Caller(request: Request, pc: CallerPc)

  datatype System = System(queues: Queues, workers: seq<Worker>, callers: seq<Caller>, clock: Time)

  datatype Step =
    | Tick(elapsed: nat)
    | Arrive(node: string, operation: string, volume: string, priority: Priority)
    | Enqueue(c: nat)
    | ObserveStarted(c: nat)
    | ObserveDone(c: nat)
    | GiveUp(c: nat)
    | Launch(w: nat)
    | Choose(w: nat)
    | AnnounceStart(w: nat)
    | RunRequest(w: nat, executes: bool, err: Outcome)
    | CompleteRequest(w: nat)
    | FinishRequest(w: nat)

  const InitialQueues := Queues(map[], map[])

  function Init(clock: Time): System {
    System(InitialQueues, [], [], clock)
  }

  predicate Enabled(s: System, step: Step) {
    var life := s.queues.life;
    match step
    case Tick(_) => true
    case Arrive(node, _, _, _) => node != ""
    case Enqueue(c) => c < |s.callers| && s.callers[c].pc.Arrived?
    case ObserveStarted(c) =>
      && c < |s.callers| && s.callers[c].pc.Waiting? && !s.callers[c].pc.joined
      && s.callers[c].pc.target.id in life && life[s.callers[c].pc.target.id].started
    case ObserveDone(c) =>
      && c < |s.callers| && (s.callers[c].pc.Waiting? || s.callers[c].pc.Awaiting?)
      && s.callers[c].pc.target.id in life && life[s.callers[c].pc.target.id].outcome.Some?
    case GiveUp(c) => c < |s.callers| && s.callers[c].pc.Waiting?
    case Launch(w) => w < |s.workers| && s.workers[w].pc.Launching?
    case Choose(w) => w < |s.workers| && s.workers[w].pc.Choosing?
    case AnnounceStart(w) => w < |s.workers| && s.workers[w].pc.Chosen?
    case RunRequest(w, _, _) => w < |s.workers| && s.workers[w].pc.Started?
    case CompleteRequest(w) => w < |s.workers| && s.workers[w].pc.Ran?
    case FinishRequest(w) => w < |s.workers| && s.workers[w].pc.Completed?
  }

  function SetWorker(s: System, w: nat, pc: WorkerPc): System
    requires w < |s.workers|
  {
    s.(workers := s.workers[w := s.workers[w].(pc := pc)])
  }

  function SetCaller(s: System, c: nat, pc: CallerPc): System
    requires c < |s.callers|
  {
    s.(callers := s.callers[c := s.callers[c].(pc := pc)])
  }

  /** The life of request `id` after `f`-like updates; a missing id leaves the map alone. */
  function MarkStarted(life: map<nat, Life>, id: nat): map<nat, Life> {
    if id in life then life[id := life[id].(started := true)] else life
  }

  function CountRun(life: map<nat, Life>, id: nat): map<nat, Life> {
    if id in life then life[id := life[id].(runs := life[id].runs + 1)] else life
  }

  function Apply(cfg: Config, s: System, step: Step): System
    requires Enabled(s, step)
  {
    var q := s.queues;
    match step
    case Tick(elapsed) => s.(clock := s.clock + elapsed)
    case Arrive(node, operation, volume, priority) =>
      var r := Request(|s.callers|, node, operation, volume, priority, s.clock);
      s.(callers := s.callers + [Caller(r, Arrived)])
    case Enqueue(c) =>
      var r := s.callers[c].request;
      var e := EnqueueSection(cfg, q, r);
      var s' := SetCaller(s.(queues := e.queues), c, Waiting(e.target, e.joined));
      if e.startWorker then s'.(workers := s'.workers + [Worker(r.node, Launching)]) else s'
    case ObserveStarted(c) => SetCaller(s, c, Awaiting(s.callers[c].pc.target))
    case ObserveDone(c) =>
      var pc := s.callers[c].pc;
      SetCaller(s, c, Returned(pc.target, pc.Waiting? && pc.joined, ThroughDone, q.life[pc.target.id].outcome.value))
    case GiveUp(c) =>
      var pc := s.callers[c].pc;
      if pc.joined then SetCaller(s, c, Returned(pc.target, true, ThroughTimeout, QueueTimeout))
      else
        var k := CancelSection(q, pc.target.id, pc.target.node);
        SetCaller(s.(queues := k.queues), c,
                  if k.cancelled then Returned(pc.target, false, ThroughTimeout, QueueTimeout) else Awaiting(pc.target))
    case Launch(w) => SetWorker(s, w, Choosing)
    case Choose(w) =>
      var n := NextSection(cfg, q, s.workers[w].node, s.clock);
      SetWorker(s.(queues := n.queues), w, if n.chosen.Some? then Chosen(n.chosen.value) else Exited)
    case AnnounceStart(w) =>
      var r := s.workers[w].pc.r;
      SetWorker(s.(queues := q.(life := MarkStarted(q.life, r.id))), w, Started(r))
    case RunRequest(w, executes, err) =>
      var r := s.workers[w].pc.r;
      var life := if executes then CountRun(q.life, r.id) else q.life;
      SetWorker(s.(queues := q.(life := life)), w, Ran(r, err))
    case CompleteRequest(w) =>
      var r := s.workers[w].pc.r;
      SetWorker(s.(queues := q.(life := Complete(q.life, r.id, s.workers[w].pc.err, ByWorker))), w, Completed(r))
    case FinishRequest(w) =>
      var r := s.workers[w].pc.r;
      SetWorker(s.(queues := FinishSection(q, s.workers[w].node, r.id)), w, Choosing)
  }

  /** The state after a whole schedule, or None when the schedule takes a step that is not enabled. */
  function Exec(cfg: Config, s: System, steps: seq<Step>): Option<System> {
    if steps == [] then Some(s)
    else
      var before := Exec(cfg, s, steps[..|steps| - 1]);
      var step := steps[|steps| - 1];
      if before.None? || !Enabled(before.value, step) then None else Some(Apply(cfg, before.value, step))
  }

  // ---- Counting -----------------------------------------------------------------------------

  predicate LiveOn(w: Worker, node: string) {
    w.node == node && !w.pc.Exited?
  }

  function LiveWorkers(ws: seq<Worker>, node: string): nat {
    if ws == [] then 0
    else LiveWorkers(ws[..|ws| - 1], node) + (if LiveOn(ws[|ws| - 1], node) then 1 else 0)
  }

  predicate JoinedTo(c: Caller, id: nat) {
    (c.pc.Waiting? || c.pc.Returned?) && c.pc.joined && c.pc.target.id == id
  }

  function JoinedCallers(cs: seq<Caller>, id: nat): nat {
    if cs == [] then 0
    else JoinedCallers(cs[..|cs| - 1], id) + (if JoinedTo(cs[|cs| - 1], id) then 1 else 0)
  }

  /** The `Run` calls that have passed `enqueue`. */
  function QueuedCalls(cs: seq<Caller>): nat {
    if cs == [] then 0
    else QueuedCalls(cs[..|cs| - 1]) + (if cs[|cs| - 1].pc.Arrived? then 0 else 1)
  }

  /** Over the ids below k: one for each accepted request plus its coalesced counter. */
  function AcceptedPlusCoalesced(life: map<nat, Life>, k: nat): nat {
    if k == 0 then 0
    else AcceptedPlusCoalesced(life, k - 1) + (if k - 1 in life then 1 + life[k - 1].coalesced else 0)
  }

  lemma {:induction false} LiveWorkersUpdate(ws: seq<Worker>, i: nat, w: Worker, node: string)
    requires i < |ws|
    ensures LiveWorkers(ws[i := w], node)
         == LiveWorkers(ws, node) - (if LiveOn(ws[i], node) then 1 else 0) + (if LiveOn(w, node) then 1 else 0)
  {
    var last := |ws| - 1;
    if i == last {
      assert ws[i := w][..last] == ws[..last];
    } else {
      assert ws[i := w][..last] == ws[..last][i := w];
      LiveWorkersUpdate(ws[..last], i, w, node);
    }
  }

  lemma {:induction false} LiveWorkersAtLeast(ws: seq<Worker>, i: nat, node: string)
    requires i < |ws| && LiveOn(ws[i], node)
    ensures LiveWorkers(ws, node) >= 1
  {
    if i < |ws| - 1 {
      LiveWorkersAtLeast(ws[..|ws| - 1], i, node);
    }
  }

  lemma {:induction false} LiveWorkersAtLeastTwo(ws: seq<Worker>, i: nat, j: nat, node: string)
    requires i < j < |ws| && LiveOn(ws[i], node) && LiveOn(ws[j], node)
    ensures LiveWorkers(ws, node) >= 2
  {
    if j < |ws| - 1 {
      LiveWorkersAtLeastTwo(ws[..|ws| - 1], i, j, node);
    } else {
      LiveWorkersAtLeast(ws[..|ws| - 1], i, node);
    }
  }

  lemma {:induction false} LiveWorkersWitness(ws: seq<Worker>, node: string) returns (i: nat)
    requires LiveWorkers(ws, node) >= 1
    ensures i < |ws| && LiveOn(ws[i], node)
  {
    if LiveOn(ws[|ws| - 1], node) {
      i := |ws| - 1;
    } else {
      i := LiveWorkersWitness(ws[..|ws| - 1], node);
    }
  }

  lemma {:induction false} JoinedCallersUpdate(cs: seq<Caller>, i: nat, c: Caller, id: nat)
    requires i < |cs|
    ensures JoinedCallers(cs[i := c], id)
         == JoinedCallers(cs, id) - (if JoinedTo(cs[i], id) then 1 else 0) + (if JoinedTo(c, id) then 1 else 0)
  {
    var last := |cs| - 1;
    if i == last {
      assert cs[i := c][..last] == cs[..last];
    } else {
      assert cs[i := c][..last] == cs[..last][i := c];
      JoinedCallersUpdate(cs[..last], i, c, id);
    }
  }

  lemma {:induction false} QueuedCallsUpdate(cs: seq<Caller>, i: nat, c: Caller)
    requires i < |cs|
    ensures QueuedCalls(cs[i := c])
         == QueuedCalls(cs) - (if cs[i].pc.Arrived? then 0 else 1) + (if c.pc.Arrived? then 0 else 1)
  {
    var last := |cs| - 1;
    if i == last {
      assert cs[i := c][..last] == cs[..last];
    } else {
      assert cs[i := c][..last] == cs[..last][i := c];
      QueuedCallsUpdate(cs[..last], i, c);
    }
  }

  function Weight(life: map<nat, Life>, id: nat): nat {
    if id in life then 1 + life[id].coalesced else 0
  }

  /** Changing one entry changes the total by that entry's weight. */
  lemma {:induction false} AcceptedUpdate(life: map<nat, Life>, life': map<nat, Life>, id: nat, k: nat)
    requires forall j: nat | j != id :: Weight(life', j) == Weight(life, j)
    ensures AcceptedPlusCoalesced(life', k)
         == AcceptedPlusCoalesced(life, k) + (if id < k then Weight(life', id) - Weight(life, id) else 0)
  {
    if k > 0 {
      AcceptedUpdate(life, life', id, k - 1);
      assert k - 1 != id ==> Weight(life', k - 1) == Weight(life, k - 1);
    }
  }

  // ---- The invariant ------------------------------------------------------------------------

  predicate Live(q: Queues, r: Request) {
    r.node in q.nodes && (r in q.nodes[r.node].pending || q.nodes[r.node].active == Some(r))
  }

  function Held(pc: WorkerPc): Option<Request> {
    match pc
    case Chosen(r) => Some(r)
    case Started(r) => Some(r)
    case Ran(r, _) => Some(r)
    case Completed(r) => Some(r)
    case _ => None
  }

  predicate Accepted(life: map<nat, Life>, r: Request) {
    r.id in life && life[r.id].request == r
  }

  predicate Untouched(l: Life) {
    !l.started && l.outcome.None? && l.completers == [] && l.runs == 0
  }

  /** What the life of the request a worker holds says at each program point. */
  predicate HeldLife(pc: WorkerPc, l: Life) {
    match pc
    case Chosen(_) => Untouched(l)
    case Started(_) => l.started && l.outcome.None? && l.completers == [] && l.runs == 0
    case Ran(_, _) => l.started && l.outcome.None? && l.completers == [] && l.runs <= 1
    case Completed(_) => l.started && l.outcome.Some? && l.completers == [ByWorker] && l.runs <= 1
    case _ => true
  }

  /** An entry exists exactly when one worker lives, and it is marked running. */
  ghost predicate OneWorkerPerEntry(s: System) {
    && (forall n :: LiveWorkers(s.workers, n) == if n in s.queues.nodes then 1 else 0)
    && (forall n | n in s.queues.nodes :: s.queues.nodes[n].running)
  }

  /** What a live worker holds is what its entry calls active. */
  ghost predicate WorkersHoldActive(s: System) {
    forall i | 0 <= i < |s.workers| && !s.workers[i].pc.Exited? ::
      && s.workers[i].node in s.queues.nodes
      && s.queues.nodes[s.workers[i].node].active == Held(s.workers[i].pc)
      && (Held(s.workers[i].pc).Some? ==>
            var r := Held(s.workers[i].pc).value;
            r.node == s.workers[i].node && Accepted(s.queues.life, r) && HeldLife(s.workers[i].pc, s.queues.life[r.id]))
  }

  ghost predicate PendingIn(q: Queues, n: string)
    requires n in q.nodes
  {
    var nq := q.nodes[n];
    && (forall k | 0 <= k < |nq.pending| ::
          nq.pending[k].node == n && Accepted(q.life, nq.pending[k]) && Untouched(q.life[nq.pending[k].id]))
    && (forall j, k | 0 <= j < k < |nq.pending| :: nq.pending[j].id != nq.pending[k].id)
    && (nq.active.Some? ==> forall k | 0 <= k < |nq.pending| :: nq.pending[k].id != nq.active.value.id)
  }

  ghost predicate PendingUntouched(s: System) {
    forall n | n in s.queues.nodes :: PendingIn(s.queues, n)
  }

  /** Completed at most once, run at most once, never both cancelled and run, never lost. */
  predicate LifeOk(q: Queues, id: nat)
    requires id in q.life
  {
    var l := q.life[id];
    && l.request.id == id
    && |l.completers| == (if l.outcome.Some? then 1 else 0)
    && l.runs <= 1
    && (l.completers == [ByCancel] ==> l.runs == 0 && !l.started && l.outcome == Some(QueueTimeout))
    && (l.outcome.None? ==> Live(q, l.request))
  }

  ghost predicate LivesOk(s: System) {
    forall id | id in s.queues.life :: LifeOk(s.queues, id)
  }

  predicate CallerOk(life: map<nat, Life>, cs: seq<Caller>, c: nat)
    requires c < |cs|
  {
    var pc := cs[c].pc;
    && cs[c].request.id == c
    && (pc.Arrived? ==> c !in life)
    && (!pc.Arrived? ==> Accepted(life, pc.target))
    && (pc.Waiting? ==> if pc.joined then c !in life else pc.target == cs[c].request)
    && (pc.Awaiting? ==> pc.target == cs[c].request)
    && (pc.Returned? ==>
          && (if pc.joined then c !in life else pc.target == cs[c].request)
          && (pc.via.ThroughDone? ==> life[pc.target.id].outcome == Some(pc.err))
          && (pc.via.ThroughTimeout? ==> pc.err == QueueTimeout)
          && (pc.via.ThroughTimeout? && !pc.joined ==> life[c].completers == [ByCancel]))
  }

  ghost predicate CallersOk(s: System) {
    && (forall c | 0 <= c < |s.callers| :: CallerOk(s.queues.life, s.callers, c))
    && (forall id | id in s.queues.life :: id < |s.callers|)
  }

  ghost predicate CountsOk(s: System) {
    && (forall id | id in s.queues.life :: s.queues.life[id].coalesced == JoinedCallers(s.callers, id))
    && (forall id | id !in s.queues.life :: JoinedCallers(s.callers, id) == 0)
    && QueuedCalls(s.callers) == AcceptedPlusCoalesced(s.queues.life, |s.callers|)
  }

  ghost predicate Inv(s: System) {
    && OneWorkerPerEntry(s)
    && WorkersHoldActive(s)
    && PendingUntouched(s)
    && LivesOk(s)
    && CallersOk(s)
    && CountsOk(s)
  }

  /** No two live requests of one node ask for the same operation on the same volume. */
  ghost predicate NoTwinsIn(nq: NodeQueue) {
    && (forall j, k | 0 <= j < k < |nq.pending| :: !SameWork(nq.pending[j], nq.pending[k]))
    && (nq.active.Some? ==> forall k | 0 <= k < |nq.pending| :: !SameWork(nq.active.value, nq.pending[k]))
  }

  ghost predicate NoTwins(q: Queues) {
    forall n | n in q.nodes :: NoTwinsIn(q.nodes[n])
  }

  /** Some schedule leads from a manager without requests to this state. */
  ghost predicate Reachable(cfg: Config, s: System) {
    exists clock, steps :: Exec(cfg, Init(clock), steps) == Some(s)
  }
}
