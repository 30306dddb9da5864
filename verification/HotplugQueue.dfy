/**
The per-node hotplug queue: its data, its four critical sections as functions on values, and
the manager class whose methods carry them out in place.
*/
module HotplugQueue {
  import opened Basics

  /** `Background` also stands for every priority string the driver does not know. */
  datatype Priority = Critical | Normal | Background

  /** What `Run` fixes when it builds a request; the mutable rest is in `Life`. */
  datatype Request = Request(id: nat, node: string, operation: string, volume: string,
                             priority: Priority, enqueuedAt: Time)

  /** The error a request ends with; `Failed` carries an arbitrary error. */
  datatype Outcome = Success | QueueTimeout | Failed(code: int)

  /** Who called `complete` on a request. */
  datatype Completer = ByCancel | ByWorker

  /** The mutable part of an accepted request, with a record of who completed it and how often its function ran. */
  datatype Life = Life(request: Request, waitLimit: Duration, coalesced: nat, started: bool,
                       outcome: Option<Outcome>, completers: seq<Completer>, runs: nat)

  datatype NodeQueue = NodeQueue(active: Option<Request>, pending: seq<Request>, running: bool)

  datatype Queues = Queues(nodes: map<string, NodeQueue>, life: map<nat, Life>)

  datatype Config = Config(maxWait: Duration, ageBoost: Duration, dedupe: bool,
                           perItemWait: Duration, maxWaitCap: Duration)

  const EmptyQueue := NodeQueue(None, [], false)

  // ---- Pure helpers -------------------------------------------------------------------------

  function Base(p: Priority): int {
    match p
    case Critical => 0
    case Normal => 1
    case Background => 2
  }

  function EffectivePriority(cfg: Config, r: Request, now: Time): int {
    var base := Base(r.priority);
    if cfg.ageBoost <= 0 then base
    else
      var boosts := TruncatedQuotient(now - r.enqueuedAt, cfg.ageBoost);
      base - (if boosts > base then base else boosts)
  }

  predicate SameWork(a: Request, b: Request) {
    a.node == b.node && a.operation == b.operation && a.volume == b.volume
  }

  function FirstSame(pending: seq<Request>, r: Request): (found: Option<Request>)
    ensures found.Some? ==> found.value in pending && SameWork(found.value, r)
    ensures found.None? <==> forall p | p in pending :: !SameWork(p, r)
  {
    if pending == [] then None
    else if SameWork(pending[0], r) then Some(pending[0])
    else FirstSame(pending[1..], r)
  }

  /** The request runs or waits on this node. */
  predicate Outstanding(q: NodeQueue, r: Request) {
    q.active == Some(r) || r in q.pending
  }

  /** This operation on this volume of this node was asked for and is not finished. */
  ghost predicate Asked(q: NodeQueue, node: string, operation: string, volume: string) {
    exists p | Outstanding(q, p) :: p.node == node && p.operation == operation && p.volume == volume
  }

  function FindDuplicate(q: NodeQueue, r: Request): Option<Request> {
    if q.active.Some? && SameWork(q.active.value, r) then q.active else FirstSame(q.pending, r)
  }

  function EffectiveWaitLimit(cfg: Config, q: NodeQueue): Duration {
    if cfg.maxWait <= 0 then 0
    else
      var depth := |q.pending| + (if q.active.Some? then 1 else 0);
      var wait := cfg.maxWait + (if cfg.perItemWait > 0 then depth * cfg.perItemWait else 0);
      if cfg.maxWaitCap > 0 && wait > cfg.maxWaitCap then cfg.maxWaitCap else wait
  }

  /** `complete`: only the first call records its error, but every call is remembered. */
  function Complete(life: map<nat, Life>, id: nat, err: Outcome, who: Completer): map<nat, Life> {
    if id !in life then life
    else
      var l := life[id];
      life[id := l.(outcome := if l.outcome.None? then Some(err) else l.outcome,
                    completers := l.completers + [who])]
  }

  function Without(pending: seq<Request>, i: nat): seq<Request>
    requires i < |pending|
  {
    pending[..i] + pending[i + 1..]
  }

  function QueueOf(q: Queues, node: string): NodeQueue {
    if node in q.nodes then q.nodes[node] else EmptyQueue
  }

  // ---- The critical sections ----------------------------------------------------------------

  datatype EnqueueResult = EnqueueResult(queues: Queues, target: Request, joined: bool, startWorker: bool)

  function EnqueueSection(cfg: Config, q: Queues, r: Request): EnqueueResult {
    var nq := QueueOf(q, r.node);
    var duplicate := if cfg.dedupe then FindDuplicate(nq, r) else None;
    if duplicate.Some? then
      var id := duplicate.value.id;
      var life := if id in q.life then q.life[id := q.life[id].(coalesced := q.life[id].coalesced + 1)] else q.life;
      EnqueueResult(Queues(q.nodes[r.node := nq], life), duplicate.value, true, false)
    else
      var life := q.life[r.id := Life(r, EffectiveWaitLimit(cfg, nq), 0, false, None, [], 0)];
      var nodes := q.nodes[r.node := NodeQueue(nq.active, nq.pending + [r], true)];
      EnqueueResult(Queues(nodes, life), r, false, !nq.running)
  }

  /** The index of the first pending request with this id, or the length when there is none. */
  function IndexOf(pending: seq<Request>, id: nat): (i: nat)
    ensures i <= |pending|
    ensures i < |pending| ==> pending[i].id == id
    ensures forall k | 0 <= k < i :: pending[k].id != id
  {
    if pending == [] || pending[0].id == id then 0 else 1 + IndexOf(pending[1..], id)
  }

  datatype CancelResult = CancelResult(queues: Queues, cancelled: bool)

  function CancelSection(q: Queues, id: nat, node: string): CancelResult {
    var nq := QueueOf(q, node);
    var i := IndexOf(nq.pending, id);
    if i == |nq.pending| then CancelResult(q, false)
    else
      CancelResult(Queues(q.nodes[node := nq.(pending := Without(nq.pending, i))],
                          Complete(q.life, id, QueueTimeout, ByCancel)), true)
  }

  /** The request `next` picks: no request beats its score, and every earlier one scores worse. */
  ghost predicate IsSelected(cfg: Config, pending: seq<Request>, now: Time, i: nat) {
    && i < |pending|
    && (forall k | 0 <= k < |pending| ::
          EffectivePriority(cfg, pending[i], now) <= EffectivePriority(cfg, pending[k], now))
    && (forall k | 0 <= k < i ::
          EffectivePriority(cfg, pending[i], now) < EffectivePriority(cfg, pending[k], now))
  }

  /** `IsSelected` as a computation. */
  function Selected(cfg: Config, pending: seq<Request>, now: Time): (i: nat)
    requires pending != []
    ensures IsSelected(cfg, pending, now, i)
  {
    if |pending| == 1 then 0
    else
      var last := |pending| - 1;
      var i := Selected(cfg, pending[..last], now);
      if EffectivePriority(cfg, pending[last], now) < EffectivePriority(cfg, pending[i], now) then last else i
  }

  datatype NextResult = NextResult(queues: Queues, chosen: Option<Request>)

  function NextSection(cfg: Config, q: Queues, node: string, now: Time): NextResult {
    if node !in q.nodes then NextResult(q, None)
    else if q.nodes[node].pending == [] then NextResult(q.(nodes := q.nodes - {node}), None)
    else
      var nq := q.nodes[node];
      var i := Selected(cfg, nq.pending, now);
      NextResult(q.(nodes := q.nodes[node := nq.(active := Some(nq.pending[i]), pending := Without(nq.pending, i))]),
                 Some(nq.pending[i]))
  }

  function FinishSection(q: Queues, node: string, id: nat): Queues {
    if node in q.nodes && q.nodes[node].active.Some? && q.nodes[node].active.value.id == id
    then q.(nodes := q.nodes[node := q.nodes[node].(active := None)])
    else q
  }

  // ---- The manager --------------------------------------------------------------------------

  class HotplugQueueManager {
    const cfg: Config
    var nodes: map<string, NodeQueue>
    var life: map<nat, Life>

    ghost function State(): Queues
      reads this
    {
      Queues(nodes, life)
    }

    constructor (cfg: Config)
      ensures State() == Queues(map[], map[]) && this.cfg == cfg
    {
      this.cfg := cfg;
      nodes, life := map[], map[];
    }

    method FindDuplicateRequest(q: NodeQueue, r: Request) returns (found: Option<Request>)
      ensures found == FindDuplicate(q, r)
      ensures found.Some? <==> Asked(q, r.node, r.operation, r.volume)
      ensures found.Some? ==>
                && Outstanding(q, found.value)
                && found.value.node == r.node && found.value.operation == r.operation && found.value.volume == r.volume
    {
      if q.active.Some? && SameWork(q.active.value, r) {
        return q.active;
      }
      for i := 0 to |q.pending|
        invariant FirstSame(q.pending, r) == FirstSame(q.pending[i..], r)
      {
        if SameWork(q.pending[i], r) {
          return Some(q.pending[i]);
        }
      }
      return None;
    }

    method Enqueue(r: Request) returns (target: Request, joined: bool, startWorker: bool)
      modifies this
      ensures EnqueueResult(State(), target, joined, startWorker) == EnqueueSection(cfg, old(State()), r)
      ensures joined <==> cfg.dedupe && Asked(QueueOf(old(State()), r.node), r.node, r.operation, r.volume)
      ensures target.node == r.node && target.operation == r.operation && target.volume == r.volume
      ensures if joined then Outstanding(QueueOf(old(State()), r.node), target) else target == r
    {
      var nq := EmptyQueue;
      if r.node in nodes {
        nq := nodes[r.node];
      }
      nodes := nodes[r.node := nq];
      if cfg.dedupe {
        var duplicate := FindDuplicateRequest(nq, r);
        if duplicate.Some? {
          var id := duplicate.value.id;
          if id in life {
            life := life[id := life[id].(coalesced := life[id].coalesced + 1)];
          }
          return duplicate.value, true, false;
        }
      }
      life := life[r.id := Life(r, EffectiveWaitLimit(cfg, nq), 0, false, None, [], 0)];
      nodes := nodes[r.node := NodeQueue(nq.active, nq.pending + [r], true)];
      return r, false, !nq.running;
    }

    method Cancel(id: nat, node: string) returns (cancelled: bool)
      modifies this
      ensures CancelResult(State(), cancelled) == CancelSection(old(State()), id, node)
    {
      if node !in nodes {
        return false;
      }
      var nq := nodes[node];
      for i := 0 to |nq.pending|
        invariant unchanged(this)
        invariant IndexOf(nq.pending, id) == i + IndexOf(nq.pending[i..], id)
      {
        if nq.pending[i].id == id {
          nodes := nodes[node := nq.(pending := Without(nq.pending, i))];
          life := Complete(life, id, QueueTimeout, ByCancel);
          return true;
        }
      }
      return false;
    }

    method Next(node: string, now: Time) returns (chosen: Option<Request>)
      modifies this
      ensures NextResult(State(), chosen) == NextSection(cfg, old(State()), node, now)
    {
      if node !in nodes || |nodes[node].pending| == 0 {
        if node in nodes {
          nodes := nodes - {node};
        }
        return None;
      }
      var nq := nodes[node];
      var selected := 0;
      var score := EffectivePriority(cfg, nq.pending[0], now);
      for i := 1 to |nq.pending|
        invariant selected < i
        invariant selected == Selected(cfg, nq.pending[..i], now)
        invariant score == EffectivePriority(cfg, nq.pending[selected], now)
      {
        assert nq.pending[..i + 1][..i] == nq.pending[..i];
        var s := EffectivePriority(cfg, nq.pending[i], now);
        if s < score {
          selected, score := i, s;
        }
      }
      assert nq.pending[..|nq.pending|] == nq.pending;
      var r := nq.pending[selected];
      nodes := nodes[node := nq.(active := Some(r), pending := Without(nq.pending, selected))];
      return Some(r);
    }

    method Finish(node: string, id: nat)
      modifies this
      ensures State() == FinishSection(old(State()), node, id)
    {
      if node in nodes && nodes[node].active.Some? && nodes[node].active.value.id == id {
        nodes := nodes[node := nodes[node].(active := None)];
      }
    }
  }
}
