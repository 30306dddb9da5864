/** What a request ends with is what its one run of the caller's function returned. */
module HotplugQueueResults {
  import opened Basics
  import opened HotplugQueue
  import opened HotplugQueueSystem
  import opened HotplugQueueInvariant
  import opened HotplugQueueDedupe

  /** One turn of a worker: whether the function was called, and with which result the turn ended. */
  datatype Turn = Turn(executes: bool, err: Outcome)

  /** The step is the turn of this request. */
  predicate TakesTurn(s: System, step: Step, id: nat) {
    step.RunRequest? && Enabled(s, step) && s.workers[step.w].pc.r.id == id
  }

  /** The latest turn of a request in a run. */
  function TurnOf(cfg: Config, clock: Time, steps: seq<Step>, id: nat): Option<Turn> {
    if steps == [] then None
    else
      var before, step := steps[..|steps| - 1], steps[|steps| - 1];
      var mid := Exec(cfg, Init(clock), before);
      if mid.Some? && TakesTurn(mid.value, step, id) then Some(Turn(step.executes, step.err))
      else TurnOf(cfg, clock, before, id)
  }

  /** A request ran when its turn called its function, and its worker completes it with the result of the turn. */
  predicate ResultOk(s: System, id: nat, turn: Option<Turn>) {
    && (forall i | 0 <= i < |s.workers| && s.workers[i].pc.Ran? && s.workers[i].pc.r.id == id ::
          turn.Some? && turn.value.err == s.workers[i].pc.err)
    && (id in s.queues.life ==>
          && s.queues.life[id].runs == (if turn.Some? && turn.value.executes then 1 else 0)
          && (ByWorker in s.queues.life[id].completers ==>
                turn.Some? && s.queues.life[id].outcome == Some(turn.value.err)))
    && (id !in s.queues.life ==> turn.None?)
  }

  /** A turn is the request's first: its worker is the only one that has it and nobody completed it. */
  lemma TurnIsFirst(s: System, w: nat, id: nat)
    requires Inv(s) && w < |s.workers| && s.workers[w].pc.Started? && s.workers[w].pc.r.id == id
    ensures id in s.queues.life && s.queues.life[id].completers == [] && s.queues.life[id].runs == 0
    ensures forall i | 0 <= i < |s.workers| && i != w && Held(s.workers[i].pc).Some? ::
              Held(s.workers[i].pc).value.id != id
  {
    forall i | 0 <= i < |s.workers| && i != w && Held(s.workers[i].pc).Some?
      ensures Held(s.workers[i].pc).value.id != id
    {
      OtherWorkersElsewhere(s, w, i);
    }
  }

  lemma TurnKeepsResult(cfg: Config, s: System, w: nat, executes: bool, err: Outcome, id: nat, turn: Option<Turn>)
    requires Inv(s) && Enabled(s, RunRequest(w, executes, err)) && ResultOk(s, id, turn)
    ensures ResultOk(Apply(cfg, s, RunRequest(w, executes, err)), id,
                     if s.workers[w].pc.r.id == id then Some(Turn(executes, err)) else turn)
  {
    if s.workers[w].pc.r.id == id {
      TurnIsFirst(s, w, id);
    }
  }

  /** The worker of a request that is being completed has its turn behind it. */
  lemma CompletionKeepsResult(cfg: Config, s: System, w: nat, id: nat, turn: Option<Turn>)
    requires Inv(s) && Enabled(s, CompleteRequest(w)) && ResultOk(s, id, turn)
    ensures ResultOk(Apply(cfg, s, CompleteRequest(w)), id, turn)
  {
  }

  lemma EnqueueKeepsResult(cfg: Config, s: System, c: nat, id: nat, turn: Option<Turn>)
    requires Inv(s) && Enabled(s, Enqueue(c)) && ResultOk(s, id, turn)
    ensures ResultOk(Apply(cfg, s, Enqueue(c)), id, turn)
  {
    assert CallerOk(s.queues.life, s.callers, c);
  }

  lemma GiveUpKeepsResult(cfg: Config, s: System, c: nat, id: nat, turn: Option<Turn>)
    requires Inv(s) && Enabled(s, GiveUp(c)) && ResultOk(s, id, turn)
    ensures ResultOk(Apply(cfg, s, GiveUp(c)), id, turn)
  {
  }

  /** The other steps complete nothing and take no turn. */
  predicate Bystander(step: Step) {
    !step.RunRequest? && !step.CompleteRequest? && !step.Enqueue? && !step.GiveUp?
  }

  lemma BystandersKeepLife(cfg: Config, s: System, step: Step, id: nat)
    requires Enabled(s, step) && Bystander(step)
    ensures var life, life' := s.queues.life, Apply(cfg, s, step).queues.life;
            && (id in life <==> id in life')
            && (id in life ==> life'[id] == life[id].(started := life'[id].started))
  {
  }

  lemma BystandersKeepTurns(cfg: Config, s: System, step: Step, i: nat)
    requires Enabled(s, step) && Bystander(step)
    requires i < |Apply(cfg, s, step).workers| && Apply(cfg, s, step).workers[i].pc.Ran?
    ensures i < |s.workers| && s.workers[i].pc == Apply(cfg, s, step).workers[i].pc
  {
  }

  lemma BystandersKeepResult(cfg: Config, s: System, step: Step, id: nat, turn: Option<Turn>)
    requires Enabled(s, step) && Bystander(step) && ResultOk(s, id, turn)
    ensures ResultOk(Apply(cfg, s, step), id, turn)
  {
    BystandersKeepLife(cfg, s, step, id);
    var s' := Apply(cfg, s, step);
    forall i | 0 <= i < |s'.workers| && s'.workers[i].pc.Ran? && s'.workers[i].pc.r.id == id
      ensures turn.Some? && turn.value.err == s'.workers[i].pc.err
    {
      BystandersKeepTurns(cfg, s, step, i);
    }
  }

  lemma StepKeepsResult(cfg: Config, s: System, step: Step, id: nat, turn: Option<Turn>)
    requires Inv(s) && Enabled(s, step) && ResultOk(s, id, turn)
    ensures ResultOk(Apply(cfg, s, step), id,
                     if TakesTurn(s, step, id) then Some(Turn(step.executes, step.err)) else turn)
  {
    match step
    case RunRequest(w, executes, err) => TurnKeepsResult(cfg, s, w, executes, err, id, turn);
    case CompleteRequest(w) => CompletionKeepsResult(cfg, s, w, id, turn);
    case Enqueue(c) => EnqueueKeepsResult(cfg, s, c, id, turn);
    case GiveUp(c) => GiveUpKeepsResult(cfg, s, c, id, turn);
    case _ => BystandersKeepResult(cfg, s, step, id, turn);
  }

  /** In every run, a request's worker completes it with the result of its turn, and it ran when the turn called it. */
  lemma {:induction false} ResultsAreOfTheTurn(cfg: Config, clock: Time, steps: seq<Step>, id: nat)
    requires Exec(cfg, Init(clock), steps).Some?
    ensures ResultOk(Exec(cfg, Init(clock), steps).value, id, TurnOf(cfg, clock, steps, id))
  {
    if steps != [] {
      var before, step := steps[..|steps| - 1], steps[|steps| - 1];
      ResultsAreOfTheTurn(cfg, clock, before, id);
      RunsKeepInv(cfg, clock, before);
      StepKeepsResult(cfg, Exec(cfg, Init(clock), before).value, step, id, TurnOf(cfg, clock, before, id));
    }
  }

  /** A call whose request has started waits for its end and gives up no more. */
  lemma StartedIsAwaited(cfg: Config, s: System, c: nat)
    requires Enabled(s, ObserveStarted(c))
    ensures var s' := Apply(cfg, s, ObserveStarted(c));
            !Enabled(s', GiveUp(c)) && s'.callers[c].pc == Awaiting(s.callers[c].pc.target)
  {
  }

  /** Completing a request twice leaves the first result. */
  lemma FirstCompletionWins(life: map<nat, Life>, id: nat, err: Outcome, who: Completer,
                            later: Outcome, other: Completer)
    requires id in life && life[id].outcome.None?
    ensures var once := Complete(life, id, err, who);
            Complete(once, id, later, other)[id].outcome == once[id].outcome == Some(err)
  {
  }

  /** What a call that returned through done got, given the latest turn of its target. */
  predicate GotResult(s: System, c: nat, turn: Option<Turn>)
    requires c < |s.callers| && s.callers[c].pc.Returned?
  {
    var own, pc := s.callers[c].request, s.callers[c].pc;
    && pc.target.node == own.node && pc.target.operation == own.operation && pc.target.volume == own.volume
    && pc.target.id in s.queues.life
    && if s.queues.life[pc.target.id].completers == [ByCancel] then pc.err == QueueTimeout
       else turn.Some? && pc.err == turn.value.err
  }

  lemma ReturnedGotResult(s: System, c: nat, turn: Option<Turn>)
    requires Inv(s) && OwnWork(s) && c < |s.callers|
    requires s.callers[c].pc.Returned? && s.callers[c].pc.via.ThroughDone?
    requires ResultOk(s, s.callers[c].pc.target.id, turn)
    ensures GotResult(s, c, turn)
  {
    assert CallerOk(s.queues.life, s.callers, c);
    var id := s.callers[c].pc.target.id;
    assert LifeOk(s.queues, id);
    var completers := s.queues.life[id].completers;
    if completers[0] == ByCancel {
      assert completers == [ByCancel];
    } else {
      assert ByWorker in completers;
    }
  }

  /**
  End to end: a call that returns through done returns what the function of a request for its own
  node, operation and volume ended with, or the queue timeout of such a request.
  */
  lemma CallersGetTheTurnsResult(cfg: Config, clock: Time, steps: seq<Step>, c: nat)
    requires Exec(cfg, Init(clock), steps).Some? && c < |Exec(cfg, Init(clock), steps).value.callers|
    requires var pc := Exec(cfg, Init(clock), steps).value.callers[c].pc; pc.Returned? && pc.via.ThroughDone?
    ensures var s := Exec(cfg, Init(clock), steps).value;
            GotResult(s, c, TurnOf(cfg, clock, steps, s.callers[c].pc.target.id))
  {
    var s := Exec(cfg, Init(clock), steps).value;
    var id := s.callers[c].pc.target.id;
    RunsKeepOwnWork(cfg, clock, steps);
    RunsKeepInv(cfg, clock, steps);
    ResultsAreOfTheTurn(cfg, clock, steps, id);
    ReturnedGotResult(s, c, TurnOf(cfg, clock, steps, id));
  }
}
