/**
The polling loops behind attach and detach: when they succeed, when they retry, and how many
commands OpenNebula takes.
*/
module HotplugWait {

  /** OpenNebula's reply to a disk command; `WrongState` means the VM is busy with another hotplug. */
  datatype Reply = Accepted | WrongState | Failed

  /**
  One round of a loop: what is observed, the reply to a retry if one is sent, and whether the
  deadline has passed.
  */
  datatype Poll = Poll(observed: bool, attached: bool, ready: bool, reply: Reply, expired: bool)

  datatype Goal = ToAttach | ToDetach

  datatype WaitResult = Reached | ObservationError | RetryError | TimedOut | StillWaiting

  /** The loop returns success: an attach needs the disk there and the VM ready, a detach only the disk gone. */
  predicate Reaches(goal: Goal, p: Poll) {
    p.observed && if goal.ToAttach? then p.attached && p.ready else !p.attached
  }

  /** The VM was just seen ready and the disk is not where it should be. */
  predicate Retriable(goal: Goal, p: Poll) {
    p.observed && p.ready && p.attached == goal.ToDetach?
  }

  /** Poll k sends the retry: one is due and no earlier one was accepted. */
  ghost predicate Sends(goal: Goal, polls: seq<Poll>, retry: bool, k: nat)
    requires k < |polls|
  {
    && retry && Retriable(goal, polls[k])
    && forall j | 0 <= j < k :: !(Retriable(goal, polls[j]) && polls[j].reply.Accepted?)
  }

  /** Poll k ends the loop. */
  ghost predicate Stops(goal: Goal, polls: seq<Poll>, retry: bool, k: nat)
    requires k < |polls|
  {
    !polls[k].observed || Reaches(goal, polls[k]) || polls[k].expired
    || (Sends(goal, polls, retry, k) && polls[k].reply.Failed?)
  }

  /**
  `waitForAttachState` and `waitForDetachState`. The loop ends at the first poll that stops it, with
  that poll's result; a retry is sent exactly where one is due; at most one is accepted.
  */
  method WaitForState(goal: Goal, polls: seq<Poll>, retry: bool)
    returns (result: WaitResult, used: nat, sent: seq<nat>, accepted: nat)
    ensures used <= |polls|
    ensures forall k: nat | k < used - 1 :: !Stops(goal, polls, retry, k)
    ensures result.StillWaiting? <==> forall k: nat | k < |polls| :: !Stops(goal, polls, retry, k)
    ensures result.StillWaiting? ==> used == |polls|
    ensures !result.StillWaiting? ==> used > 0 && Stops(goal, polls, retry, used - 1)
    ensures result.Reached? <==> used > 0 && Reaches(goal, polls[used - 1])
    ensures result.ObservationError? <==> used > 0 && !polls[used - 1].observed
    ensures result.RetryError? <==> used > 0 && Sends(goal, polls, retry, used - 1) && polls[used - 1].reply.Failed?
    ensures forall k: nat :: k in sent <==> k < used && Sends(goal, polls, retry, k)
    ensures accepted <= 1
    ensures accepted == 1 <==> exists k :: k in sent && k < |polls| && polls[k].reply.Accepted?
  {
    var pending := retry;
    used, sent, accepted := 0, [], 0;
    while used < |polls|
      invariant used <= |polls|
      invariant forall k: nat | k < used :: !Stops(goal, polls, retry, k)
      invariant forall k: nat :: k in sent <==> k < used && Sends(goal, polls, retry, k)
      invariant pending <==>
                retry && forall j | 0 <= j < used :: !(Retriable(goal, polls[j]) && polls[j].reply.Accepted?)
      invariant accepted == if pending || !retry then 0 else 1
      invariant accepted == 1 <==> exists k :: k in sent && k < |polls| && polls[k].reply.Accepted?
    {
      var k := used;
      var p := polls[k];
      used := used + 1;
      if !p.observed {
        assert Stops(goal, polls, retry, k);
        return ObservationError, used, sent, accepted;
      }
      if Reaches(goal, p) {
        assert Stops(goal, polls, retry, k);
        return Reached, used, sent, accepted;
      }
      if pending && Retriable(goal, p) {
        assert Sends(goal, polls, retry, k);
        ghost var before := sent;
        sent := sent + [k];
        assert sent[|sent| - 1] == k;
        assert forall j :: j in sent <==> j in before || j == k;
        if p.reply.Failed? {
          assert Stops(goal, polls, retry, k);
          return RetryError, used, sent, accepted;
        }
        if p.reply.Accepted? {
          pending, accepted := false, 1;
        }
      }
      if p.expired {
        assert Stops(goal, polls, retry, k);
        return TimedOut, used, sent, accepted;
      }
    }
    assert used > 0 ==> !Stops(goal, polls, retry, used - 1);
    result := StillWaiting;
  }

  /** How a whole `AttachVolume` or `DetachVolume` call ends once the disk and the VM are known. */
  datatype CallResult = CommandFailed | Waited(wait: WaitResult)

  /**
  The first command is sent at once. If it is refused for any reason but a busy VM the call fails;
  if the VM was busy the loop may retry. Over the whole call at most one command is accepted, every
  retry follows an observation of a ready VM and a disk that is not where it should be, and success
  means the goal was observed.
  */
  method SendAndWait(goal: Goal, first: Reply, polls: seq<Poll>)
    returns (result: CallResult, used: nat, sent: seq<nat>, accepted: nat)
    ensures accepted <= 1
    ensures used <= |polls|
    ensures result.CommandFailed? <==> first.Failed?
    ensures first.Accepted? ==> accepted == 1 && forall k: nat :: k !in sent
    ensures forall k: nat :: k in sent <==> first.WrongState? && k < used && Sends(goal, polls, true, k)
    ensures !first.Failed? ==> forall k: nat | k < used - 1 :: !Stops(goal, polls, first.WrongState?, k)
    ensures result == Waited(StillWaiting) ==> used == |polls|
    ensures result.Waited? && result != Waited(StillWaiting) ==>
              used > 0 && Stops(goal, polls, first.WrongState?, used - 1)
    ensures forall k | k in sent :: k < used && first.WrongState? && polls[k].observed && polls[k].ready
    ensures forall k | k in sent :: if goal.ToAttach? then !polls[k].attached else polls[k].attached
    ensures accepted == 1 <==> first.Accepted? || exists k :: k in sent && k < |polls| && polls[k].reply.Accepted?
    ensures result == Waited(Reached) <==> !first.Failed? && used > 0 && Reaches(goal, polls[used - 1])
    ensures result == Waited(Reached) && goal.ToAttach? ==> polls[used - 1].attached && polls[used - 1].ready
    ensures result == Waited(Reached) && goal.ToDetach? ==> !polls[used - 1].attached
  {
    used, sent, accepted := 0, [], 0;
    if first.Failed? {
      return CommandFailed, used, sent, accepted;
    }
    var wait;
    wait, used, sent, accepted := WaitForState(goal, polls, first.WrongState?);
    if first.Accepted? {
      accepted := accepted + 1;
    }
    result := Waited(wait);
  }
}
