/** The grace timers of the attachment reconciler over every run of passes. */
module ReconcilerRuns {
  import opened Basics
  import opened Text
  import opened ReconcilerSnapshot
  import opened GraceTimers
  import opened AttachmentReconciler

  /** What one completed pass tells one timer. */
  datatype Round = Round(keys: set<string>, now: Time)

  function SeenAfter(rounds: seq<Round>): map<string, Time> {
    if rounds == [] then map[]
    else
      var last := rounds[|rounds| - 1];
      AfterPass(SeenAfter(rounds[..|rounds| - 1]), last.keys, last.now)
  }

  predicate Unbroken(rounds: seq<Round>, key: string, from: nat) {
    from < |rounds| && forall i | from <= i < |rounds| :: key in rounds[i].keys
  }

  function RunStart(rounds: seq<Round>, key: string): (start: nat)
    requires rounds != [] && Unbroken(rounds, key, |rounds| - 1)
    ensures Unbroken(rounds, key, start)
    ensures start > 0 ==> key !in rounds[start - 1].keys
  {
    var last := |rounds| - 1;
    if last > 0 && key in rounds[last - 1].keys then RunStart(rounds[..last], key) else last
  }

  /** After every run the seen time of a key is the time of the first pass of its current unbroken run. */
  lemma {:induction false} SeenIsRunStart(rounds: seq<Round>, key: string)
    requires rounds != []
    ensures key in SeenAfter(rounds) <==> Unbroken(rounds, key, |rounds| - 1)
    ensures key in SeenAfter(rounds) ==> SeenAfter(rounds)[key] == rounds[RunStart(rounds, key)].now
  {
    var front := rounds[..|rounds| - 1];
    if front != [] {
      SeenIsRunStart(front, key);
    }
  }

  predicate InOrder(rounds: seq<Round>) {
    forall i, j | 0 <= i <= j < |rounds| :: rounds[i].now <= rounds[j].now
  }

  /** The key was there in an earlier pass, in every pass since, and the grace time has gone by. */
  predicate Outlasted(rounds: seq<Round>, key: string, grace: Duration) {
    exists from | 0 <= from < |rounds| - 1 ::
      Unbroken(rounds, key, from) && rounds[|rounds| - 1].now - rounds[from].now >= grace
  }

  lemma DueIffOutlasted(rounds: seq<Round>, key: string, grace: Duration)
    requires rounds != [] && InOrder(rounds)
    ensures var last := rounds[|rounds| - 1];
            key in last.keys && IsDue(SeenAfter(rounds[..|rounds| - 1]), key, last.now, grace)
            <==> Outlasted(rounds, key, grace)
  {
    var n := |rounds| - 1;
    var front := rounds[..n];
    if n > 0 {
      SeenIsRunStart(front, key);
      if Unbroken(front, key, n - 1) {
        var start := RunStart(front, key);
        if key in rounds[n].keys {
          assert Unbroken(rounds, key, start);
        }
        if from: nat :| from < n && Unbroken(rounds, key, from) && rounds[n].now - rounds[from].now >= grace {
          assert start <= from;
        }
      } else {
        assert !Unbroken(front, key, n - 1);
        assert forall from: nat | from < n :: !Unbroken(rounds, key, from);
      }
    }
  }

  datatype Pass = Pass(snap: Snapshot, now: Time)

  ghost function RoundsOf(passes: seq<Pass>, verdict: Verdict): (rounds: seq<Round>)
    ensures |rounds| == |passes|
    ensures forall i | 0 <= i < |passes| ::
              rounds[i] == Round(KeysOf(AttachmentItems(Judged(passes[i].snap, verdict))), passes[i].now)
  {
    seq(|passes|, i requires 0 <= i < |passes| =>
      Round(KeysOf(AttachmentItems(Judged(passes[i].snap, verdict))), passes[i].now))
  }

  /** What the last of these passes asks to detach. */
  ghost function Detached(passes: seq<Pass>, verdict: Verdict, grace: Duration): set<Attachment>
    requires passes != []
  {
    var last := passes[|passes| - 1];
    DueItems(SeenAfter(RoundsOf(passes[..|passes| - 1], verdict)),
             AttachmentItems(Judged(last.snap, verdict)), last.now, grace)
  }

  ghost predicate JudgedThroughout(passes: seq<Pass>, verdict: Verdict, key: string, from: nat) {
    forall i | from <= i < |passes| :: HasJudged(passes[i].snap, verdict, key)
  }

  predicate HasJudged(snap: Snapshot, verdict: Verdict, key: string) {
    exists a | a in snap.attachments :: Judge(snap, a) == verdict && Key(a) == key
  }

  lemma JudgedKeys(snap: Snapshot, verdict: Verdict, key: string)
    ensures key in KeysOf(AttachmentItems(Judged(snap, verdict))) <==> HasJudged(snap, verdict, key)
  {
    if a :| a in snap.attachments && Judge(snap, a) == verdict && Key(a) == key {
      assert (Key(a), a) in AttachmentItems(Judged(snap, verdict));
    }
  }

  predicate PassesInOrder(passes: seq<Pass>) {
    forall i, j | 0 <= i <= j < |passes| :: passes[i].now <= passes[j].now
  }

  ghost predicate GraceSpent(passes: seq<Pass>, verdict: Verdict, key: string, grace: Duration) {
    exists from | 0 <= from < |passes| - 1 ::
      JudgedThroughout(passes, verdict, key, from) && passes[|passes| - 1].now - passes[from].now >= grace
  }

  lemma GraceSpentIffOutlasted(passes: seq<Pass>, verdict: Verdict, key: string, grace: Duration)
    ensures GraceSpent(passes, verdict, key, grace) <==> Outlasted(RoundsOf(passes, verdict), key, grace)
  {
    var rounds := RoundsOf(passes, verdict);
    forall i | 0 <= i < |passes|
      ensures key in rounds[i].keys <==> HasJudged(passes[i].snap, verdict, key)
    {
      JudgedKeys(passes[i].snap, verdict, key);
    }
    forall from: nat | from < |passes|
      ensures JudgedThroughout(passes, verdict, key, from) <==> Unbroken(rounds, key, from)
    {
    }
  }

  /**
  For every run of completed passes: an attachment is detached as an orphan (or as divergent) in a
  pass exactly when that pass judges it so and its key was judged so in an earlier pass, in every
  pass since, and over at least the grace time.
  */
  lemma DetachIff(passes: seq<Pass>, verdict: Verdict, a: Attachment, grace: Duration)
    requires passes != [] && PassesInOrder(passes)
    ensures a in Detached(passes, verdict, grace) <==>
            a in Judged(passes[|passes| - 1].snap, verdict) && GraceSpent(passes, verdict, Key(a), grace)
  {
    var rounds := RoundsOf(passes, verdict);
    assert RoundsOf(passes[..|passes| - 1], verdict) == rounds[..|passes| - 1];
    DueIffOutlasted(rounds, Key(a), grace);
    GraceSpentIffOutlasted(passes, verdict, Key(a), grace);
    JudgedKeys(passes[|passes| - 1].snap, verdict, Key(a));
    var last := passes[|passes| - 1];
    var items := AttachmentItems(Judged(last.snap, verdict));
    assert a in Judged(last.snap, verdict) <==> (Key(a), a) in items;
  }

  ghost function StaleRoundsOf(passes: seq<Pass>): (rounds: seq<Round>)
    ensures |rounds| == |passes|
    ensures forall i | 0 <= i < |passes| ::
              rounds[i] == Round(KeysOf(StaleItems(StaleOnes(passes[i].snap))), passes[i].now)
  {
    seq(|passes|, i requires 0 <= i < |passes| => Round(KeysOf(StaleItems(StaleOnes(passes[i].snap))), passes[i].now))
  }

  /** The same law for VolumeAttachments, whose key is their name. */
  lemma StaleDeleteIff(passes: seq<Pass>, va: VolumeAttachment, grace: Duration)
    requires passes != [] && PassesInOrder(passes)
    ensures var last := passes[|passes| - 1];
            va in DueItems(SeenAfter(StaleRoundsOf(passes[..|passes| - 1])),
                           StaleItems(StaleOnes(last.snap)), last.now, grace) <==>
            va in StaleOnes(last.snap) && Outlasted(StaleRoundsOf(passes), va.name, grace)
  {
    var rounds := StaleRoundsOf(passes);
    var last := passes[|passes| - 1];
    assert StaleRoundsOf(passes[..|passes| - 1]) == rounds[..|passes| - 1];
    DueIffOutlasted(rounds, va.name, grace);
    assert va in StaleOnes(last.snap) <==> (va.name, va) in StaleItems(StaleOnes(last.snap));
  }

  /** Nothing is detached that the same pass shows as wanted. */
  lemma DetachedIsUnwanted(passes: seq<Pass>, verdict: Verdict, a: Attachment, grace: Duration)
    requires passes != [] && verdict != Keep
    requires a in Detached(passes, verdict, grace)
    ensures var snap := passes[|passes| - 1].snap;
            && a in snap.attachments && a.volume !in snap.skipped
            && WithHandle(snap.pvs, a.volume).Some?
            && (forall va | va in snap.vas && VolumeOf(snap.pvs, va) == Some(a.volume) && va.attached ::
                  Trim(va.node) != Trim(a.node))
            && (var key := ClaimKey(WithHandle(snap.pvs, a.volume).value);
                key != "" ==> forall pod | pod in snap.pods :: !PodUses(pod, key))
  {
    var snap := passes[|passes| - 1].snap;
    forall va | va in snap.vas && VolumeOf(snap.pvs, va) == Some(a.volume) && va.attached
      ensures Trim(va.node) != Trim(a.node)
    {
      assert !Announces(snap.pvs, va, a);
    }
  }
}
