/**
The attachment reconciler times volume@node strings: when these stand for one attachment each, and
what happens otherwise.
*/
module ReconcilerKeys {
  import opened Basics
  import opened ReconcilerSnapshot
  import opened ReconcilerRuns

  /** No two of these attachments share a key. */
  ghost predicate KeysIdentify(u: set<Attachment>) {
    forall a, b | a in u && b in u && Key(a) == Key(b) :: a == b
  }

  /** So it is where handles contain no '@'. */
  lemma PlainHandlesIdentify(u: set<Attachment>)
    requires forall a | a in u :: '@' !in a.volume
    ensures KeysIdentify(u)
  {
    forall a, b | a in u && b in u && Key(a) == Key(b)
      ensures a == b
    {
      SplitAtFirst(a.volume, a.node, b.volume, b.node);
    }
  }

  lemma SplitAtFirst(v: string, n: string, w: string, m: string)
    requires '@' !in v && '@' !in w && v + "@" + n == w + "@" + m
    ensures v == w && n == m
  {
    var k := v + "@" + n;
    assert k[|v|] == '@' && k[|w|] == '@';
    assert forall i | 0 <= i < |v| :: k[i] == v[i];
    assert forall i | 0 <= i < |w| :: k[i] == w[i];
    assert v == k[..|v|] && w == k[..|w|];
    assert n == k[|v| + 1..] && m == k[|w| + 1..];
  }

  /** And where node names contain none. */
  lemma PlainNodesIdentify(u: set<Attachment>)
    requires forall a | a in u :: '@' !in a.node
    ensures KeysIdentify(u)
  {
    forall a, b | a in u && b in u && Key(a) == Key(b)
      ensures a == b
    {
      SplitAtLast(a.volume, a.node, b.volume, b.node);
    }
  }

  lemma SplitAtLast(v: string, n: string, w: string, m: string)
    requires '@' !in n && '@' !in m && v + "@" + n == w + "@" + m
    ensures v == w && n == m
  {
    var k := v + "@" + n;
    assert k[|v|] == '@' && k[|w|] == '@';
    assert forall i | |v| < i < |k| :: k[i] == n[i - |v| - 1];
    assert forall i | |w| < i < |k| :: k[i] == m[i - |w| - 1];
    assert v == k[..|v|] && w == k[..|w|];
    assert n == k[|v| + 1..] && m == k[|w| + 1..];
  }

  /** Every pass shows attachments of this set only. */
  ghost predicate Within(passes: seq<Pass>, u: set<Attachment>) {
    forall i | 0 <= i < |passes| :: forall a | a in passes[i].snap.attachments :: a in u
  }

  /** The attachment itself was judged so in an earlier pass, in every pass since, and over the grace time. */
  ghost predicate ItselfThroughout(passes: seq<Pass>, verdict: Verdict, a: Attachment, grace: Duration) {
    exists from: nat | from < |passes| - 1 ::
      && passes[|passes| - 1].now - passes[from].now >= grace
      && forall i | from <= i < |passes| :: a in Judged(passes[i].snap, verdict)
  }

  lemma DetachedWasJudgedThroughout(passes: seq<Pass>, verdict: Verdict, a: Attachment, grace: Duration,
                                    u: set<Attachment>)
    requires passes != [] && PassesInOrder(passes) && Within(passes, u) && KeysIdentify(u)
    requires a in Detached(passes, verdict, grace)
    ensures ItselfThroughout(passes, verdict, a, grace)
  {
    DetachIff(passes, verdict, a, grace);
    var from: nat :| from < |passes| - 1 && JudgedThroughout(passes, verdict, Key(a), from)
                     && passes[|passes| - 1].now - passes[from].now >= grace;
    assert a in passes[|passes| - 1].snap.attachments;
    forall i | from <= i < |passes|
      ensures a in Judged(passes[i].snap, verdict)
    {
      var snap := passes[i].snap;
      assert HasJudged(snap, verdict, Key(a));
      var b :| b in snap.attachments && Judge(snap, b) == verdict && Key(b) == Key(a);
    }
  }

  /** A snapshot in which an attachment of a known volume is an orphan. */
  function OrphanSnapshot(a: Attachment): Snapshot {
    Snapshot([a], [], [PersistentVolume("pv", Some(a.volume), None)], [], {}, {})
  }

  lemma OrphanIsJudged(a: Attachment)
    ensures Judged(OrphanSnapshot(a), Orphan) == {a}
  {
    var snap := OrphanSnapshot(a);
    assert snap.pvs[0].handle == Some(a.volume);
    assert WithHandle(snap.pvs, a.volume) == Some(snap.pvs[0]);
    assert Judge(snap, a) == Orphan;
  }

  /** Two attachments with one key: the second is detached in the first pass that shows it. */
  function Exchange(a: Attachment, b: Attachment, grace: Duration): seq<Pass> {
    [Pass(OrphanSnapshot(a), 0), Pass(OrphanSnapshot(b), grace)]
  }

  lemma SharedKeyDetachesEarly(a: Attachment, b: Attachment, grace: Duration)
    requires a != b && Key(a) == Key(b) && grace > 0
    ensures PassesInOrder(Exchange(a, b, grace)) && b in Detached(Exchange(a, b, grace), Orphan, grace)
    ensures !ItselfThroughout(Exchange(a, b, grace), Orphan, b, grace)
  {
    var passes := Exchange(a, b, grace);
    OrphanIsJudged(a);
    OrphanIsJudged(b);
    assert HasJudged(passes[0].snap, Orphan, Key(b)) by {
      assert a in Judged(passes[0].snap, Orphan);
    }
    assert HasJudged(passes[1].snap, Orphan, Key(b)) by {
      assert b in Judged(passes[1].snap, Orphan);
    }
    assert JudgedThroughout(passes, Orphan, Key(b), 0);
    assert GraceSpent(passes, Orphan, Key(b), grace);
    DetachIff(passes, Orphan, b, grace);
    assert b !in Judged(passes[0].snap, Orphan);
  }

  /** Over a set of attachments, an orphan is detached only after its own grace time exactly when keys identify them. */
  lemma OwnGraceIff(u: set<Attachment>, grace: Duration)
    requires grace > 0
    ensures KeysIdentify(u) <==>
            forall passes, a | passes != [] && PassesInOrder(passes) && Within(passes, u)
                            && a in Detached(passes, Orphan, grace) :: ItselfThroughout(passes, Orphan, a, grace)
  {
    if KeysIdentify(u) {
      forall passes, a | passes != [] && PassesInOrder(passes) && Within(passes, u)
                      && a in Detached(passes, Orphan, grace)
        ensures ItselfThroughout(passes, Orphan, a, grace)
      {
        DetachedWasJudgedThroughout(passes, Orphan, a, grace, u);
      }
    } else {
      var a, b :| a in u && b in u && Key(a) == Key(b) && a != b;
      SharedKeyDetachesEarly(a, b, grace);
      assert Within(Exchange(a, b, grace), u);
    }
  }

  /** Such attachments exist: volume v on node n@m, and volume v@n on node m. */
  lemma KeysCanCollide(v: string, n: string, m: string)
    ensures var a, b := Attachment(v, n + "@" + m), Attachment(v + "@" + n, m); a != b && Key(a) == Key(b)
  {
    assert v + "@" + (n + "@" + m) == (v + "@" + n) + "@" + m;
    assert |v| < |v + "@" + n|;
  }
}
