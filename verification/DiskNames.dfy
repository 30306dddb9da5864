/** Linux disk names: `a`..`z`, `aa`.. in bijective base 26, and the next free target of a VM. */
module DiskNames {
  import opened Basics
  import opened Text

  lemma WrapStep(a: int, d: int)
    ensures Wrap(Wrap(a) * 26 + d) == Wrap(a * 26 + d)
  {
    var q := (a + TWO63) / TWO64;
    assert Wrap(a) == a - q * TWO64;
    WrapShift(a * 26 + d, q * 26);
  }

  lemma WrapShift(x: int, k: int)
    ensures Wrap(x - k * TWO64) == Wrap(x)
  {
    var y := x + TWO63;
    assert (y - k * TWO64) % TWO64 == y % TWO64 by {
      assert y == (y / TWO64) * TWO64 + y % TWO64;
      ModuloUnique(y - k * TWO64, y / TWO64 - k, y % TWO64);
    }
  }

  lemma ModuloUnique(x: int, q: int, r: int)
    requires x == q * TWO64 + r && 0 <= r < TWO64
    ensures x % TWO64 == r
  {
  }

  predicate Lowercase(s: string) {
    forall i | 0 <= i < |s| :: 'a' <= s[i] <= 'z'
  }

  function Letter(d: nat): char
    requires d < 26
  {
    ('a' as int + d) as char
  }

  function Digit(c: char): int {
    c as int - 'a' as int + 1
  }

  /** The number a suffix writes in bijective base 26; the empty suffix is 0. */
  function Value(s: string): int {
    if s == [] then 0 else Value(s[..|s| - 1]) * 26 + Digit(s[|s| - 1])
  }

  /** The suffix of the disk with this index. */
  function Letters(index: nat): (s: string)
    ensures s != [] && Lowercase(s)
  {
    if index < 26 then [Letter(index)] else Letters(index / 26 - 1) + [Letter(index % 26)]
  }

  method LinuxDiskLetters(index: int) returns (letters: string)
    ensures letters == Letters(if index < 0 then 0 else index)
  {
    var i := if index < 0 then 0 else index;
    ghost var start: nat := i;
    letters := "";
    while true
      invariant i >= 0
      invariant Letters(start) == Letters(i) + letters
      decreases i
    {
      letters := [Letter(i % 26)] + letters;
      ghost var was := i;
      i := i / 26 - 1;
      if i < 0 {
        break;
      }
      assert Letters(was) == Letters(i) + [Letter(was % 26)];
    }
  }

  function StripPrefix(target: string, prefix: string): string
    requires prefix <= target
  {
    target[|prefix|..]
  }

  /** The suffix `linuxDiskTargetIndex` reads, when it reads one. */
  predicate NamesDisk(target: string, prefix: string) {
    prefix != "" && prefix <= target && StripPrefix(target, prefix) != "" && Lowercase(StripPrefix(target, prefix))
  }

  /** The index is computed in a 64-bit `int`, so it is the true one wrapped. */
  method LinuxDiskTargetIndex(target: string, prefix: string) returns (index: int, ok: bool)
    ensures ok <==> NamesDisk(target, prefix)
    ensures ok ==> index == Wrap(Value(StripPrefix(target, prefix)) - 1)
    ensures !ok ==> index == 0
  {
    if prefix == "" || !(prefix <= target) {
      return 0, false;
    }
    var suffix := StripPrefix(target, prefix);
    if suffix == "" {
      return 0, false;
    }
    var n := 0;
    for i := 0 to |suffix|
      invariant Lowercase(suffix[..i])
      invariant n == Wrap(Value(suffix[..i]))
    {
      if suffix[i] < 'a' || suffix[i] > 'z' {
        return 0, false;
      }
      assert suffix[..i + 1][..i] == suffix[..i];
      WrapStep(Value(suffix[..i]), Digit(suffix[i]));
      n := Wrap(n * 26 + Digit(suffix[i]));
    }
    assert suffix[..|suffix|] == suffix;
    ghost var v := Value(suffix);
    WrapShift(v - 1, (v + TWO63) / TWO64);
    return Wrap(n - 1), true;
  }

  // ---- Mutual inverses ----------------------------------------------------------------------

  lemma {:induction false} ValuePositive(s: string)
    requires s != [] && Lowercase(s)
    ensures Value(s) >= 1
  {
    if |s| > 1 {
      ValuePositive(s[..|s| - 1]);
    }
  }

  /** The suffix of an index reads back as that index. */
  lemma {:induction false} IndexOfLetters(index: nat)
    ensures Value(Letters(index)) == index + 1
  {
    if index < 26 {
      assert Value([]) == 0;
      assert Value([Letter(index)]) == Digit(Letter(index));
    } else {
      var front := Letters(index / 26 - 1);
      IndexOfLetters(index / 26 - 1);
      var s := front + [Letter(index % 26)];
      assert s[..|s| - 1] == front;
    }
  }

  /** And the index of a suffix writes that suffix again. */
  lemma {:induction false} LettersOfIndex(s: string)
    requires s != [] && Lowercase(s)
    ensures Value(s) >= 1 && Letters(Value(s) - 1) == s
  {
    ValuePositive(s);
    var front, d := s[..|s| - 1], Digit(s[|s| - 1]);
    assert Letter(d - 1) == s[|s| - 1];
    if front != [] {
      LettersOfIndex(front);
      var index := Value(s) - 1;
      assert index == Value(front) * 26 + (d - 1);
      assert index / 26 == Value(front) && index % 26 == d - 1;
      assert s == front + [Letter(d - 1)];
    } else {
      assert s == [s[0]];
    }
  }

  /** With 64-bit indices the round trip from a suffix works exactly as long as its true index fits. */
  lemma SuffixRoundTripIff(s: string)
    requires s != [] && Lowercase(s)
    ensures var index := Wrap(Value(s) - 1);
            Letters(if index < 0 then 0 else index) == s <==> Value(s) <= TWO63
  {
    LettersOfIndex(s);
    var index := Wrap(Value(s) - 1);
    IndexOfLetters(if index < 0 then 0 else index);
  }

  function Power(n: nat): nat {
    if n == 0 then 1 else 26 * Power(n - 1)
  }

  /** The suffix of n letters z. */
  function AllZ(n: nat): (s: string)
    ensures |s| == n && Lowercase(s)
  {
    if n == 0 then "" else AllZ(n - 1) + "z"
  }

  lemma {:induction false} AllZValue(n: nat)
    ensures Value(AllZ(n)) >= Power(n) - 1
  {
    if n > 0 {
      AllZValue(n - 1);
      assert AllZ(n)[..n - 1] == AllZ(n - 1);
    }
  }

  /** Fourteen letters z are too many. */
  lemma LongSuffixDoesNotReadBack()
    ensures var s := AllZ(14);
            var index := Wrap(Value(s) - 1);
            Letters(if index < 0 then 0 else index) != s
  {
    AllZValue(14);
    assert Power(14) == 64509974703297150976;
    SuffixRoundTripIff(AllZ(14));
  }

  // ---- The next free target -----------------------------------------------------------------

  function DevicePrefix(devPrefix: Option<string>): (prefix: string)
    ensures prefix != "" && Trim(prefix) == prefix
  {
    if devPrefix.Some? && Trim(devPrefix.value) != "" then TrimTwice(devPrefix.value); Trim(devPrefix.value) else "sd"
  }

  /** The index the scan reads from one disk's target. */
  function ReadIndex(target: Option<string>, prefix: string): Option<int> {
    if target.Some? && NamesDisk(Trim(target.value), prefix)
    then Some(Wrap(Value(StripPrefix(Trim(target.value), prefix)) - 1))
    else None
  }

  ghost predicate Used(targets: seq<Option<string>>, prefix: string, index: int) {
    exists k :: 0 <= k < |targets| && ReadIndex(targets[k], prefix) == Some(index)
  }

  ghost predicate FirstUnused(targets: seq<Option<string>>, prefix: string, i: nat) {
    !Used(targets, prefix, i) && forall j | 0 <= j < i :: Used(targets, prefix, j)
  }

  lemma NameReadsBack(prefix: string, i: nat)
    requires prefix != ""
    ensures NamesDisk(prefix + Letters(i), prefix)
    ensures i < 512 ==> Wrap(Value(StripPrefix(prefix + Letters(i), prefix)) - 1) == i
  {
    assert StripPrefix(prefix + Letters(i), prefix) == Letters(i);
    IndexOfLetters(i);
  }

  /** A generated name survives trimming, so a disk that carries it is recognised. */
  lemma NameIsTrimmed(prefix: string, i: nat)
    requires prefix != "" && Trim(prefix) == prefix
    ensures Trim(prefix + Letters(i)) == prefix + Letters(i)
  {
    var name := prefix + Letters(i);
    assert name[0] == prefix[0] && name[|name| - 1] == Letters(i)[|Letters(i)| - 1];
  }

  method UsedIndices(targets: seq<Option<string>>, prefix: string) returns (used: set<int>)
    ensures forall i :: i in used <==> Used(targets, prefix, i)
  {
    used := {};
    for k := 0 to |targets|
      invariant forall i :: i in used <==> Used(targets[..k], prefix, i)
    {
      if targets[k].Some? {
        var index, ok := LinuxDiskTargetIndex(Trim(targets[k].value), prefix);
        if ok {
          used := used + {index};
        }
      }
      UsedExtends(targets, prefix, k);
    }
    assert targets[..|targets|] == targets;
  }

  lemma UsedExtends(targets: seq<Option<string>>, prefix: string, k: nat)
    requires k < |targets|
    ensures forall i :: Used(targets[..k + 1], prefix, i) <==>
              Used(targets[..k], prefix, i) || ReadIndex(targets[k], prefix) == Some(i)
  {
    forall i
      ensures Used(targets[..k + 1], prefix, i) <==>
              Used(targets[..k], prefix, i) || ReadIndex(targets[k], prefix) == Some(i)
    {
      if Used(targets[..k], prefix, i) {
        var j :| 0 <= j < k && ReadIndex(targets[..k][j], prefix) == Some(i);
        assert targets[..k + 1][j] == targets[..k][j];
      }
      if ReadIndex(targets[k], prefix) == Some(i) {
        assert targets[..k + 1][k] == targets[k];
      }
      if Used(targets[..k + 1], prefix, i) {
        var j :| 0 <= j < k + 1 && ReadIndex(targets[..k + 1][j], prefix) == Some(i);
        if j < k {
          assert targets[..k][j] == targets[..k + 1][j];
        }
      }
    }
  }

  /** A name whose index is not in use is the target of no disk, trimmed or not. */
  lemma UnusedNameIsFree(targets: seq<Option<string>>, prefix: string, i: nat)
    requires prefix != "" && Trim(prefix) == prefix && i < 512 && !Used(targets, prefix, i)
    ensures forall k | 0 <= k < |targets| && targets[k].Some? ::
              Trim(targets[k].value) != prefix + Letters(i) && targets[k].value != prefix + Letters(i)
  {
    NameIsTrimmed(prefix, i);
    forall k | 0 <= k < |targets| && targets[k].Some?
      ensures Trim(targets[k].value) != prefix + Letters(i)
    {
      if Trim(targets[k].value) == prefix + Letters(i) {
        NamedTargetIsRead(targets[k].value, prefix, i);
      }
    }
  }

  lemma NamedTargetIsRead(target: string, prefix: string, i: nat)
    requires prefix != "" && i < 512 && Trim(target) == prefix + Letters(i)
    ensures ReadIndex(Some(target), prefix) == Some(i)
  {
    NameReadsBack(prefix, i);
  }

  /** The name returned is used by no disk; the empty name is returned only when no index below 512 is left. */
  method NextAvailableDiskTarget(targets: seq<Option<string>>, devPrefix: Option<string>) returns (name: string)
    ensures name != "" ==> forall k | 0 <= k < |targets| && targets[k].Some? ::
              Trim(targets[k].value) != name && targets[k].value != name
    ensures name != "" ==> exists i: nat | i < 512 && FirstUnused(targets, DevicePrefix(devPrefix), i) ::
              name == DevicePrefix(devPrefix) + Letters(i)
    ensures name == "" <==> forall i | 0 <= i < 512 :: Used(targets, DevicePrefix(devPrefix), i)
  {
    var prefix := DevicePrefix(devPrefix);
    var used := UsedIndices(targets, prefix);
    for i := 0 to 512
      invariant forall j | 0 <= j < i :: Used(targets, prefix, j)
    {
      if i !in used {
        var letters := LinuxDiskLetters(i);
        UnusedNameIsFree(targets, prefix, i);
        assert FirstUnused(targets, prefix, i);
        return prefix + letters;
      }
    }
    return "";
  }

  predicate Carries(target: Option<string>, prefix: string, n: nat) {
    target.Some? && Trim(target.value) == prefix + Letters(n)
  }

  lemma ReadMeansCarries(target: Option<string>, prefix: string) returns (n: nat)
    requires ReadIndex(target, prefix).Some?
    ensures Carries(target, prefix, n) && ReadIndex(target, prefix) == Some(Wrap(n))
  {
    var suffix := StripPrefix(Trim(target.value), prefix);
    LettersOfIndex(suffix);
    n := Value(suffix) - 1;
  }

  lemma CarriesMeansRead(target: Option<string>, prefix: string, n: nat)
    requires prefix != "" && Carries(target, prefix, n)
    ensures ReadIndex(target, prefix) == Some(Wrap(n))
  {
    NameReadsBack(prefix, n);
    assert StripPrefix(prefix + Letters(n), prefix) == Letters(n);
    IndexOfLetters(n);
  }

  /** An index counts as used exactly when a disk has its name, or a name 2^64 indices or a multiple of that further. */
  lemma UsedIff(targets: seq<Option<string>>, prefix: string, i: int)
    requires prefix != ""
    ensures Used(targets, prefix, i) <==>
            exists k, n: nat :: 0 <= k < |targets| && Carries(targets[k], prefix, n) && Wrap(n) == i
  {
    if Used(targets, prefix, i) {
      var k :| 0 <= k < |targets| && ReadIndex(targets[k], prefix) == Some(i);
      var n := ReadMeansCarries(targets[k], prefix);
    }
    if k, n: nat :| 0 <= k < |targets| && Carries(targets[k], prefix, n) && Wrap(n) == i {
      CarriesMeansRead(targets[k], prefix, n);
    }
  }

  /** A disk with such a far name lets a free name pass for used. */
  lemma FarNameBlocksNearOne(prefix: string, i: nat)
    requires prefix != "" && Trim(prefix) == prefix && i < 512
    ensures var targets := [Some(prefix + Letters(i + TWO64))];
            Used(targets, prefix, i) && Trim(targets[0].value) != prefix + Letters(i)
  {
    var far := i + TWO64;
    var targets := [Some(prefix + Letters(far))];
    NameIsTrimmed(prefix, far);
    WrapShift(far, 1);
    assert Carries(targets[0], prefix, far) && Wrap(far) == i;
    UsedIff(targets, prefix, i);
    LettersDiffer(prefix, i, far);
  }

  lemma LettersDiffer(prefix: string, i: nat, j: nat)
    requires i != j
    ensures prefix + Letters(i) != prefix + Letters(j)
  {
    IndexOfLetters(i);
    IndexOfLetters(j);
    assert (prefix + Letters(i))[|prefix|..] == Letters(i) && (prefix + Letters(j))[|prefix|..] == Letters(j);
  }

  /** The configured prefix without blanks around it, or sd. */
  lemma PrefixIs(devPrefix: Option<string>)
    ensures devPrefix.None? || AllSpace(devPrefix.value) ==> DevicePrefix(devPrefix) == "sd"
    ensures devPrefix.Some? && devPrefix.value != "" && Trim(devPrefix.value) == devPrefix.value ==>
              DevicePrefix(devPrefix) == devPrefix.value
  {
    if devPrefix.Some? && AllSpace(devPrefix.value) {
      assert devPrefix.value == devPrefix.value + "" + "";
      TrimIs(devPrefix.value, "", "");
    }
  }
}
