/** Strings as the driver uses them: trimming and byte-wise order. */
module Text {

  /** The code points Go's `unicode.IsSpace` accepts. */
  predicate IsSpace(c: char) {
    var n := c as int;
    || 9 <= n <= 13 || n == 32 || n == 0x85 || n == 0xA0 || n == 0x1680 || 0x2000 <= n <= 0x200A
    || n == 0x2028 || n == 0x2029 || n == 0x202F || n == 0x205F || n == 0x3000
  }

  function TrimLeft(s: string): (t: string)
    ensures |t| <= |s|
    ensures t != [] ==> !IsSpace(t[0])
    ensures s != [] && !IsSpace(s[0]) ==> t == s
    ensures s != [] && !IsSpace(s[|s| - 1]) ==> t != [] && t[|t| - 1] == s[|s| - 1]
  {
    if s != [] && IsSpace(s[0]) then TrimLeft(s[1..]) else s
  }

  function TrimRight(s: string): (t: string)
    ensures t <= s
    ensures t != [] ==> !IsSpace(t[|t| - 1])
    ensures s != [] && !IsSpace(s[|s| - 1]) ==> t == s
  {
    if s != [] && IsSpace(s[|s| - 1]) then TrimRight(s[..|s| - 1]) else s
  }

  /** `strings.TrimSpace`. */
  function Trim(s: string): (t: string)
    ensures t != [] ==> !IsSpace(t[0]) && !IsSpace(t[|t| - 1])
    ensures s != [] && !IsSpace(s[0]) && !IsSpace(s[|s| - 1]) ==> t == s
    ensures s == [] ==> t == []
  {
    TrimRight(TrimLeft(s))
  }

  lemma TrimTwice(s: string)
    ensures Trim(Trim(s)) == Trim(s)
  {
  }

  predicate AllSpace(s: string) {
    forall i | 0 <= i < |s| :: IsSpace(s[i])
  }

  lemma {:induction false} TrimLeftDrops(blanks: string, rest: string)
    requires AllSpace(blanks) && (rest == "" || !IsSpace(rest[0]))
    ensures TrimLeft(blanks + rest) == rest
  {
    if blanks == "" {
      assert blanks + rest == rest;
    } else {
      assert (blanks + rest)[1..] == blanks[1..] + rest;
      TrimLeftDrops(blanks[1..], rest);
    }
  }

  lemma {:induction false} TrimRightDrops(rest: string, blanks: string)
    requires AllSpace(blanks) && (rest == "" || !IsSpace(rest[|rest| - 1]))
    ensures TrimRight(rest + blanks) == rest
  {
    if blanks == "" {
      assert rest + blanks == rest;
    } else {
      var last := |blanks| - 1;
      assert (rest + blanks)[..|rest + blanks| - 1] == rest + blanks[..last];
      TrimRightDrops(rest, blanks[..last]);
    }
  }

  /** Trimming removes the blanks at both ends and nothing else. */
  lemma TrimIs(left: string, core: string, right: string)
    requires AllSpace(left) && AllSpace(right)
    requires core == "" || (!IsSpace(core[0]) && !IsSpace(core[|core| - 1]))
    ensures Trim(left + core + right) == core
  {
    if core == "" {
      assert left + core + right == (left + right) + "";
      TrimLeftDrops(left + right, "");
    } else {
      assert left + core + right == left + (core + right);
      TrimLeftDrops(left, core + right);
      TrimRightDrops(core, right);
    }
  }

  /** The characters whose upper case is an ASCII letter; all others compare unequal to ASCII either way. */
  function UpperChar(c: char): char {
    if 'a' <= c <= 'z' then (c as int - 'a' as int + 'A' as int) as char
    else if c as int == 0x17F then 'S'
    else if c as int == 0x131 then 'I'
    else c
  }

  /** `strings.ToUpper`, for comparing with ASCII words. */
  function Upper(s: string): (t: string)
    ensures |t| == |s| && forall i | 0 <= i < |t| :: !('a' <= t[i] <= 'z')
  {
    seq(|s|, i requires 0 <= i < |s| => UpperChar(s[i]))
  }

  /** The order of `sort.Strings`. */
  predicate Less(a: string, b: string) {
    b != [] && (a == [] || a[0] < b[0] || (a[0] == b[0] && Less(a[1..], b[1..])))
  }

  lemma {:induction false} LessIrreflexive(a: string)
    ensures !Less(a, a)
  {
    if a != [] {
      LessIrreflexive(a[1..]);
    }
  }

  lemma {:induction false} LessTransitive(a: string, b: string, c: string)
    requires Less(a, b) && Less(b, c)
    ensures Less(a, c)
  {
    if a != [] && a[0] == b[0] == c[0] {
      LessTransitive(a[1..], b[1..], c[1..]);
    }
  }

  lemma {:induction false} LessTotal(a: string, b: string)
    ensures Less(a, b) || a == b || Less(b, a)
  {
    if a != [] && b != [] && a[0] == b[0] {
      LessTotal(a[1..], b[1..]);
      if a[1..] == b[1..] {
        assert a == [a[0]] + a[1..] == b;
      }
    }
  }

  predicate StrictlySorted(keys: seq<string>) {
    forall i, j | 0 <= i < j < |keys| :: Less(keys[i], keys[j])
  }

  /** Insertion into a sorted sequence. */
  function InsertKey(keys: seq<string>, key: string): seq<string> {
    if keys == [] || Less(key, keys[0]) then [key] + keys else [keys[0]] + InsertKey(keys[1..], key)
  }

  lemma {:induction false} InsertKeyMembers(keys: seq<string>, key: string)
    ensures forall k :: k in InsertKey(keys, key) <==> k == key || k in keys
  {
    if keys != [] && !Less(key, keys[0]) {
      InsertKeyMembers(keys[1..], key);
    }
  }

  lemma {:induction false} InsertKeySorted(keys: seq<string>, key: string)
    requires StrictlySorted(keys) && key !in keys
    ensures StrictlySorted(InsertKey(keys, key))
  {
    if keys != [] {
      if Less(key, keys[0]) {
        forall i | 1 <= i < |keys|
          ensures Less(key, keys[i])
        {
          LessTransitive(key, keys[0], keys[i]);
        }
      } else {
        InsertKeySorted(keys[1..], key);
        InsertKeyMembers(keys[1..], key);
        LessTotal(key, keys[0]);
        var rest := InsertKey(keys[1..], key);
        forall i | 0 <= i < |rest|
          ensures Less(keys[0], rest[i])
        {
          assert rest[i] in rest;
        }
      }
    }
  }
}
