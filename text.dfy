/** Python's string primitives that the extraction relies on: `str.strip()` with no
    argument, and `"".join(parts)`. Strings are sequences of Unicode scalar values.
    The functions carry no postconditions of their own; what they mean is stated by
    the lemmas after them, so that proofs about the records do not pay for it. */
module Text {

  /** The characters Python's `str.isspace` accepts, which is the set `str.strip()`
      removes when it is given no argument. The lemmas of this module use only that
      this is a fixed predicate on characters. */
  predicate IsSpace(c: char) {
    var n := c as int;
    || 9 <= n <= 13          // \t \n \v \f \r
    || 28 <= n <= 32         // the four information separators and ' '
    || n == 0x85 || n == 0xA0 || n == 0x1680
    || 0x2000 <= n <= 0x200A
    || n == 0x2028 || n == 0x2029 || n == 0x202F || n == 0x205F || n == 0x3000
  }

  predicate AllSpace(s: string) {
    forall k :: 0 <= k < |s| ==> IsSpace(s[k])
  }

  /** Neither end of `s` is whitespace: the shape of every result of `Strip`. */
  predicate NoEdgeSpace(s: string) {
    s == [] || (!IsSpace(s[0]) && !IsSpace(s[|s| - 1]))
  }

  /** `s.lstrip()`: drops the leading whitespace of `s`. */
  function StripLeading(s: string): string
    decreases |s|
  {
    if s != [] && IsSpace(s[0]) then StripLeading(s[1..]) else s
  }

  /** `s.rstrip()`: drops the trailing whitespace of `s`. */
  function StripTrailing(s: string): string
    decreases |s|
  {
    if s != [] && IsSpace(s[|s| - 1]) then StripTrailing(s[..|s| - 1]) else s
  }

  /** `s.strip()`: `s` without its leading and trailing whitespace. */
  function Strip(s: string): string {
    StripTrailing(StripLeading(s))
  }

  /** `"".join(parts)`. */
  function Concat(parts: seq<string>): string {
    if parts == [] then [] else parts[0] + Concat(parts[1..])
  }

  /** `s.lstrip()` keeps a suffix of `s`, removes only whitespace, and stops at the
      first character that is not whitespace. */
  lemma {:induction false} StripLeadingSpec(s: string)
    ensures var r := StripLeading(s);
      && |r| <= |s| && r == s[|s| - |r|..]
      && AllSpace(s[..|s| - |r|])
      && (r == [] || !IsSpace(r[0]))
    decreases |s|
  {
    if s != [] && IsSpace(s[0]) {
      StripLeadingSpec(s[1..]);
      var r := StripLeading(s);
      assert s[..|s| - |r|] == [s[0]] + s[1..][..|s| - 1 - |r|];
    }
  }

  /** `s.rstrip()` keeps a prefix of `s`, removes only whitespace, and stops at the
      last character that is not whitespace. */
  lemma {:induction false} StripTrailingSpec(s: string)
    ensures var r := StripTrailing(s);
      && |r| <= |s| && r == s[..|r|]
      && AllSpace(s[|r|..])
      && (r == [] || !IsSpace(r[|r| - 1]))
    decreases |s|
  {
    if s != [] && IsSpace(s[|s| - 1]) {
      var t := s[..|s| - 1];
      StripTrailingSpec(t);
      var r := StripTrailing(s);
      assert s[|r|..] == t[|r|..] + [s[|s| - 1]];
    }
  }

  /** What `Strip` removes is whitespace and what it keeps is a contiguous slice
      with no whitespace at either end: `s[..lo]` and `s[hi..]` are whitespace runs
      and `Strip(s)` is `s[lo..hi]`. With `StripCharacterized` this pins `Strip`
      down completely. */
  lemma StripSplits(s: string) returns (lo: nat, hi: nat)
    ensures lo <= hi <= |s|
    ensures Strip(s) == s[lo..hi]
    ensures AllSpace(s[..lo]) && AllSpace(s[hi..])
    ensures NoEdgeSpace(Strip(s))
  {
    var t := StripLeading(s);
    StripLeadingSpec(s);
    var r := StripTrailing(t);
    StripTrailingSpec(t);
    lo := |s| - |t|;
    hi := lo + |r|;
    assert t[|r|..] == s[hi..];
    if r != [] {
      assert r[0] == t[0];
    }
  }

  lemma {:induction false} StripLeadingSkips(p: string, t: string)
    requires AllSpace(p)
    ensures StripLeading(p + t) == StripLeading(t)
  {
    if p != [] {
      assert (p + t)[1..] == p[1..] + t;
      StripLeadingSkips(p[1..], t);
    } else {
      assert p + t == t;
    }
  }

  lemma {:induction false} StripTrailingSkips(t: string, q: string)
    requires AllSpace(q)
    ensures StripTrailing(t + q) == StripTrailing(t)
  {
    if q != [] {
      assert (t + q)[..|t + q| - 1] == t + q[..|q| - 1];
      StripTrailingSkips(t, q[..|q| - 1]);
    } else {
      assert t + q == t;
    }
  }

  /** `Strip` is characterised independently of how it is computed: whenever `s`
      splits into a whitespace run, a middle with no edge whitespace, and another
      whitespace run, `s.strip()` is that middle. */
  lemma StripCharacterized(p: string, m: string, q: string)
    requires AllSpace(p) && NoEdgeSpace(m) && AllSpace(q)
    ensures Strip(p + m + q) == m
  {
    assert p + m + q == p + (m + q);
    StripLeadingSkips(p, m + q);
    if m == [] {
      assert m + q == q;
      StripLeadingSkips(q, []);
      assert q + [] == q;
    } else {
      assert (m + q)[0] == m[0];
      StripTrailingSkips(m, q);
    }
  }

  /** Whitespace appended to a string that has none at its edges is stripped off. */
  lemma StripDropsAddedSpace(a: string, gap: string)
    requires NoEdgeSpace(a) && AllSpace(gap)
    ensures Strip(a + gap) == a
  {
    var e: string := [];
    assert e + a + gap == a + gap;
    StripCharacterized(e, a, gap);
  }

  /** Stripping twice is stripping once. */
  lemma StripIdempotent(s: string)
    ensures Strip(Strip(s)) == Strip(s)
  {
    var _, _ := StripSplits(s);
    StripDropsAddedSpace(Strip(s), []);
    assert Strip(s) + [] == Strip(s);
  }

  lemma ConcatSingle(t: string)
    ensures Concat([t]) == t
  {
    assert [t][1..] == [];
  }

  lemma {:induction false} ConcatAppend(a: seq<string>, b: seq<string>)
    ensures Concat(a + b) == Concat(a) + Concat(b)
  {
    if a == [] {
      assert a + b == b;
    } else {
      assert (a + b)[1..] == a[1..] + b;
      ConcatAppend(a[1..], b);
    }
  }

  /** Joining two strings with no edge whitespace gives one with none either. */
  lemma NoEdgeSpaceJoin(a: string, b: string)
    requires NoEdgeSpace(a) && NoEdgeSpace(b)
    ensures NoEdgeSpace(a + b)
  {
    if a != [] && b != [] {
      assert (a + b)[|a + b| - 1] == b[|b| - 1];
    }
  }
}
