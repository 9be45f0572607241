/** The order of byte strings, and the end of a prefix in it, as key-value stores and string sorting use them. */
module Lex {
  import opened Bytes

  /** Strictly before in lexicographic order. */
  predicate Less(a: Bytes, b: Bytes)
  {
    b != [] && (a == [] || a[0] < b[0] || (a[0] == b[0] && Less(a[1..], b[1..])))
  }

  lemma {:induction false} LessTrans(a: Bytes, b: Bytes, c: Bytes)
    requires Less(a, b) && Less(b, c)
    ensures Less(a, c)
  {
    if a != [] && a[0] == b[0] && b[0] == c[0] { LessTrans(a[1..], b[1..], c[1..]); }
  }

  lemma {:induction false} LessTotal(a: Bytes, b: Bytes)
    ensures a == b || Less(a, b) || Less(b, a)
    ensures !(Less(a, b) && Less(b, a))
    ensures !Less(a, a)
  {
    if a != [] && b != [] && a[0] == b[0] {
      LessTotal(a[1..], b[1..]);
      assert a == [a[0]] + a[1..] && b == [b[0]] + b[1..];
    }
    if a != [] { LessIrreflexive(a); }
  }

  lemma {:induction false} LessIrreflexive(a: Bytes)
    ensures !Less(a, a)
  {
    if a != [] { LessIrreflexive(a[1..]); }
  }

  /** `PrefixEndBytes`: the first key after all keys with this prefix; none when there is no such key. */
  function PrefixEnd(p: Bytes): (r: Option<Bytes>)
    ensures r.Some? ==> r.value != []
  {
    if p == [] then None
    else if p[|p| - 1] < 255 then Some(p[..|p| - 1] + [p[|p| - 1] + 1])
    else PrefixEnd(p[..|p| - 1])
  }

  /** The keys an iterator from `p` to `PrefixEnd(p)` visits. */
  predicate InRange(k: Bytes, p: Bytes, end: Option<Bytes>)
  {
    !Less(k, p) && (end.None? || Less(k, end.value))
  }

  lemma {:induction false} EndAfterFirst(p: Bytes)
    requires p != []
    ensures |p| > 1 && PrefixEnd(p[1..]).Some? ==> PrefixEnd(p) == Some([p[0]] + PrefixEnd(p[1..]).value)
    ensures |p| > 1 && PrefixEnd(p[1..]).None? ==> PrefixEnd(p) == PrefixEnd([p[0]])
  {
    if |p| > 1 {
      var n := |p| - 1;
      assert p[1..][..n - 1] == p[..n][1..];
      if p[n] == 255 {
        if n > 1 { EndAfterFirst(p[..n]); } else { assert p[..n] == [p[0]]; }
      } else {
        assert p[..n] + [p[n] + 1] == [p[0]] + (p[1..][..n - 1] + [p[n] + 1]);
      }
    }
  }

  lemma EndOfOne(b: byte)
    ensures PrefixEnd([b]) == if b < 255 then Some([b + 1]) else None
  {
    assert [b][..0] == [];
    if b < 255 { assert [b][..0] + [b + 1] == [b + 1]; }
  }

  /** The range from a prefix to its end holds exactly the keys with that prefix. */
  lemma {:induction false} RangeIsPrefix(k: Bytes, p: Bytes)
    ensures InRange(k, p, PrefixEnd(p)) <==> p <= k
  {
    if p != [] {
      EndAfterFirst(p);
      EndOfOne(p[0]);
      assert p == [p[0]] + p[1..];
      var e := PrefixEnd(p[1..]);
      assert |p| == 1 ==> p == [p[0]];
      if k != [] {
        assert k == [k[0]] + k[1..];
        RangeIsPrefix(k[1..], p[1..]);
        if |p| > 1 && e.Some? { assert ([p[0]] + e.value)[1..] == e.value; }
        if p[0] < 255 { assert [p[0] + 1][1..] == []; }
        var first: byte := k[0];
        assert first > p[0] && PrefixEnd(p).Some? ==> !Less(k, PrefixEnd(p).value);
        assert p <= k <==> first == p[0] && p[1..] <= k[1..];
      }
    }
  }
}
