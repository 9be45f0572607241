/**
 How a message is written: the generated `MarshalToSizedBuffer` fills a buffer of the right size from its
 end to its start, one field in front of the other.
 */
module Writer {
  import opened Bytes
  import opened Varint
  import opened Wire
  import opened Message

  /** A singular string or bytes field: left out when empty. */
  ghost function Optional(num: nat, s: Bytes): seq<Record>
  {
    if s == [] then [] else [Payload(num, s)]
  }

  /** A singular number: left out when zero. */
  ghost function OptionalWord(num: nat, word: nat): seq<Record>
  {
    if word == 0 then [] else [Number(num, word)]
  }

  /** A repeated field: one record an element, empty ones too. */
  ghost function Repeated(num: nat, ss: seq<Bytes>): seq<Record>
  {
    if ss == [] then [] else [Payload(num, ss[0])] + Repeated(num, ss[1..])
  }

  /** From `before` to `now`, exactly the bytes `x` were written, and they end at `hi`. */
  ghost predicate Wrote(before: Bytes, now: Bytes, at: nat, hi: nat, x: Bytes)
  {
    && |now| == |before|
    && at + |x| == hi <= |now|
    && now[at..hi] == x
    && now[..at] == before[..at]
    && now[hi..] == before[hi..]
  }

  /** Writing `y` just in front of `x` writes `y + x`. */
  lemma WroteBefore(before: Bytes, mid: Bytes, now: Bytes, at: nat, split: nat, hi: nat, y: Bytes, x: Bytes)
    requires Wrote(before, mid, split, hi, x) && Wrote(mid, now, at, split, y)
    ensures Wrote(before, now, at, hi, y + x)
  {
    assert now[at..hi] == now[at..split] + now[split..hi];
    assert now[split..hi] == now[split..][..hi - split] == mid[split..][..hi - split] == mid[split..hi];
    assert now[hi..] == now[split..][hi - split..] == mid[split..][hi - split..] == mid[hi..];
    assert now[..at] == mid[..at] == mid[..split][..at] == before[..split][..at] == before[..at];
  }

  /** Writes the length of a payload that ends the buffer at `at + size`, and its tag, in front of it. */
  method PutHeader(buf: array<byte>, at: nat, size: nat, tag: byte) returns (i: nat)
    requires tag < 128 && |Encode(size)| + 1 <= at <= buf.Length
    modifies buf
    ensures Wrote(old(buf[..]), buf[..], i, at, [tag] + Encode(size))
  {
    hide Encode;
    ghost var before := buf[..];
    i := EncodeVarint(buf, at, size);
    ghost var mid := buf[..];
    assert Wrote(before, mid, i, at, Encode(size));
    i := i - 1;
    buf[i] := tag;
    assert Wrote(mid, buf[..], i, i + 1, [tag]);
    WroteBefore(before, mid, buf[..], i, i + 1, at, [tag], Encode(size));
  }

  lemma OneByteTag(tag: byte, num: nat, s: Bytes, word: nat)
    requires tag < 128
    ensures tag == num * 8 + 2 ==> Bytes1(Payload(num, s)) == ([tag] + Encode(|s|)) + s
    ensures tag == num * 8 ==> Bytes1(Number(num, word)) == [tag] + Encode(word)
  {
  }

  /** Copies a byte string into the buffer, in front of `at`, with its header. */
  method PutBytes(buf: array<byte>, at: nat, s: Bytes, tag: byte, ghost num: nat) returns (i: nat)
    requires tag == num * 8 + 2 < 128
    requires |Bytes1(Payload(num, s))| <= at <= buf.Length
    modifies buf
    ensures Wrote(old(buf[..]), buf[..], i, at, Bytes1(Payload(num, s)))
  {
    OneByteTag(tag, num, s, 0);
    ghost var x := Bytes1(Payload(num, s));
    assert |x| == 1 + |Encode(|s|)| + |s|;
    hide Encode, Wrote, Bytes1;
    ghost var before := buf[..];
    var start := at - |s|;
    CopyInto(buf, start, at, s);
    ghost var mid := buf[..];
    i := PutHeader(buf, start, |s|, tag);
    WroteBefore(before, mid, buf[..], i, start, at, [tag] + Encode(|s|), s);
  }

  method CopyInto(buf: array<byte>, at: nat, hi: nat, s: Bytes)
    requires at + |s| == hi <= buf.Length
    modifies buf
    ensures Wrote(old(buf[..]), buf[..], at, hi, s)
  {
    for k := 0 to |s|
      invariant buf[at..at + k] == s[..k]
      invariant buf[..at] == old(buf[..at]) && buf[at + k..] == old(buf[at + k..])
    {
      buf[at + k] := s[k];
    }
  }

  method PutWord(buf: array<byte>, at: nat, word: nat, tag: byte, ghost num: nat) returns (i: nat)
    requires tag == num * 8 < 128
    requires |Bytes1(Number(num, word))| <= at <= buf.Length
    modifies buf
    ensures Wrote(old(buf[..]), buf[..], i, at, Bytes1(Number(num, word)))
  {
    OneByteTag(tag, num, [], word);
    hide Encode, Wrote, Bytes1;
    i := PutHeader(buf, at, word, tag);
  }

  /** A singular string field, written when it is not empty. */
  method PutOptional(buf: array<byte>, at: nat, s: Bytes, tag: byte, ghost num: nat) returns (i: nat)
    requires tag == num * 8 + 2 < 128
    requires |BytesOf(Optional(num, s))| <= at <= buf.Length
    modifies buf
    ensures Wrote(old(buf[..]), buf[..], i, at, BytesOf(Optional(num, s)))
  {
    hide Bytes1, Wrote;
    i := at;
    if |s| > 0 {
      assert BytesOf([Payload(num, s)]) == Bytes1(Payload(num, s)) + BytesOf([]) == Bytes1(Payload(num, s));
      i := PutBytes(buf, at, s, tag, num);
    } else {
      WroteNothing(buf[..], at);
    }
  }

  lemma WroteNothing(s: Bytes, at: nat)
    requires at <= |s|
    ensures Wrote(s, s, at, at, [])
  {
  }

  /** A repeated string field, written from its last element to its first. */
  method PutRepeated(buf: array<byte>, at: nat, ss: seq<Bytes>, tag: byte, ghost num: nat) returns (i: nat)
    requires tag == num * 8 + 2 < 128
    requires |BytesOf(Repeated(num, ss))| <= at <= buf.Length
    modifies buf
    ensures Wrote(old(buf[..]), buf[..], i, at, BytesOf(Repeated(num, ss)))
  {
    hide Bytes1, Wrote;
    i := at;
    ghost var before := buf[..];
    WroteNothing(before, at);
    assert ss[|ss|..] == [];
    var k := |ss|;
    while k > 0
      invariant 0 <= k <= |ss| && i <= buf.Length
      invariant i + |BytesOf(Repeated(num, ss[k..]))| == at
      invariant Wrote(before, buf[..], i, at, BytesOf(Repeated(num, ss[k..])))
    {
      k := k - 1;
      ghost var mid, split := buf[..], i;
      RepeatedFits(num, ss, k);
      i := PutBytes(buf, i, ss[k], tag, num);
      RepeatedStep(num, ss, k);
      WroteBefore(before, mid, buf[..], i, split, at, Bytes1(Payload(num, ss[k])), BytesOf(Repeated(num, ss[k + 1..])));
    }
    assert ss[0..] == ss;
  }

  lemma RepeatedStep(num: nat, ss: seq<Bytes>, k: nat)
    requires k < |ss|
    ensures BytesOf(Repeated(num, ss[k..])) == Bytes1(Payload(num, ss[k])) + BytesOf(Repeated(num, ss[k + 1..]))
  {
  }

  /** A suffix of a repeated field takes no more room than the whole. */
  lemma {:induction false} RepeatedFits(num: nat, ss: seq<Bytes>, k: nat)
    requires k <= |ss|
    ensures |BytesOf(Repeated(num, ss[k..]))| <= |BytesOf(Repeated(num, ss))|
    ensures k < |ss| ==>
      |BytesOf(Repeated(num, ss[k..]))| == |Bytes1(Payload(num, ss[k]))| + |BytesOf(Repeated(num, ss[k + 1..]))|
  {
    hide Bytes1;
    if k < |ss| { RepeatedStep(num, ss, k); }
    if k > 0 {
      RepeatedStep(num, ss, k - 1);
      RepeatedFits(num, ss, k - 1);
    } else {
      assert ss[0..] == ss;
    }
  }

  /** Each element takes no more room than the whole field. */
  lemma {:induction false} ElementFits(num: nat, ss: seq<Bytes>, i: nat)
    requires i < |ss|
    ensures |ss[i]| <= |BytesOf(Repeated(num, ss))|
  {
    hide Encode;
    assert Repeated(num, ss)[1..] == Repeated(num, ss[1..]);
    if i > 0 { ElementFits(num, ss[1..], i - 1); }
  }

  /** The terms that the generated `Size` adds up. */
  lemma PayloadSize(num: nat, s: Bytes)
    requires num < 15
    ensures |Bytes1(Payload(num, s))| == 1 + |s| + Sov(|s|)
  {
    OneByteTag(num * 8 + 2, num, s, 0);
    hide Encode, Sov, Bytes1;
    SovIsLength(|s|);
  }

  lemma WordSize(num: nat, word: nat)
    requires num < 15
    ensures |Bytes1(Number(num, word))| == 1 + Sov(word)
  {
    OneByteTag(num * 8, num, [], word);
    hide Encode, Sov, Bytes1;
    SovIsLength(word);
  }

  /** What `Size` adds for a string field of length `l`. */
  function StringTerm(l: nat): nat
  {
    if l > 0 then 1 + l + Sov(l) else 0
  }

  /** What `Size` adds for a number field. */
  function WordTerm(word: nat): nat
  {
    if word != 0 then 1 + Sov(word) else 0
  }

  lemma OptionalSize(num: nat, s: Bytes)
    requires num < 15
    ensures |BytesOf(Optional(num, s))| == StringTerm(|s|)
  {
    hide Bytes1, Sov;
    PayloadSize(num, s);
    assert BytesOf([Payload(num, s)]) == Bytes1(Payload(num, s)) + BytesOf([]);
  }

  method SizeRepeated(ss: seq<Bytes>, ghost num: nat) returns (n: nat)
    requires num < 15
    ensures n == |BytesOf(Repeated(num, ss))|
  {
    hide Bytes1, Sov;
    n := 0;
    for k := 0 to |ss|
      invariant n + |BytesOf(Repeated(num, ss[k..]))| == |BytesOf(Repeated(num, ss))|
    {
      RepeatedStep(num, ss, k);
      PayloadSize(num, ss[k]);
      n := n + 1 + |ss[k]| + Sov(|ss[k]|);
    }
  }

  lemma {:induction false} RepeatedWritable(schema: Schema, num: nat, ss: seq<Bytes>)
    requires ValidNum(num) && num in schema && schema[num].LengthDelimited?
    ensures AllWritable(schema, Repeated(num, ss))
  {
    if ss != [] { RepeatedWritable(schema, num, ss[1..]); }
  }

  lemma NoRecords(num: nat, ss: seq<Bytes>)
    ensures BytesOf(Repeated(num, ss[|ss|..])) == []
  {
  }

  /** A nested message that is already in place becomes a field of the outer one. */
  method PutNested(buf: array<byte>, at: nat, hi: nat, tag: byte, ghost num: nat, ghost x: Bytes, ghost before: Bytes)
    returns (i: nat)
    requires tag == num * 8 + 2 < 128 && hi <= buf.Length
    requires Wrote(before, buf[..], at, hi, x) && |Bytes1(Payload(num, x))| <= hi
    modifies buf
    ensures Wrote(before, buf[..], i, hi, Bytes1(Payload(num, x)))
  {
    OneByteTag(tag, num, x, 0);
    hide Encode, Bytes1;
    ghost var mid := buf[..];
    i := PutHeader(buf, at, hi - at, tag);
    hide Wrote;
    WroteBefore(before, mid, buf[..], i, at, hi, [tag] + Encode(|x|), x);
  }

  lemma RoomForPayload(num: nat, x: Bytes)
    ensures |x| <= |Bytes1(Payload(num, x))|
  {
  }

  /** A number field, written when it is not zero. */
  method PutOptionalWord(buf: array<byte>, at: nat, word: nat, tag: byte, ghost num: nat) returns (i: nat)
    requires tag == num * 8 < 128
    requires |BytesOf(OptionalWord(num, word))| <= at <= buf.Length
    modifies buf
    ensures Wrote(old(buf[..]), buf[..], i, at, BytesOf(OptionalWord(num, word)))
  {
    hide Bytes1, Wrote;
    i := at;
    if word != 0 {
      assert BytesOf([Number(num, word)]) == Bytes1(Number(num, word)) + BytesOf([]) == Bytes1(Number(num, word));
      i := PutWord(buf, at, word, tag, num);
    } else {
      WroteNothing(buf[..], at);
    }
  }

  lemma OptionalWordSize(num: nat, word: nat)
    requires num < 15
    ensures |BytesOf(OptionalWord(num, word))| == WordTerm(word)
  {
    hide Bytes1, Sov;
    WordSize(num, word);
    assert BytesOf([Number(num, word)]) == Bytes1(Number(num, word)) + BytesOf([]);
  }

  // ----- the layout of fields -----

  /** A length-delimited field: tag, length, bytes. */
  ghost function Tagged(tag: byte, s: Bytes): Bytes
  {
    [tag] + Encode(|s|) + s
  }

  /** A varint field: tag, word. */
  ghost function TaggedWord(tag: byte, word: nat): Bytes
  {
    [tag] + Encode(word)
  }

  ghost function TaggedUnlessEmpty(tag: byte, s: Bytes): Bytes
  {
    if s == [] then [] else Tagged(tag, s)
  }

  ghost function TaggedUnlessZero(tag: byte, word: nat): Bytes
  {
    if word == 0 then [] else TaggedWord(tag, word)
  }

  ghost function TaggedEach(tag: byte, ss: seq<Bytes>): Bytes
  {
    if ss == [] then [] else Tagged(tag, ss[0]) + TaggedEach(tag, ss[1..])
  }

  lemma OptionalLayout(num: nat, tag: byte, s: Bytes)
    requires tag == num * 8 + 2 < 128
    ensures Bytes1(Payload(num, s)) == Tagged(tag, s)
    ensures BytesOf(Optional(num, s)) == TaggedUnlessEmpty(tag, s)
  {
    OneByteTag(tag, num, s, 0);
    hide Bytes1, Encode;
    if s != [] { assert Optional(num, s)[1..] == []; }
  }

  lemma OptionalWordLayout(num: nat, tag: byte, word: nat)
    requires tag == num * 8 < 128
    ensures Bytes1(Number(num, word)) == TaggedWord(tag, word)
    ensures BytesOf(OptionalWord(num, word)) == TaggedUnlessZero(tag, word)
  {
    OneByteTag(tag, num, [], word);
    hide Bytes1, Encode;
    if word != 0 { assert OptionalWord(num, word)[1..] == []; }
  }

  lemma {:induction false} RepeatedLayout(num: nat, tag: byte, ss: seq<Bytes>)
    requires tag == num * 8 + 2 < 128
    ensures BytesOf(Repeated(num, ss)) == TaggedEach(tag, ss)
  {
    if ss != [] {
      OptionalLayout(num, tag, ss[0]);
      RepeatedLayout(num, tag, ss[1..]);
      assert Repeated(num, ss)[1..] == Repeated(num, ss[1..]);
      hide Bytes1, Tagged;
    }
  }

  /** A length-delimited field behind a message that decodes is applied on top of it. */
  lemma FieldBehind<M>(f: Format<M>, a: Bytes, num: nat, tag: byte, s: Bytes, m: M, m1: M)
    requires tag == num * 8 + 2 < 128 && num in f.schema && f.schema[num].LengthDelimited?
    requires Decode(f, a, 0, m) == Ok(m1) && num >= 1 && |a + Tagged(tag, s)| < TWO_63
    ensures Decode(f, a + Tagged(tag, s), 0, m) == f.apply(m1, Payload(num, s))
  {
    hide Decode, Bytes1, Tagged;
    OptionalLayout(num, tag, s);
    DecodeField(f, a, Payload(num, s), m, m1);
  }

  /** The same for a varint field. */
  lemma WordBehind<M>(f: Format<M>, a: Bytes, num: nat, tag: byte, word: nat, m: M, m1: M)
    requires tag == num * 8 < 128 && num in f.schema && f.schema[num].Word?
    requires Decode(f, a, 0, m) == Ok(m1) && num >= 1 && word < TWO_64 && |a + TaggedWord(tag, word)| < TWO_63
    ensures Decode(f, a + TaggedWord(tag, word), 0, m) == f.apply(m1, Number(num, word))
  {
    hide Decode, Bytes1, TaggedWord;
    OptionalWordLayout(num, tag, word);
    DecodeField(f, a, Number(num, word), m, m1);
  }
}
