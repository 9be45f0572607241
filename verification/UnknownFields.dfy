/**
 Fields that a message does not know. Their grammar, groups nested to any depth included, is stated
 here on its own; the skipper of the generated code is shown to consume exactly one of them, so that
 adding one anywhere between the fields of a message never changes what the message means.
 */
module UnknownFields {
  import opened Bytes
  import opened Varint
  import opened Wire
  import opened Message

  /** A well-formed field. A group holds fields; nothing ties the number of its end tag to that of its start. */
  datatype Field =
    | WordField(num: nat, word: nat)
    | Fixed64(num: nat, data: Bytes)
    | PayloadField(num: nat, data: Bytes)
    | Group(num: nat, fields: seq<Field>, endNum: nat)
    | Fixed32(num: nat, data: Bytes)

  ghost predicate WellFormed(f: Field)
  {
    && ValidNum(f.num)
    && match f
       case WordField(_, word) => word < TWO_64
       case Fixed64(_, data) => |data| == 8
       case PayloadField(_, data) => |data| < TWO_63
       case Group(_, fields, endNum) => ValidNum(endNum) && forall g :: g in fields ==> WellFormed(g)
       case Fixed32(_, data) => |data| == 4
  }

  ghost function Tag(num: nat, wireType: nat): (r: Bytes)
    ensures |r| >= 1
  {
    Encode(num * 8 + wireType)
  }

  ghost function FieldBytes(f: Field): Bytes
    decreases f, 1
  {
    match f
    case WordField(num, word) => Tag(num, 0) + Encode(word)
    case Fixed64(num, data) => Tag(num, 1) + data
    case PayloadField(num, data) => Tag(num, 2) + (Encode(|data|) + data)
    case Group(num, fields, endNum) => Tag(num, 3) + (FieldsBytes(fields) + Tag(endNum, 4))
    case Fixed32(num, data) => Tag(num, 5) + data
  }

  ghost function FieldsBytes(fields: seq<Field>): Bytes
    decreases fields, 0
  {
    if fields == [] then [] else FieldBytes(fields[0]) + FieldsBytes(fields[1..])
  }

  /** `x` stands in `s` at index `at`. */
  ghost predicate At(s: Bytes, at: nat, x: Bytes)
  {
    at + |x| <= |s| && s[at..at + |x|] == x
  }

  lemma AtParts(s: Bytes, at: nat, x: Bytes, y: Bytes)
    requires At(s, at, x + y)
    ensures At(s, at, x) && At(s, at + |x|, y)
  {
    assert s[at..at + |x|] == (x + y)[..|x|] == x;
    assert s[at + |x|..at + |x| + |y|] == (x + y)[|x|..] == y;
  }

  lemma ReadAt(s: Bytes, at: nat, v: nat)
    requires v < TWO_64 && At(s, at, Encode(v))
    ensures Read(s[at..]) == Ok((v, |Encode(v)|))
  {
    hide Read, Encode;
    assert s[at..] == Encode(v) + s[at + |Encode(v)|..];
    ReadEncode(v, s[at + |Encode(v)|..]);
  }

  // ----- skipping -----

  lemma TagToken(s: Bytes, at: nat, num: nat, wireType: nat, end: nat)
    requires ValidNum(num) && wireType < 8 && At(s, at, Tag(num, wireType))
    requires SkipBody(s, at + |Tag(num, wireType)|, wireType) == Ok(end)
    ensures TokenAt(s, at) == Ok((wireType, end))
  {
    hide Read, SkipBody, Encode, At;
    var tag := num * 8 + wireType;
    assert tag % 8 == wireType;
    ReadAt(s, at, tag);
  }

  lemma WordToken(s: Bytes, num: nat, word: nat, at: nat)
    requires ValidNum(num) && word < TWO_64 && At(s, at, Tag(num, 0) + Encode(word))
    ensures TokenAt(s, at) == Ok((0, at + |Tag(num, 0)| + |Encode(word)|))
  {
    hide Read, Encode, TokenAt;
    AtParts(s, at, Tag(num, 0), Encode(word));
    ReadAt(s, at + |Tag(num, 0)|, word);
    TagToken(s, at, num, 0, at + |Tag(num, 0)| + |Encode(word)|);
  }

  lemma FixedToken(s: Bytes, num: nat, wireType: nat, data: Bytes, at: nat)
    requires ValidNum(num) && At(s, at, Tag(num, wireType) + data)
    requires (wireType == 1 && |data| == 8) || (wireType == 5 && |data| == 4)
    ensures TokenAt(s, at) == Ok((wireType, at + |Tag(num, wireType)| + |data|))
  {
    hide Read, Encode, TokenAt;
    AtParts(s, at, Tag(num, wireType), data);
    TagToken(s, at, num, wireType, at + |Tag(num, wireType)| + |data|);
  }

  lemma PayloadToken(s: Bytes, num: nat, data: Bytes, at: nat)
    requires ValidNum(num) && |data| < TWO_63 && At(s, at, Tag(num, 2) + (Encode(|data|) + data))
    ensures TokenAt(s, at) == Ok((2, at + |Tag(num, 2)| + |Encode(|data|)| + |data|))
  {
    hide Read, Encode, TokenAt;
    AtParts(s, at, Tag(num, 2), Encode(|data|) + data);
    AtParts(s, at + |Tag(num, 2)|, Encode(|data|), data);
    ReadAt(s, at + |Tag(num, 2)|, |data|);
    TagToken(s, at, num, 2, at + |Tag(num, 2)| + |Encode(|data|)| + |data|);
  }

  lemma ScalarToken(s: Bytes, f: Field, at: nat)
    requires !f.Group? && WellFormed(f) && At(s, at, FieldBytes(f))
    ensures TokenAt(s, at) == Ok((WireType(f), at + |FieldBytes(f)|))
  {
    hide TokenAt, At;
    match f
    case WordField(num, word) => WordToken(s, num, word, at);
    case Fixed64(num, data) => FixedToken(s, num, 1, data, at);
    case PayloadField(num, data) => PayloadToken(s, num, data, at);
    case Fixed32(num, data) => FixedToken(s, num, 5, data, at);
  }

  /** Standing at `at` with `depth` groups open, the skipper ends with `r`. */
  ghost predicate Ends(s: Bytes, at: nat, depth: nat, r: Result<nat, Error>)
  {
    if depth == 0 then r == Ok(at) else Skip(s, at, depth) == r
  }

  lemma SkipStep(s: Bytes, at: nat, wireType: nat, next: nat, depth: nat, r: Result<nat, Error>)
    requires at < |s| < TWO_63 && next <= |s|
    requires TokenAt(s, at) == Ok((wireType, next)) && Opened(depth, wireType) >= 0
    requires Ends(s, next, Opened(depth, wireType), r)
    ensures Skip(s, at, depth) == r
  {
  }

  /** At any depth, the skipper walks over a field, however deep its groups, to just after its last byte. */
  lemma {:induction false} SkipsField(f: Field, s: Bytes, at: nat, depth: nat, r: Result<nat, Error>)
    requires WellFormed(f) && |s| < TWO_63 && At(s, at, FieldBytes(f))
    requires Ends(s, at + |FieldBytes(f)|, depth, r)
    ensures Skip(s, at, depth) == r
    decreases f, 1
  {
    hide Skip, At, Encode;
    match f
    case Group(num, fields, endNum) =>
      GroupParts(s, at, Tag(num, 3), FieldsBytes(fields), Tag(endNum, 4));
      SkipsGroup(num, fields, endNum, s, at, depth, r);
    case _ =>
      SkipsScalar(f, s, at, depth, r);
  }

  lemma SkipsScalar(f: Field, s: Bytes, at: nat, depth: nat, r: Result<nat, Error>)
    requires !f.Group? && WellFormed(f) && |s| < TWO_63 && At(s, at, FieldBytes(f))
    requires Ends(s, at + |FieldBytes(f)|, depth, r)
    ensures Skip(s, at, depth) == r
  {
    assert |FieldBytes(f)| > 0;
    hide Skip, TokenAt, FieldBytes;
    ScalarToken(s, f, at);
    SkipStep(s, at, WireType(f), at + |FieldBytes(f)|, depth, r);
  }

  lemma {:induction false} SkipsGroup(num: nat, fields: seq<Field>, endNum: nat, s: Bytes,
      at: nat, depth: nat, r: Result<nat, Error>)
    requires ValidNum(num) && ValidNum(endNum) && forall g :: g in fields ==> WellFormed(g)
    requires |s| < TWO_63
    requires var t, inner, e := Tag(num, 3), FieldsBytes(fields), Tag(endNum, 4);
      && At(s, at, t) && At(s, at + |t|, inner) && At(s, at + |t| + |inner|, e)
      && Ends(s, at + |t| + |inner| + |e|, depth, r)
    ensures Skip(s, at, depth) == r
    decreases fields, 2
  {
    hide Skip, At, Encode, FieldsBytes;
    var t, inner := Tag(num, 3), FieldsBytes(fields);
    SkipsTag(s, at + |t| + |inner|, endNum, 4, depth + 1, r);
    SkipsFields(fields, s, at + |t|, depth + 1, r);
    SkipsTag(s, at, num, 3, depth, r);
  }

  lemma GroupParts(s: Bytes, at: nat, t: Bytes, inner: Bytes, e: Bytes)
    requires At(s, at, t + (inner + e))
    ensures At(s, at, t) && At(s, at + |t|, inner) && At(s, at + |t| + |inner|, e)
  {
    hide At;
    AtParts(s, at, t, inner + e);
    AtParts(s, at + |t|, inner, e);
  }

  /** A tag that starts or ends a group. */
  lemma SkipsTag(s: Bytes, at: nat, num: nat, wireType: nat, depth: nat, r: Result<nat, Error>)
    requires ValidNum(num) && (wireType == 3 || (wireType == 4 && depth > 0))
    requires |s| < TWO_63 && At(s, at, Tag(num, wireType))
    requires Ends(s, at + |Tag(num, wireType)|, Opened(depth, wireType), r)
    ensures Skip(s, at, depth) == r
  {
    hide Skip, TokenAt, Tag;
    TagToken(s, at, num, wireType, at + |Tag(num, wireType)|);
    SkipStep(s, at, wireType, at + |Tag(num, wireType)|, depth, r);
  }

  lemma {:induction false} SkipsFields(fields: seq<Field>, s: Bytes, at: nat, depth: nat, r: Result<nat, Error>)
    requires depth > 0 && forall g :: g in fields ==> WellFormed(g)
    requires |s| < TWO_63 && At(s, at, FieldsBytes(fields))
    requires Skip(s, at + |FieldsBytes(fields)|, depth) == r
    ensures Skip(s, at, depth) == r
    decreases fields, 0
  {
    hide Skip, FieldBytes;
    if fields != [] {
      var first, rest := FieldBytes(fields[0]), FieldsBytes(fields[1..]);
      AtParts(s, at, first, rest);
      SkipsFields(fields[1..], s, at + |first|, depth, r);
      SkipsField(fields[0], s, at, depth, r);
    }
  }

  ghost function WireType(f: Field): nat
  {
    match f
    case WordField(_, _) => 0
    case Fixed64(_, _) => 1
    case PayloadField(_, _) => 2
    case Group(_, _, _) => 3
    case Fixed32(_, _) => 5
  }

  lemma StartsWithTag(f: Field)
    ensures |Tag(f.num, WireType(f))| <= |FieldBytes(f)|
    ensures FieldBytes(f) == Tag(f.num, WireType(f)) + FieldBytes(f)[|Tag(f.num, WireType(f))|..]
  {
  }

  /** A field whose number is not in the schema is read as one unknown record. */
  lemma ReadsAsUnknown(schema: Schema, f: Field)
    requires WellFormed(f) && f.num !in schema
    requires |FieldBytes(f)| < TWO_63
    ensures Next(schema, FieldBytes(f), 0) == Ok((Unknown, |FieldBytes(f)|))
  {
    hide Skip, Read, FieldBytes;
    var s := FieldBytes(f);
    var t := Tag(f.num, WireType(f));
    StartsWithTag(f);
    TagReads(f.num, WireType(f), s[|t|..]);
    SkipsField(f, s, 0, 0, Ok(|s|));
  }

  /** Formats that leave a message alone when they meet a record they do not know. */
  ghost predicate IgnoresUnknown<M(!new)>(f: Format<M>)
  {
    forall m :: f.apply(m, Unknown) == Ok(m)
  }

  /**
   A well-formed field that the format does not know can be put after any message, or between any two
   parts of one, and the result stays the same.
   */
  lemma UnknownFieldIsNeutral<M(!new)>(f: Format<M>, a: Bytes, u: Field, b: Bytes, m: M)
    requires IgnoresUnknown(f)
    requires WellFormed(u) && u.num !in f.schema
    requires |a| + |FieldBytes(u)| + |b| < TWO_63
    requires Decode(f, a, 0, m).Ok?
    ensures Agree(Decode(f, a + FieldBytes(u) + b, 0, m), Decode(f, a + b, 0, m))
  {
    hide Decode, FieldBytes;
    var x, m1 := FieldBytes(u), Decode(f, a, 0, m).value;
    DecodeConcat(f, a, b, 0, m, m1);
    assert a + (x + b) == a + x + b;
    DecodeConcat(f, a, x + b, 0, m, m1);
    DecodeUnknown(f, u, b, |a|, m1);
    DecodeAnywhere(f, b, |a| + |x|, |a|, m1);
  }

  lemma DecodeUnknown<M(!new)>(f: Format<M>, u: Field, b: Bytes, pos: nat, m: M)
    requires IgnoresUnknown(f)
    requires WellFormed(u) && u.num !in f.schema
    requires pos + |FieldBytes(u)| + |b| < TWO_63
    ensures Decode(f, FieldBytes(u) + b, pos, m) == Decode(f, b, pos + |FieldBytes(u)|, m)
  {
    hide Next, FieldBytes;
    var x := FieldBytes(u);
    ReadsAsUnknown(f.schema, u);
    NextLocal(f.schema, x, b, 0, pos);
    assert (x + b)[|x|..] == b;
  }
}
