/**
 A whole message: the field loop that every generated `Unmarshal` runs. A format says how a record is
 read and what it does to the message read so far.
 */
module Message {
  import opened Bytes
  import opened Varint
  import opened Wire

  datatype Format<!M> = Format(schema: Schema, apply: (M, Record) -> Result<M, Error>)

  /** `Unmarshal`: the records of `s`, applied one by one on top of `m`. */
  function Decode<M>(f: Format<M>, s: Bytes, pos: nat, m: M): Result<M, Error>
    decreases |s|
  {
    if s == [] then Ok(m)
    else
      var rec :- Next(f.schema, s, pos);
      var m' :- f.apply(m, rec.0);
      Decode(f, s[rec.1..], pos + rec.1, m')
  }

  /** The same for a list of records that is already split up. */
  function Fold<M>(f: Format<M>, recs: seq<Record>, m: M): Result<M, Error>
  {
    if recs == [] then Ok(m)
    else
      var m' :- f.apply(m, recs[0]);
      Fold(f, recs[1..], m')
  }

  // ----- concatenation -----

  /**
   Decoding is a homomorphism: when `a` decodes, decoding `a + b` is decoding `b` on top of what `a`
   gave. The last value of a scalar field wins and repeated fields append, across the seam too.
   */
  lemma {:induction false} DecodeConcat<M>(f: Format<M>, a: Bytes, b: Bytes, pos: nat, m: M, m1: M)
    requires pos + |a| + |b| < TWO_63
    requires Decode(f, a, pos, m) == Ok(m1)
    ensures Decode(f, a + b, pos, m) == Decode(f, b, pos + |a|, m1)
    decreases |a|
  {
    hide Next;
    if a == [] {
      assert a + b == b;
    } else {
      var rec := Next(f.schema, a, pos).value;
      NextLocal(f.schema, a, b, pos, pos);
      assert (a + b)[rec.1..] == a[rec.1..] + b;
      DecodeConcat(f, a[rec.1..], b, pos + rec.1, f.apply(m, rec.0).value, m1);
    }
  }

  /** Two readings that agree, errors aside. */
  ghost predicate Agree<T>(r: Result<T, Error>, r': Result<T, Error>)
  {
    match r
    case Ok(v) => r' == Ok(v)
    case Err(_) => r'.Err?
  }

  /** Where a record lies never decides whether it is read, nor as what. */
  lemma NextAnywhere(schema: Schema, s: Bytes, pos: nat, pos': nat)
    requires pos + |s| < TWO_63 && pos' + |s| < TWO_63
    ensures Agree(Next(schema, s, pos), Next(schema, s, pos'))
  {
    hide Next;
    assert s + [] == s;
    if Next(schema, s, pos).Ok? {
      NextLocal(schema, s, [], pos, pos');
    } else if Next(schema, s, pos').Ok? {
      NextLocal(schema, s, [], pos', pos);
    }
  }

  /** The same for a whole message: only the kind of an error may depend on it. */
  lemma {:induction false} DecodeAnywhere<M>(f: Format<M>, s: Bytes, pos: nat, pos': nat, m: M)
    requires pos + |s| < TWO_63 && pos' + |s| < TWO_63
    ensures Agree(Decode(f, s, pos, m), Decode(f, s, pos', m))
    decreases |s|
  {
    hide Next;
    if s != [] {
      NextAnywhere(f.schema, s, pos, pos');
      var r := Next(f.schema, s, pos);
      if r.Ok? && f.apply(m, r.value.0).Ok? {
        DecodeAnywhere(f, s[r.value.1..], pos + r.value.1, pos' + r.value.1, f.apply(m, r.value.0).value);
      }
    }
  }

  // ----- what was written is read back -----

  ghost predicate AllWritable(schema: Schema, recs: seq<Record>)
  {
    forall r :: r in recs ==> Writable(schema, r)
  }

  lemma WritableConcat(schema: Schema, a: seq<Record>, b: seq<Record>)
    requires AllWritable(schema, a) && AllWritable(schema, b)
    ensures AllWritable(schema, a + b)
  {
  }

  lemma SixWritable(s: Schema, a: seq<Record>, b: seq<Record>, c: seq<Record>,
                    d: seq<Record>, e: seq<Record>, f: seq<Record>)
    requires AllWritable(s, a) && AllWritable(s, b) && AllWritable(s, c)
    requires AllWritable(s, d) && AllWritable(s, e) && AllWritable(s, f)
    ensures AllWritable(s, a + (b + (c + (d + (e + f)))))
  {
  }

  /** Reading back what was written applies exactly the records that were written, in their order. */
  lemma {:induction false} DecodeWritten<M>(f: Format<M>, recs: seq<Record>, pos: nat, m: M)
    requires AllWritable(f.schema, recs)
    requires pos + |BytesOf(recs)| < TWO_63
    ensures Decode(f, BytesOf(recs), pos, m) == Fold(f, recs, m)
  {
    hide Next, Bytes1, Writable;
    if recs != [] {
      var rec, rest := recs[0], BytesOf(recs[1..]);
      ReadsBack(f.schema, rec, rest, pos);
      assert (Bytes1(rec) + rest)[|Bytes1(rec)|..] == rest;
      var r := f.apply(m, rec);
      if r.Ok? { DecodeWritten(f, recs[1..], pos + |Bytes1(rec)|, r.value); }
    }
  }

  lemma {:induction false} FoldConcat<M>(f: Format<M>, a: seq<Record>, b: seq<Record>, m: M, m1: M)
    requires Fold(f, a, m) == Ok(m1)
    ensures Fold(f, a + b, m) == Fold(f, b, m1)
  {
    if a == [] {
      assert a + b == b;
    } else {
      assert (a + b)[1..] == a[1..] + b;
      FoldConcat(f, a[1..], b, f.apply(m, a[0]).value, m1);
    }
  }

  // ----- one more field -----

  lemma OneRecord<M>(f: Format<M>, rec: Record, m: M)
    ensures BytesOf([rec]) == Bytes1(rec) && Fold(f, [rec], m) == f.apply(m, rec)
    ensures Writable(f.schema, rec) ==> AllWritable(f.schema, [rec])
  {
    hide Bytes1, Writable;
    assert [rec][1..] == [];
  }

  /** A field behind a message that decodes is applied on top of it. */
  lemma DecodeField<M>(f: Format<M>, a: Bytes, rec: Record, m: M, m1: M)
    requires Decode(f, a, 0, m) == Ok(m1) && Writable(f.schema, rec) && |a| + |Bytes1(rec)| < TWO_63
    ensures Decode(f, a + Bytes1(rec), 0, m) == f.apply(m1, rec)
  {
    hide Decode, Bytes1, BytesOf, Fold, Writable, AllWritable;
    OneRecord(f, rec, m1);
    DecodeConcat(f, a, Bytes1(rec), 0, m, m1);
    DecodeWritten(f, [rec], |a|, m1);
  }

  /** What cannot be read behind a message that decodes spoils it. */
  lemma DecodeRefuses<M>(f: Format<M>, a: Bytes, b: Bytes, m: M)
    requires Decode(f, a, 0, m).Ok? && b != [] && |a| + |b| < TWO_63 && Next(f.schema, b, |a|).Err?
    ensures Decode(f, a + b, 0, m).Err?
  {
    hide Next;
    DecodeConcat(f, a, b, 0, m, Decode(f, a, 0, m).value);
  }
}
