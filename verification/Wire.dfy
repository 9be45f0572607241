/**
 One record of a protobuf message: how the generated code finds where it ends, skips it when its field
 number is unknown, and what bytes it is written as.
 */
module Wire {
  import opened Bytes
  import opened Varint

  // ----- reading one record -----

  datatype Kind = LengthDelimited | Word

  /** The known field numbers, with the wire type each must have. */
  type Schema = map<int, Kind>

  datatype Record =
    | Payload(num: nat, bytes: Bytes)
    | Number(num: nat, word: nat)
    | Unknown

  /** What stands at an index: the wire type of a field, and the index just after its value. */
  function TokenAt(s: Bytes, at: nat): (r: Result<(nat, nat), Error>)
    requires at < |s|
    ensures r.Ok? ==> r.value.1 > at
  {
    var tag :- Read(s[at..]);
    var next :- SkipBody(s, at + tag.1, tag.0 % 8);
    Ok((tag.0 % 8, next))
  }

  /** How many groups are open after a tag of the given wire type. */
  function Opened(depth: nat, wireType: nat): int
  {
    if wireType == 3 then depth + 1 else if wireType == 4 then depth - 1 else depth
  }

  /**
   `skipTx`: the index just after the field, or the whole group, that starts at `at` when `depth` groups
   are open. The index may lie beyond `s`; it is refused once it does not fit a signed word.
   */
  function Skip(s: Bytes, at: nat, depth: nat): (r: Result<nat, Error>)
    ensures r.Ok? ==> at < r.value < TWO_63
    decreases |s| - at
  {
    if at >= |s| then Err(UnexpectedEof)
    else
      var field :- TokenAt(s, at);
      var open := Opened(depth, field.0);
      if open < 0 then Err(UnexpectedEndGroup)
      else if field.1 >= TWO_63 then Err(InvalidLength)
      else if open == 0 then Ok(field.1)
      else Skip(s, field.1, open)
  }

  /** Where the value of a field with the given wire type ends. */
  function SkipBody(s: Bytes, body: nat, wireType: nat): (r: Result<nat, Error>)
    requires body <= |s|
    ensures r.Ok? ==> r.value >= body
  {
    match wireType
    case 0 =>
      var word :- Read(s[body..]);
      Ok(body + word.1)
    case 1 => Ok(body + 8)
    case 2 =>
      var len :- Read(s[body..]);
      if len.0 >= TWO_63 then Err(InvalidLength) else Ok(body + len.1 + len.0)
    case 3 => Ok(body)
    case 4 => Ok(body)
    case 5 => Ok(body + 4)
    case _ => Err(IllegalWireType)
  }

  /**
   The record at the start of `s` and its length. `pos` is the index of `s` in the message: it only
   decides whether an end index that lies too far is reported as wrapped or as missing input.
   */
  function Next(schema: Schema, s: Bytes, pos: nat): (r: Result<(Record, nat), Error>)
    ensures r.Ok? ==> 1 <= r.value.1 <= |s|
    ensures r.Ok? && r.value.0.Payload? ==> |r.value.0.bytes| < |s|
  {
    var tag :- Read(s);
    var num := Int32(tag.0 / 8);
    if tag.0 % 8 == 4 then Err(EndGroupTag)
    else if num <= 0 then Err(IllegalTag)
    else if num !in schema then NextUnknown(s, pos)
    else if schema[num].Word? then
      if tag.0 % 8 != 0 then Err(WrongWireType) else NextNumber(num, s, tag.1)
    else
      if tag.0 % 8 != 2 then Err(WrongWireType) else NextPayload(num, s, tag.1, pos)
  }

  function NextUnknown(s: Bytes, pos: nat): (r: Result<(Record, nat), Error>)
    ensures r.Ok? ==> 1 <= r.value.1 <= |s|
  {
    var n :- Skip(s, 0, 0);
    if pos + n >= TWO_63 then Err(InvalidLength)
    else if n > |s| then Err(UnexpectedEof)
    else Ok((Unknown, n))
  }

  function NextNumber(num: nat, s: Bytes, body: nat): (r: Result<(Record, nat), Error>)
    requires body <= |s|
    ensures r.Ok? ==> body < r.value.1 <= |s|
  {
    var word :- Read(s[body..]);
    Ok((Number(num, word.0), body + word.1))
  }

  function NextPayload(num: nat, s: Bytes, body: nat, pos: nat): (r: Result<(Record, nat), Error>)
    requires body <= |s|
    ensures r.Ok? ==> body < r.value.1 <= |s|
  {
    var len :- Read(s[body..]);
    var start := body + len.1;
    if len.0 >= TWO_63 || pos + start + len.0 >= TWO_63 then Err(InvalidLength)
    else if start + len.0 > |s| then Err(UnexpectedEof)
    else Ok((Payload(num, s[start..start + len.0]), start + len.0))
  }

  // ----- locality: what follows a complete record does not matter -----

  lemma {:induction false} SkipLocal(a: Bytes, b: Bytes, at: nat, depth: nat)
    requires Skip(a, at, depth).Ok?
    ensures Skip(a + b, at, depth) == Skip(a, at, depth)
    decreases |a| - at
  {
    hide TokenAt;
    TokenLocal(a, b, at);
    var field := TokenAt(a, at).value;
    var open := Opened(depth, field.0);
    if open != 0 { SkipLocal(a, b, field.1, open); }
  }

  lemma TokenLocal(a: Bytes, b: Bytes, at: nat)
    requires at < |a| && TokenAt(a, at).Ok?
    ensures TokenAt(a + b, at) == TokenAt(a, at)
  {
    hide Read, SkipBody;
    assert (a + b)[at..] == a[at..] + b;
    ReadLocal(a[at..], b);
    var tag := Read(a[at..]).value;
    SkipBodyLocal(a, b, at + tag.1, tag.0 % 8);
  }

  lemma SkipBodyLocal(a: Bytes, b: Bytes, body: nat, wireType: nat)
    requires body <= |a| && SkipBody(a, body, wireType).Ok?
    ensures SkipBody(a + b, body, wireType) == SkipBody(a, body, wireType)
  {
    hide Read;
    assert (a + b)[body..] == a[body..] + b;
    if wireType == 0 || wireType == 2 { ReadLocal(a[body..], b); }
  }

  lemma NextLocal(schema: Schema, a: Bytes, b: Bytes, pos: nat, pos': nat)
    requires Next(schema, a, pos).Ok?
    requires pos' + |a| + |b| < TWO_63
    ensures Next(schema, a + b, pos') == Next(schema, a, pos)
  {
    hide Read, Skip, Int32;
    ReadLocal(a, b);
    var tag := Read(a).value;
    var num := Int32(tag.0 / 8);
    if num !in schema {
      SkipLocal(a, b, 0, 0);
    } else {
      assert (a + b)[tag.1..] == a[tag.1..] + b;
      ReadLocal(a[tag.1..], b);
      if schema[num].LengthDelimited? {
        var len := Read(a[tag.1..]).value;
        var start := tag.1 + len.1;
        assert (a + b)[start..start + len.0] == a[start..start + len.0];
      }
    }
  }

  // ----- writing records -----

  /** The records a writer may produce: field numbers that a tag can carry, words of 64 bits. */
  ghost predicate Writable(schema: Schema, rec: Record)
  {
    match rec
    case Payload(num, bytes) => ValidNum(num) && num in schema && schema[num].LengthDelimited?
    case Number(num, word) => ValidNum(num) && num in schema && schema[num].Word? && word < TWO_64
    case Unknown => false
  }

  /** The field numbers of the protobuf language. */
  ghost predicate ValidNum(num: nat)
  {
    1 <= num < 0x2000_0000
  }

  /** The bytes of a record. */
  ghost function Bytes1(rec: Record): Bytes
  {
    match rec
    case Payload(num, bytes) => Encode(num * 8 + 2) + Encode(|bytes|) + bytes
    case Number(num, word) => Encode(num * 8) + Encode(word)
    case Unknown => []
  }

  /** The bytes of a list of records. */
  ghost function BytesOf(recs: seq<Record>): Bytes
  {
    if recs == [] then [] else Bytes1(recs[0]) + BytesOf(recs[1..])
  }

  lemma {:induction false} BytesOfConcat(a: seq<Record>, b: seq<Record>)
    ensures BytesOf(a + b) == BytesOf(a) + BytesOf(b)
  {
    if a == [] {
      assert a + b == b;
    } else {
      assert (a + b)[1..] == a[1..] + b;
      BytesOfConcat(a[1..], b);
    }
  }

  lemma TagReads(num: nat, wireType: nat, rest: Bytes)
    requires ValidNum(num) && wireType < 8
    ensures Read(Encode(num * 8 + wireType) + rest) == Ok((num * 8 + wireType, |Encode(num * 8 + wireType)|))
    ensures (num * 8 + wireType) % 8 == wireType && Int32((num * 8 + wireType) / 8) == num
  {
    hide Read, Encode;
    ReadEncode(num * 8 + wireType, rest);
  }

  lemma PayloadReadsBack(schema: Schema, num: nat, bytes: Bytes, rest: Bytes, pos: nat)
    requires Writable(schema, Payload(num, bytes))
    requires pos + |Bytes1(Payload(num, bytes))| + |rest| < TWO_63
    ensures Next(schema, Bytes1(Payload(num, bytes)) + rest, pos)
         == Ok((Payload(num, bytes), |Bytes1(Payload(num, bytes))|))
  {
    hide Read, Skip, Encode;
    var s := Bytes1(Payload(num, bytes)) + rest;
    var t, l := Encode(num * 8 + 2), Encode(|bytes|);
    assert s == t + (l + bytes + rest);
    TagReads(num, 2, l + bytes + rest);
    assert s[|t|..] == l + (bytes + rest);
    ReadEncode(|bytes|, bytes + rest);
    assert s[|t| + |l|..|t| + |l| + |bytes|] == bytes;
  }

  lemma NumberReadsBack(schema: Schema, num: nat, word: nat, rest: Bytes, pos: nat)
    requires Writable(schema, Number(num, word))
    ensures Next(schema, Bytes1(Number(num, word)) + rest, pos)
         == Ok((Number(num, word), |Bytes1(Number(num, word))|))
  {
    hide Read, Skip, Encode;
    var s := Bytes1(Number(num, word)) + rest;
    var t := Encode(num * 8 + 0);
    assert s == t + (Encode(word) + rest);
    TagReads(num, 0, Encode(word) + rest);
    assert s[|t|..] == Encode(word) + rest;
    ReadEncode(word, rest);
  }

  lemma ReadsBack(schema: Schema, rec: Record, rest: Bytes, pos: nat)
    requires Writable(schema, rec)
    requires pos + |Bytes1(rec)| + |rest| < TWO_63
    ensures Next(schema, Bytes1(rec) + rest, pos) == Ok((rec, |Bytes1(rec)|))
  {
    match rec
    case Payload(num, bytes) => PayloadReadsBack(schema, num, bytes, rest, pos);
    case Number(num, word) => NumberReadsBack(schema, num, word, rest, pos);
  }

  // ----- the loops of the generated code, on 64-bit indices -----

  /**
   `skipTx`: every sum of an index and a length is taken in 64 bits, and the sign check after it
   catches each one that wraps.
   */
  method SkipField(s: Bytes) returns (r: Result<nat, Error>)
    requires |s| < TWO_63
    ensures r == Skip(s, 0, 0)
  {
    hide TokenAt;
    var at := 0;
    var depth := 0;
    while at < |s|
      invariant 0 <= at < TWO_63 && depth >= 0
      invariant Skip(s, at, depth) == Skip(s, 0, 0)
      decreases |s| - at
    {
      var field := ReadToken(s, at);
      if field.Err? { return Err(field.error); }
      if field.value.0 == 3 {
        depth := depth + 1;
      } else if field.value.0 == 4 {
        if depth == 0 { return Err(UnexpectedEndGroup); }
        depth := depth - 1;
      }
      if field.value.1 < 0 { return Err(InvalidLength); }
      if depth == 0 { return Ok(field.value.1); }
      at := field.value.1;
    }
    return Err(UnexpectedEof);
  }

  /** The tag at `at` and the index after its value: negative when it has wrapped. */
  method ReadToken(s: Bytes, at: nat) returns (r: Result<(nat, int), Error>)
    requires at < |s| < TWO_63
    ensures r.Err? ==> TokenAt(s, at) == Err(r.error)
    ensures r.Ok? ==> TokenAt(s, at).Ok? && TokenAt(s, at).value.0 == r.value.0
    ensures r.Ok? ==> (r.value.1 < 0 <==> TokenAt(s, at).value.1 >= TWO_63)
    ensures r.Ok? && r.value.1 >= 0 ==> TokenAt(s, at).value.1 == r.value.1
  {
    hide Read, SkipBody;
    var tag := ReadVarint(s, at);
    if tag.Err? { return Err(tag.error); }
    var next := SkipValue(s, tag.value.1, tag.value.0 % 8);
    if next.Err? { return Err(next.error); }
    return Ok((tag.value.0 % 8, next.value));
  }

  /** The index after a field's value: negative when it has wrapped. */
  method SkipValue(s: Bytes, body: nat, wireType: nat) returns (r: Result<int, Error>)
    requires body <= |s| < TWO_63
    ensures r.Err? ==> SkipBody(s, body, wireType) == Err(r.error)
    ensures r.Ok? ==> SkipBody(s, body, wireType).Ok?
    ensures r.Ok? ==> (r.value < 0 <==> SkipBody(s, body, wireType).value >= TWO_63)
    ensures r.Ok? && r.value >= 0 ==> SkipBody(s, body, wireType) == Ok(r.value)
  {
    hide Read, Skip;
    match wireType
    case 0 =>
      var word := ReadVarint(s, body);
      if word.Err? { return Err(word.error); }
      return Ok(word.value.1);
    case 1 => return Ok(Add64(body, 8));
    case 2 =>
      var len := ReadVarint(s, body);
      if len.Err? { return Err(len.error); }
      var signed := Int64(len.value.0);
      if signed < 0 { return Err(InvalidLength); }
      return Ok(Add64(len.value.1, signed));
    case 3 => return Ok(body);
    case 4 => return Ok(body);
    case 5 => return Ok(Add64(body, 4));
    case _ => return Err(IllegalWireType);
  }

  /** One turn of the field loop: reads the tag and the field at `at`, and returns where the next one starts. */
  method ReadNext(schema: Schema, s: Bytes, at: nat) returns (r: Result<(Record, nat), Error>)
    requires at < |s| < TWO_63
    ensures r == Shift(Next(schema, s[at..], at), at)
  {
    hide Read, Skip;
    var tag := ReadVarint(s, at);
    if tag.Err? { return Err(tag.error); }
    var wireType := tag.value.0 % 8;
    var num := Int32(tag.value.0 / 8);
    if wireType == 4 { return Err(EndGroupTag); }
    if num <= 0 { return Err(IllegalTag); }
    if num !in schema {
      r := ReadUnknown(s, at);
    } else if schema[num].Word? {
      if wireType != 0 { return Err(WrongWireType); }
      r := ReadNumber(num, s, at, tag.value.1);
    } else {
      if wireType != 2 { return Err(WrongWireType); }
      r := ReadPayload(num, s, at, tag.value.1);
    }
  }

  method ReadUnknown(s: Bytes, at: nat) returns (r: Result<(Record, nat), Error>)
    requires at < |s| < TWO_63
    ensures r == Shift(NextUnknown(s[at..], at), at)
  {
    hide Skip;
    var skippy := SkipField(s[at..]);
    if skippy.Err? { return Err(skippy.error); }
    var post := Add64(at, skippy.value);
    if post < 0 { return Err(InvalidLength); }
    if post > |s| { return Err(UnexpectedEof); }
    return Ok((Unknown, post));
  }

  method ReadNumber(num: nat, s: Bytes, at: nat, body: nat) returns (r: Result<(Record, nat), Error>)
    requires at <= body <= |s| < TWO_63
    ensures r == Shift(NextNumber(num, s[at..], body - at), at)
  {
    hide Read;
    assert s[at..][body - at..] == s[body..];
    var word := ReadVarint(s, body);
    if word.Err? { return Err(word.error); }
    return Ok((Number(num, word.value.0), word.value.1));
  }

  method ReadPayload(num: nat, s: Bytes, at: nat, body: nat) returns (r: Result<(Record, nat), Error>)
    requires at <= body <= |s| < TWO_63
    ensures r == Shift(NextPayload(num, s[at..], body - at, at), at)
  {
    hide Read;
    assert s[at..][body - at..] == s[body..];
    var len := ReadVarint(s, body);
    if len.Err? { return Err(len.error); }
    var start := len.value.1;
    var signed := Int64(len.value.0);
    if signed < 0 { return Err(InvalidLength); }
    var post := Add64(start, signed);
    if post < 0 { return Err(InvalidLength); }
    if post > |s| { return Err(UnexpectedEof); }
    assert s[at..][start - at..post - at] == s[start..post];
    return Ok((Payload(num, s[start..post]), post));
  }

  // ----- what is refused -----

  /** An end of group, a field number that is not positive, and a known field of another wire type are refused. */
  lemma BadTagRefused(schema: Schema, num: nat, wireType: nat, rest: Bytes, pos: nat)
    requires wireType < 8 && (ValidNum(num) || num == 0)
    requires
      || num == 0 || wireType == 4
      || (num in schema && wireType != if schema[num].Word? then 0 else 2)
    ensures Next(schema, Encode(num * 8 + wireType) + rest, pos).Err?
  {
    hide Read, Encode, Skip;
    if num == 0 {
      ReadEncode(wireType, rest);
    } else {
      TagReads(num, wireType, rest);
    }
  }

  /** A payload that is announced longer than what follows is refused. */
  lemma ShortPayloadRefused(schema: Schema, num: nat, len: nat, rest: Bytes, pos: nat)
    requires ValidNum(num) && num in schema && schema[num].LengthDelimited?
    requires |rest| < len < TWO_64
    ensures Next(schema, Encode(num * 8 + 2) + Encode(len) + rest, pos).Err?
  {
    hide Read, Encode, Skip;
    var t, l := Encode(num * 8 + 2), Encode(len);
    var s := t + l + rest;
    assert s == t + (l + rest);
    TagReads(num, 2, l + rest);
    assert s[|t|..] == l + rest;
    ReadEncode(len, rest);
  }

  /** The skipper refuses wire types 6 and 7, and an end of group that closes nothing. */
  lemma BadSkipRefused(num: nat, wireType: nat, rest: Bytes)
    requires ValidNum(num) && wireType in {4, 6, 7}
    ensures Skip(Encode(num * 8 + wireType) + rest, 0, 0).Err?
  {
    hide Read, Encode;
    TagReads(num, wireType, rest);
    var s := Encode(num * 8 + wireType) + rest;
    assert s[0..] == s;
  }
}
