/**
 The claim module's `Params` and `ClaimRecord`, as the generated code writes and reads them: booleans,
 signed and unsigned words, and a repeated coin whose own codec is foreign and enters as a parameter.
 */
module ClaimCodec {
  import opened Bytes
  import opened Varint
  import opened Wire
  import opened Message
  import opened Writer
  import opened UnknownFields

  type int64 = x: int | -TWO_63 <= x < TWO_63
  type uint64 = x: int | 0 <= x < TWO_64
  type uint32 = x: int | 0 <= x < TWO_32

  datatype Params = Params(enableClaims: bool, claimEndTime: int64, maxClaimsPerBlock: uint64)

  datatype Coin = Coin(denom: Bytes, amount: nat)

  datatype ClaimRecord = ClaimRecord(
    oldAddress: Bytes,
    balance: seq<Coin>,
    claimed: bool,
    claimTime: int64,
    destAddress: Bytes,
    vestedTier: uint32)

  const EMPTY_PARAMS := Params(false, 0, 0)
  const EMPTY_RECORD := ClaimRecord([], [], false, 0, [], 0)

  /** The word that stands for a boolean. */
  function Flag(b: bool): nat
  {
    if b then 1 else 0
  }

  /** The word with the bits of a signed number: `uint64(x)`. */
  function Unsigned(x: int64): uint64
  {
    x % TWO_64
  }

  lemma UnsignedRoundTrip(x: int64)
    ensures Int64(Unsigned(x)) == x
    ensures Unsigned(x) == 0 <==> x == 0
  {
  }

  // ----- Params -----

  ghost function ParamsRecords(p: Params): seq<Record>
  {
    OptionalWord(1, Flag(p.enableClaims)) +
    (OptionalWord(3, Unsigned(p.claimEndTime)) + OptionalWord(4, p.maxClaimsPerBlock))
  }

  ghost function ParamsBytes(p: Params): Bytes
  {
    BytesOf(ParamsRecords(p))
  }

  function ApplyParams(m: Params, rec: Record): Result<Params, Error>
  {
    match rec
    case Number(num, word) =>
      if num == 1 then Ok(m.(enableClaims := word != 0))
      else if num == 3 then Ok(m.(claimEndTime := Int64(word)))
      else if num == 4 then Ok(m.(maxClaimsPerBlock := word % TWO_64))
      else Ok(m)
    case _ => Ok(m)
  }

  const PARAMS: Format<Params> := Format(map[1 := Word, 3 := Word, 4 := Word], ApplyParams)

  /** Every parameter set is read back equal, end times before 1970 included. */
  lemma ParamsRoundTrip(p: Params)
    requires |ParamsBytes(p)| < TWO_63
    ensures Decode(PARAMS, ParamsBytes(p), 0, EMPTY_PARAMS) == Ok(p)
  {
    hide Decode, BytesOf, Int64, Unsigned, Next;
    var a, b, c := OptionalWord(1, Flag(p.enableClaims)), OptionalWord(3, Unsigned(p.claimEndTime)),
      OptionalWord(4, p.maxClaimsPerBlock);
    assert AllWritable(PARAMS.schema, a) && AllWritable(PARAMS.schema, b) && AllWritable(PARAMS.schema, c);
    WritableConcat(PARAMS.schema, b, c);
    WritableConcat(PARAMS.schema, a, b + c);
    hide AllWritable;
    DecodeWritten(PARAMS, a + (b + c), 0, EMPTY_PARAMS);
    UnsignedRoundTrip(p.claimEndTime);
    var m1 := EMPTY_PARAMS.(enableClaims := p.enableClaims);
    var m2 := m1.(claimEndTime := p.claimEndTime);
    assert Fold(PARAMS, a, EMPTY_PARAMS) == Ok(m1);
    assert Fold(PARAMS, b, m1) == Ok(m2);
    assert Fold(PARAMS, c, m2) == Ok(p);
    FoldConcat(PARAMS, a, b + c, EMPTY_PARAMS, m1);
    FoldConcat(PARAMS, b, c, m1, m2);
  }

  lemma ParamsSections(p: Params)
    ensures ParamsBytes(p) == BytesOf(OptionalWord(1, Flag(p.enableClaims))) +
      (BytesOf(OptionalWord(3, Unsigned(p.claimEndTime))) + BytesOf(OptionalWord(4, p.maxClaimsPerBlock)))
  {
    hide BytesOf, OptionalWord;
    var a, b, c := OptionalWord(1, Flag(p.enableClaims)), OptionalWord(3, Unsigned(p.claimEndTime)),
      OptionalWord(4, p.maxClaimsPerBlock);
    BytesOfConcat(b, c);
    BytesOfConcat(a, b + c);
  }

  /** The tag of each field, in this order, and zero words left out. */
  lemma ParamsLayout(p: Params)
    ensures ParamsBytes(p) == TaggedUnlessZero(0x08, Flag(p.enableClaims)) +
      (TaggedUnlessZero(0x18, Unsigned(p.claimEndTime)) + TaggedUnlessZero(0x20, p.maxClaimsPerBlock))
  {
    hide BytesOf, OptionalWord, TaggedUnlessZero, Unsigned, ParamsBytes;
    ParamsSections(p);
    OptionalWordLayout(1, 0x08, Flag(p.enableClaims));
    OptionalWordLayout(3, 0x18, Unsigned(p.claimEndTime));
    OptionalWordLayout(4, 0x20, p.maxClaimsPerBlock);
  }

  /** A field behind parameters that decode: the last one wins. */
  lemma ParamsField(a: Bytes, m: Params, word: uint64, tag: byte)
    requires Decode(PARAMS, a, 0, EMPTY_PARAMS) == Ok(m) && tag in {0x08, 0x18, 0x20}
    requires |a + TaggedWord(tag, word)| < TWO_63
    ensures Decode(PARAMS, a + TaggedWord(tag, word), 0, EMPTY_PARAMS) == Ok(
      if tag == 0x08 then m.(enableClaims := word != 0)
      else if tag == 0x18 then m.(claimEndTime := Int64(word))
      else m.(maxClaimsPerBlock := word))
  {
    hide Decode, TaggedWord, Int64;
    WordBehind(PARAMS, a, tag / 8, tag, word, EMPTY_PARAMS, m);
  }

  /** A well-formed field with another number, 2 included, is as good as absent. */
  lemma UnknownFieldIgnored(a: Bytes, u: Field, b: Bytes)
    requires WellFormed(u) && u.num !in {1, 3, 4}
    requires |a| + |FieldBytes(u)| + |b| < TWO_63
    requires Decode(PARAMS, a, 0, EMPTY_PARAMS).Ok?
    ensures Agree(Decode(PARAMS, a + FieldBytes(u) + b, 0, EMPTY_PARAMS), Decode(PARAMS, a + b, 0, EMPTY_PARAMS))
  {
    hide Decode, FieldBytes, WellFormed;
    UnknownFieldIsNeutral(PARAMS, a, u, b, EMPTY_PARAMS);
  }

  lemma FlagSize(num: nat, b: bool)
    requires num < 15
    ensures |BytesOf(OptionalWord(num, Flag(b)))| == 2 * Flag(b)
  {
  }

  method SizeParams(p: Params) returns (n: nat)
    ensures n == |ParamsBytes(p)|
  {
    ParamsSections(p);
    hide BytesOf, WordTerm, OptionalWord, ParamsBytes, Unsigned;
    FlagSize(1, p.enableClaims);
    OptionalWordSize(3, Unsigned(p.claimEndTime));
    OptionalWordSize(4, p.maxClaimsPerBlock);
    n := 0;
    n := n + 2 * Flag(p.enableClaims);
    n := n + WordTerm(Unsigned(p.claimEndTime));
    n := n + WordTerm(p.maxClaimsPerBlock);
  }

  method MarshalParams(p: Params, buf: array<byte>, hi: nat) returns (n: nat)
    requires |ParamsBytes(p)| <= hi <= buf.Length
    modifies buf
    ensures n == |ParamsBytes(p)| && Wrote(old(buf[..]), buf[..], hi - n, hi, ParamsBytes(p))
  {
    ParamsSections(p);
    hide BytesOf, OptionalWord, ParamsBytes;
    ghost var a, b, c := BytesOf(OptionalWord(1, Flag(p.enableClaims))),
      BytesOf(OptionalWord(3, Unsigned(p.claimEndTime))), BytesOf(OptionalWord(4, p.maxClaimsPerBlock));
    ghost var before := buf[..];
    var i := PutOptionalWord(buf, hi, p.maxClaimsPerBlock, 0x20, 4);
    ghost var mid, split := buf[..], i;
    i := PutOptionalWord(buf, i, Unsigned(p.claimEndTime), 0x18, 3);
    WroteBefore(before, mid, buf[..], i, split, hi, b, c);
    mid, split := buf[..], i;
    i := PutOptionalWord(buf, i, Flag(p.enableClaims), 0x08, 1);
    WroteBefore(before, mid, buf[..], i, split, hi, a, b + c);
    n := hi - i;
  }

  method UnmarshalParams(data: Bytes) returns (r: Result<Params, Error>)
    requires |data| < TWO_63
    ensures r == Decode(PARAMS, data, 0, EMPTY_PARAMS)
  {
    hide Next;
    var m := EMPTY_PARAMS;
    var at := 0;
    assert data[0..] == data;
    while at < |data|
      invariant 0 <= at <= |data|
      invariant Decode(PARAMS, data[at..], at, m) == Decode(PARAMS, data, 0, EMPTY_PARAMS)
    {
      var rec := ReadNext(PARAMS.schema, data, at);
      if rec.Err? { return Err(rec.error); }
      assert data[at..][rec.value.1 - at..] == data[rec.value.1..];
      if rec.value.0.Number? {
        var field := rec.value.0;
        match field.num {
          case 1 => m := m.(enableClaims := field.word != 0);
          case 3 => m := m.(claimEndTime := Int64(field.word));
          case 4 => m := m.(maxClaimsPerBlock := field.word % TWO_64);
          case _ =>
        }
      }
      at := rec.value.1;
    }
    return Ok(m);
  }

  // ----- ClaimRecord -----

  /** The codec of the coins, which is not part of this repository. */
  datatype CoinCodec = CoinCodec(encode: Coin -> Bytes, decode: Bytes -> Result<Coin, Error>)

  ghost predicate Faithful(c: CoinCodec)
  {
    forall coin :: c.decode(c.encode(coin)) == Ok(coin)
  }

  ghost function AllCoinBytes(c: CoinCodec, coins: seq<Coin>): (r: seq<Bytes>)
    ensures |r| == |coins|
    ensures forall i :: 0 <= i < |r| ==> r[i] == c.encode(coins[i])
  {
    seq(|coins|, i requires 0 <= i < |coins| => c.encode(coins[i]))
  }

  ghost function RecordRecords(c: CoinCodec, m: ClaimRecord): seq<Record>
  {
    Optional(1, m.oldAddress) + (Repeated(2, AllCoinBytes(c, m.balance)) +
    (OptionalWord(3, Flag(m.claimed)) + (OptionalWord(4, Unsigned(m.claimTime)) +
    (Optional(5, m.destAddress) + OptionalWord(6, m.vestedTier)))))
  }

  ghost function RecordBytes(c: CoinCodec, m: ClaimRecord): Bytes
  {
    BytesOf(RecordRecords(c, m))
  }

  function ApplyRecord(c: CoinCodec, m: ClaimRecord, rec: Record): Result<ClaimRecord, Error>
  {
    match rec
    case Payload(num, bytes) =>
      if num == 1 then Ok(m.(oldAddress := bytes))
      else if num == 2 then
        var coin :- c.decode(bytes);
        Ok(m.(balance := m.balance + [coin]))
      else if num == 5 then Ok(m.(destAddress := bytes))
      else Ok(m)
    case Number(num, word) =>
      if num == 3 then Ok(m.(claimed := word != 0))
      else if num == 4 then Ok(m.(claimTime := Int64(word)))
      else if num == 6 then Ok(m.(vestedTier := word % TWO_32))
      else Ok(m)
    case Unknown => Ok(m)
  }

  function RecordFormat(c: CoinCodec): Format<ClaimRecord>
  {
    Format(map[1 := LengthDelimited, 2 := LengthDelimited, 3 := Word, 4 := Word, 5 := LengthDelimited, 6 := Word],
           (m: ClaimRecord, rec: Record) => ApplyRecord(c, m, rec))
  }

  lemma {:induction false} FoldCoins(c: CoinCodec, coins: seq<Coin>, m: ClaimRecord)
    requires Faithful(c)
    ensures Fold(RecordFormat(c), Repeated(2, AllCoinBytes(c, coins)), m) == Ok(m.(balance := m.balance + coins))
  {
    if coins == [] {
      assert m.balance + [] == m.balance;
    } else {
      assert m.balance + coins == m.balance + [coins[0]] + coins[1..];
      assert AllCoinBytes(c, coins)[1..] == AllCoinBytes(c, coins[1..]);
      assert Repeated(2, AllCoinBytes(c, coins))[1..] == Repeated(2, AllCoinBytes(c, coins[1..]));
      FoldCoins(c, coins[1..], m.(balance := m.balance + [coins[0]]));
    }
  }

  /** The fields after the balance. */
  lemma FoldTail(c: CoinCodec, m: ClaimRecord, m2: ClaimRecord)
    requires m2 == EMPTY_RECORD.(oldAddress := m.oldAddress, balance := m.balance)
    ensures Fold(RecordFormat(c), OptionalWord(3, Flag(m.claimed)) + (OptionalWord(4, Unsigned(m.claimTime)) +
              (Optional(5, m.destAddress) + OptionalWord(6, m.vestedTier))), m2) == Ok(m)
  {
    hide Int64, Unsigned;
    var f := RecordFormat(c);
    var a, b := OptionalWord(3, Flag(m.claimed)), OptionalWord(4, Unsigned(m.claimTime));
    var d, e := Optional(5, m.destAddress), OptionalWord(6, m.vestedTier);
    UnsignedRoundTrip(m.claimTime);
    var m3 := m2.(claimed := m.claimed);
    var m4 := m3.(claimTime := m.claimTime);
    var m5 := m4.(destAddress := m.destAddress);
    assert Fold(f, a, m2) == Ok(m3);
    assert Fold(f, b, m3) == Ok(m4);
    assert Fold(f, d, m4) == Ok(m5);
    assert Fold(f, e, m5) == Ok(m);
    FoldConcat(f, a, b + (d + e), m2, m3);
    FoldConcat(f, b, d + e, m3, m4);
    FoldConcat(f, d, e, m4, m5);
  }

  lemma RecordWritable(c: CoinCodec, m: ClaimRecord)
    ensures AllWritable(RecordFormat(c).schema, RecordRecords(c, m))
  {
    var s := RecordFormat(c).schema;
    var a, coins := Optional(1, m.oldAddress), Repeated(2, AllCoinBytes(c, m.balance));
    var b, d := OptionalWord(3, Flag(m.claimed)), OptionalWord(4, Unsigned(m.claimTime));
    var e, g := Optional(5, m.destAddress), OptionalWord(6, m.vestedTier);
    assert AllWritable(s, a) && AllWritable(s, b) && AllWritable(s, d) && AllWritable(s, e) && AllWritable(s, g);
    RepeatedWritable(s, 2, AllCoinBytes(c, m.balance));
    hide AllWritable, Repeated, Optional, OptionalWord;
    SixWritable(s, a, coins, b, d, e, g);
  }

  /** Every claim record is read back equal: its coins in order, negative claim times, its tier. */
  lemma RecordRoundTrip(c: CoinCodec, m: ClaimRecord)
    requires Faithful(c) && |RecordBytes(c, m)| < TWO_63
    ensures Decode(RecordFormat(c), RecordBytes(c, m), 0, EMPTY_RECORD) == Ok(m)
  {
    RecordWritable(c, m);
    hide Decode, BytesOf, Repeated, Unsigned;
    var f := RecordFormat(c);
    DecodeWritten(f, RecordRecords(c, m), 0, EMPTY_RECORD);
    var a, coins := Optional(1, m.oldAddress), Repeated(2, AllCoinBytes(c, m.balance));
    var tail := OptionalWord(3, Flag(m.claimed)) + (OptionalWord(4, Unsigned(m.claimTime)) +
      (Optional(5, m.destAddress) + OptionalWord(6, m.vestedTier)));
    var m1 := EMPTY_RECORD.(oldAddress := m.oldAddress);
    var m2 := m1.(balance := m.balance);
    assert Fold(f, a, EMPTY_RECORD) == Ok(m1);
    hide Fold, Optional, OptionalWord;
    FoldCoins(c, m.balance, m1);
    assert [] + m.balance == m.balance;
    FoldTail(c, m, m2);
    assert RecordRecords(c, m) == a + (coins + tail);
    FoldConcat(f, a, coins + tail, EMPTY_RECORD, m1);
    FoldConcat(f, coins, tail, m1, m2);
  }

  /** The tag of each field, in this order, with empty strings and zero words left out. */
  lemma RecordLayout(c: CoinCodec, m: ClaimRecord)
    ensures RecordBytes(c, m) ==
      TaggedUnlessEmpty(0x0a, m.oldAddress) + (TaggedEach(0x12, AllCoinBytes(c, m.balance)) +
      (TaggedUnlessZero(0x18, Flag(m.claimed)) + (TaggedUnlessZero(0x20, Unsigned(m.claimTime)) +
      (TaggedUnlessEmpty(0x2a, m.destAddress) + TaggedUnlessZero(0x30, m.vestedTier)))))
  {
    hide BytesOf, Optional, OptionalWord, Repeated, Unsigned, RecordBytes;
    hide TaggedUnlessEmpty, TaggedUnlessZero, TaggedEach;
    RecordSections(c, m);
    OptionalLayout(1, 0x0a, m.oldAddress);
    RepeatedLayout(2, 0x12, AllCoinBytes(c, m.balance));
    OptionalWordLayout(3, 0x18, Flag(m.claimed));
    OptionalWordLayout(4, 0x20, Unsigned(m.claimTime));
    OptionalLayout(5, 0x2a, m.destAddress);
    OptionalWordLayout(6, 0x30, m.vestedTier);
  }

  /** A string or a coin behind a record that decodes: the last address wins, coins are appended. */
  lemma RecordField(c: CoinCodec, a: Bytes, m: ClaimRecord, s: Bytes, coin: Coin)
    requires Decode(RecordFormat(c), a, 0, EMPTY_RECORD) == Ok(m) && Faithful(c)
    requires |a + Tagged(0x0a, s)| < TWO_63 && |a + Tagged(0x12, c.encode(coin))| < TWO_63
    ensures Decode(RecordFormat(c), a + Tagged(0x0a, s), 0, EMPTY_RECORD) == Ok(m.(oldAddress := s))
    ensures Decode(RecordFormat(c), a + Tagged(0x2a, s), 0, EMPTY_RECORD) == Ok(m.(destAddress := s))
    ensures Decode(RecordFormat(c), a + Tagged(0x12, c.encode(coin)), 0, EMPTY_RECORD) ==
      Ok(m.(balance := m.balance + [coin]))
  {
    var f := RecordFormat(c);
    assert |Tagged(0x0a, s)| == |Tagged(0x2a, s)|;
    hide Decode, Tagged;
    FieldBehind(f, a, 1, 0x0a, s, EMPTY_RECORD, m);
    FieldBehind(f, a, 5, 0x2a, s, EMPTY_RECORD, m);
    FieldBehind(f, a, 2, 0x12, c.encode(coin), EMPTY_RECORD, m);
  }

  /** A word behind a record that decodes: the last one wins, and a tier is cut to 32 bits. */
  lemma RecordWordField(c: CoinCodec, a: Bytes, m: ClaimRecord, word: uint64, tag: byte)
    requires Decode(RecordFormat(c), a, 0, EMPTY_RECORD) == Ok(m) && tag in {0x18, 0x20, 0x30}
    requires |a + TaggedWord(tag, word)| < TWO_63
    ensures Decode(RecordFormat(c), a + TaggedWord(tag, word), 0, EMPTY_RECORD) == Ok(
      if tag == 0x18 then m.(claimed := word != 0)
      else if tag == 0x20 then m.(claimTime := Int64(word))
      else m.(vestedTier := word % TWO_32))
  {
    hide Decode, TaggedWord, Int64;
    WordBehind(RecordFormat(c), a, tag / 8, tag, word, EMPTY_RECORD, m);
  }

  /** A well-formed field with another number is as good as absent. */
  lemma UnknownRecordFieldIgnored(c: CoinCodec, a: Bytes, u: Field, b: Bytes)
    requires WellFormed(u) && u.num > 6
    requires |a| + |FieldBytes(u)| + |b| < TWO_63
    requires Decode(RecordFormat(c), a, 0, EMPTY_RECORD).Ok?
    ensures Agree(Decode(RecordFormat(c), a + FieldBytes(u) + b, 0, EMPTY_RECORD),
                  Decode(RecordFormat(c), a + b, 0, EMPTY_RECORD))
  {
    hide Decode, FieldBytes, WellFormed;
    UnknownFieldIsNeutral(RecordFormat(c), a, u, b, EMPTY_RECORD);
  }

  lemma RecordSections(c: CoinCodec, m: ClaimRecord)
    ensures RecordBytes(c, m) == BytesOf(Optional(1, m.oldAddress)) +
      (BytesOf(Repeated(2, AllCoinBytes(c, m.balance))) +
      (BytesOf(OptionalWord(3, Flag(m.claimed))) + (BytesOf(OptionalWord(4, Unsigned(m.claimTime))) +
      (BytesOf(Optional(5, m.destAddress)) + BytesOf(OptionalWord(6, m.vestedTier))))))
  {
    hide BytesOf, Repeated, Optional, OptionalWord;
    var a, coins := Optional(1, m.oldAddress), Repeated(2, AllCoinBytes(c, m.balance));
    var b, d := OptionalWord(3, Flag(m.claimed)), OptionalWord(4, Unsigned(m.claimTime));
    var e, g := Optional(5, m.destAddress), OptionalWord(6, m.vestedTier);
    BytesOfConcat(e, g);
    BytesOfConcat(d, e + g);
    BytesOfConcat(b, d + (e + g));
    BytesOfConcat(coins, b + (d + (e + g)));
    BytesOfConcat(a, coins + (b + (d + (e + g))));
  }

  method SizeCoins(c: CoinCodec, coins: seq<Coin>) returns (n: nat)
    ensures n == |BytesOf(Repeated(2, AllCoinBytes(c, coins)))|
  {
    hide BytesOf, Sov;
    ghost var all := AllCoinBytes(c, coins);
    n := 0;
    assert all[0..] == all;
    for k := 0 to |coins|
      invariant n + |BytesOf(Repeated(2, all[k..]))| == |BytesOf(Repeated(2, all))|
    {
      var l := |c.encode(coins[k])|;
      RepeatedStep(2, all, k);
      PayloadSize(2, all[k]);
      n := n + 1 + l + Sov(l);
    }
    NoRecords(2, all);
  }

  method SizeRecord(c: CoinCodec, m: ClaimRecord) returns (n: nat)
    ensures n == |RecordBytes(c, m)|
  {
    RecordSections(c, m);
    hide BytesOf, StringTerm, WordTerm, Optional, OptionalWord, Repeated, RecordBytes, Unsigned;
    OptionalSize(1, m.oldAddress);
    FlagSize(3, m.claimed);
    OptionalWordSize(4, Unsigned(m.claimTime));
    OptionalSize(5, m.destAddress);
    OptionalWordSize(6, m.vestedTier);
    n := 0;
    n := n + StringTerm(|m.oldAddress|);
    var coins := SizeCoins(c, m.balance);
    n := n + coins;
    n := n + 2 * Flag(m.claimed);
    n := n + WordTerm(Unsigned(m.claimTime));
    n := n + StringTerm(|m.destAddress|);
    n := n + WordTerm(m.vestedTier);
  }

  method PutCoins(c: CoinCodec, buf: array<byte>, hi: nat, coins: seq<Coin>) returns (i: nat)
    requires |BytesOf(Repeated(2, AllCoinBytes(c, coins)))| <= hi <= buf.Length
    modifies buf
    ensures Wrote(old(buf[..]), buf[..], i, hi, BytesOf(Repeated(2, AllCoinBytes(c, coins))))
  {
    ghost var all := AllCoinBytes(c, coins);
    NoRecords(2, all);
    WroteNothing(buf[..], hi);
    hide BytesOf, Repeated, Bytes1;
    ghost var before := buf[..];
    i := hi;
    var k := |coins|;
    while k > 0
      invariant 0 <= k <= |coins|
      invariant Wrote(before, buf[..], i, hi, BytesOf(Repeated(2, all[k..])))
    {
      k := k - 1;
      ghost var mid, split := buf[..], i;
      RepeatedFits(2, all, k);
      RepeatedStep(2, all, k);
      RoomForPayload(2, all[k]);
      i := PutBytes(buf, i, c.encode(coins[k]), 0x12, 2);
      WroteBefore(before, mid, buf[..], i, split, hi, Bytes1(Payload(2, all[k])), BytesOf(Repeated(2, all[k + 1..])));
    }
    assert all[0..] == all;
  }

  method MarshalRecord(c: CoinCodec, m: ClaimRecord, buf: array<byte>, hi: nat) returns (n: nat)
    requires |RecordBytes(c, m)| <= hi <= buf.Length
    modifies buf
    ensures n == |RecordBytes(c, m)| && Wrote(old(buf[..]), buf[..], hi - n, hi, RecordBytes(c, m))
  {
    RecordSections(c, m);
    hide BytesOf, Repeated, Optional, OptionalWord, RecordBytes;
    ghost var a, coins := BytesOf(Optional(1, m.oldAddress)), BytesOf(Repeated(2, AllCoinBytes(c, m.balance)));
    ghost var b, d := BytesOf(OptionalWord(3, Flag(m.claimed))), BytesOf(OptionalWord(4, Unsigned(m.claimTime)));
    ghost var e, g := BytesOf(Optional(5, m.destAddress)), BytesOf(OptionalWord(6, m.vestedTier));
    ghost var before := buf[..];
    var i := PutOptionalWord(buf, hi, m.vestedTier, 0x30, 6);
    ghost var mid, split := buf[..], i;
    i := PutOptional(buf, i, m.destAddress, 0x2a, 5);
    WroteBefore(before, mid, buf[..], i, split, hi, e, g);
    mid, split := buf[..], i;
    i := PutOptionalWord(buf, i, Unsigned(m.claimTime), 0x20, 4);
    WroteBefore(before, mid, buf[..], i, split, hi, d, e + g);
    mid, split := buf[..], i;
    i := PutOptionalWord(buf, i, Flag(m.claimed), 0x18, 3);
    WroteBefore(before, mid, buf[..], i, split, hi, b, d + (e + g));
    mid, split := buf[..], i;
    i := PutCoins(c, buf, i, m.balance);
    WroteBefore(before, mid, buf[..], i, split, hi, coins, b + (d + (e + g)));
    mid, split := buf[..], i;
    i := PutOptional(buf, i, m.oldAddress, 0x0a, 1);
    WroteBefore(before, mid, buf[..], i, split, hi, a, coins + (b + (d + (e + g))));
    n := hi - i;
  }

  method UnmarshalRecord(c: CoinCodec, data: Bytes) returns (r: Result<ClaimRecord, Error>)
    requires |data| < TWO_63
    ensures r == Decode(RecordFormat(c), data, 0, EMPTY_RECORD)
  {
    hide Next;
    var m := EMPTY_RECORD;
    var at := 0;
    assert data[0..] == data;
    while at < |data|
      invariant 0 <= at <= |data|
      invariant Decode(RecordFormat(c), data[at..], at, m) == Decode(RecordFormat(c), data, 0, EMPTY_RECORD)
    {
      var rec := ReadNext(RecordFormat(c).schema, data, at);
      if rec.Err? { return Err(rec.error); }
      assert data[at..][rec.value.1 - at..] == data[rec.value.1..];
      var field := rec.value.0;
      if field.Payload? {
        match field.num {
          case 1 => m := m.(oldAddress := field.bytes);
          case 2 =>
            var coin := c.decode(field.bytes);
            if coin.Err? { return Err(coin.error); }
            m := m.(balance := m.balance + [coin.value]);
          case 5 => m := m.(destAddress := field.bytes);
          case _ =>
        }
      } else if field.Number? {
        match field.num {
          case 3 => m := m.(claimed := field.word != 0);
          case 4 => m := m.(claimTime := Int64(field.word));
          case 6 => m := m.(vestedTier := field.word % TWO_32);
          case _ =>
        }
      }
      at := rec.value.1;
    }
    return Ok(m);
  }
}
