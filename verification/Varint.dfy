/**
 Base 128 varints as the generated protobuf code reads and writes them: 64-bit words, seven bits a
 byte, least significant group first, the high bit of a byte saying that another one follows.
 */
module Varint {
  import opened Bytes

  const TWO_32: int := 0x1_0000_0000
  const TWO_63: int := 0x8000_0000_0000_0000
  const TWO_64: int := 0x1_0000_0000_0000_0000

  /** The errors of the generated decoders. */
  datatype Error =
    | IntOverflow         // a varint longer than ten bytes
    | UnexpectedEof       // the input stops inside a field
    | InvalidLength       // a length or index that has wrapped below zero
    | UnexpectedEndGroup  // an end-group tag that closes nothing
    | EndGroupTag         // an end-group tag where a field should start
    | IllegalTag          // a field number that is not positive
    | WrongWireType       // a known field with another wire type
    | IllegalWireType     // wire types 6 and 7

  // ----- machine words -----

  /** Two's complement: the `int` with the same 64 low bits as `x`. */
  function Int64(x: int): (r: int)
    ensures -TWO_63 <= r < TWO_63
    ensures (r - x) % TWO_64 == 0
    ensures -TWO_63 <= x < TWO_63 ==> r == x
    ensures TWO_63 <= x < TWO_64 ==> r < 0
  {
    var low := x % TWO_64;
    if low < TWO_63 then low else low - TWO_64
  }

  /** The sum of two indices, in 64 bits: it is negative exactly when it has wrapped. */
  function Add64(a: nat, b: nat): (r: int)
    requires a < TWO_63 && b < TWO_63
    ensures r < TWO_63
    ensures r < 0 <==> a + b >= TWO_63
    ensures r >= 0 ==> r == a + b
  {
    Int64(a + b)
  }

  /** Two's complement: the `int32` with the same 32 low bits as `x`. */
  function Int32(x: int): int
  {
    var low := x % TWO_32;
    if low < TWO_32 / 2 then low else low - TWO_32
  }

  /** `x << n`, in a word wide enough not to lose a bit. */
  function Shl(x: nat, n: nat): nat
  {
    if n == 0 then x else 2 * Shl(x, n - 1)
  }

  /** `x << n` in a 64-bit word. */
  function Shl64(x: nat, n: nat): nat
  {
    Shl(x, n) % TWO_64
  }

  /** The bitwise or of two words. */
  function BitOr(a: nat, b: nat): nat
  {
    if a == 0 && b == 0 then 0
    else (if a % 2 == 1 || b % 2 == 1 then 1 else 0) + 2 * BitOr(a / 2, b / 2)
  }

  /** How many bits `x` takes: `math/bits.Len64`. */
  function BitLen(x: nat): nat
  {
    if x == 0 then 0 else 1 + BitLen(x / 2)
  }

  lemma {:induction false} BitOrZero(a: nat)
    ensures BitOr(a, 0) == a
  {
    if a != 0 { BitOrZero(a / 2); }
  }

  /** Words that share no bit are or-ed by adding them. */
  lemma {:induction false} BitOrDisjoint(a: nat, x: nat, n: nat)
    requires a < Shl(1, n)
    ensures BitOr(a, Shl(x, n)) == a + Shl(x, n)
  {
    if n == 0 {
      BitOrSym(a, x);
      BitOrZero(x);
    } else {
      BitOrDisjoint(a / 2, x, n - 1);
    }
  }

  lemma {:induction false} BitOrSym(a: nat, b: nat)
    ensures BitOr(a, b) == BitOr(b, a)
  {
    if a != 0 || b != 0 { BitOrSym(a / 2, b / 2); }
  }

  lemma ShlSeven(x: nat, n: nat)
    ensures Shl(x, n + 7) == 128 * Shl(x, n)
  {
    assert Shl(x, n + 7) == 2 * Shl(x, n + 6) == 4 * Shl(x, n + 5) == 8 * Shl(x, n + 4);
    assert Shl(x, n + 4) == 2 * Shl(x, n + 3) == 4 * Shl(x, n + 2) == 8 * Shl(x, n + 1);
  }

  /** The value of `x` as the digit of weight 128 to the power `k`. */
  ghost function Digit(x: nat, k: nat): nat
  {
    if k == 0 then x else 128 * Digit(x, k - 1)
  }

  lemma {:induction false} ShlDigit(x: nat, k: nat)
    ensures Shl(x, 7 * k) == Digit(x, k)
  {
    if k > 0 {
      ShlDigit(x, k - 1);
      ShlSeven(x, 7 * (k - 1));
    }
  }

  lemma {:induction false} DigitSum(c: nat, v: nat, k: nat)
    ensures Digit(c + 128 * v, k) == Digit(c, k) + Digit(v, k + 1)
  {
    if k > 0 { DigitSum(c, v, k - 1); }
  }

  lemma {:induction false} DigitBound(c: nat, k: nat)
    requires c < 128
    ensures Digit(c, k) <= 127 * Digit(1, k)
  {
    if k > 0 { DigitBound(c, k - 1); }
  }

  lemma {:induction false} DigitMono(x: nat, j: nat, k: nat)
    requires j <= k
    ensures Digit(x, j) <= Digit(x, k)
  {
    if j < k { DigitMono(x, j, k - 1); }
  }

  lemma DigitFive(x: nat, k: nat)
    ensures Digit(x, k + 5) == 0x8_0000_0000 * Digit(x, k)
  {
    assert Digit(x, k + 5) == 128 * Digit(x, k + 4) && Digit(x, k + 4) == 128 * Digit(x, k + 3);
    assert Digit(x, k + 3) == 128 * Digit(x, k + 2) && Digit(x, k + 2) == 128 * Digit(x, k + 1);
  }

  lemma DigitWords(x: nat, k: nat)
    ensures k <= 8 ==> 128 * Digit(x, k) <= TWO_63 * x
    ensures k == 9 ==> Digit(x, k) == TWO_63 * x
    ensures k == 10 ==> Digit(x, k) == 64 * TWO_64 * x
  {
    assert Digit(x, k + 1) == 128 * Digit(x, k);
    var zero, nine := 0, 9;
    assert Digit(x, 5) == 128 * Digit(x, 4);
    hide Digit;
    assert Digit(x, zero) == x by { DigitZero(x); }
    DigitFive(x, 0);
    DigitFive(x, 4);
    DigitFive(x, 5);
    if k <= 8 { DigitMono(x, k + 1, nine); }
  }

  lemma DigitZero(x: nat)
    ensures Digit(x, 0) == x
  {
  }

  /** A digit is or-ed into the lower ones by adding it. */
  lemma OrDigit(acc: nat, c: nat, k: nat)
    requires acc < Digit(1, k)
    ensures BitOr(acc, Digit(c, k)) == acc + Digit(c, k)
  {
    hide BitOr, Shl, Digit;
    ShlDigit(1, k);
    ShlDigit(c, k);
    BitOrDisjoint(acc, c, 7 * k);
  }

  // ----- the encoding -----

  /** The varint of `v`. */
  function Encode(v: nat): (r: Bytes)
    ensures |r| >= 1
  {
    if v < 128 then [v] else [v % 128 + 128] + Encode(v / 128)
  }

  /** The size formula of the generated code: `(bits.Len64(x|1) + 6) / 7`. */
  function Sov(x: nat): nat
  {
    (BitLen(BitOr(x, 1)) + 6) / 7
  }

  /** Or-ing in the lowest bit changes the length of zero only. */
  lemma BitLenOrOne(x: nat)
    ensures BitLen(BitOr(x, 1)) == if x == 0 then 1 else BitLen(x)
  {
    var one := 1;
    BitOrZero(x / 2);
    assert BitOr(x, one) == 1 + 2 * BitOr(x / 2, one / 2) == 1 + 2 * (x / 2);
    assert (1 + 2 * (x / 2)) / 2 == x / 2;
  }

  lemma BitLenSeven(w: nat)
    ensures 1 <= w < 128 ==> 1 <= BitLen(w) <= 7
    ensures w >= 128 ==> BitLen(w) == 7 + BitLen(w / 128)
  {
    assert w / 2 / 2 == w / 4 && w / 4 / 2 == w / 8 && w / 8 / 2 == w / 16;
    assert w / 16 / 2 == w / 32 && w / 32 / 2 == w / 64 && w / 64 / 2 == w / 128;
    assert BitLen(w / 4) == if w < 4 then 0 else 1 + BitLen(w / 8);
    assert BitLen(w / 16) == if w < 16 then 0 else 1 + BitLen(w / 32);
    assert BitLen(w / 64) == if w < 64 then 0 else 1 + BitLen(w / 128);
  }

  /** The size formula counts the bytes that the encoding loop writes. */
  lemma SovIsLength(v: nat)
    ensures Sov(v) == |Encode(v)|
  {
    BitLenOrOne(v);
    LengthByBits(v);
  }

  lemma {:induction false} LengthByBits(v: nat)
    ensures |Encode(v)| == if v == 0 then 1 else (BitLen(v) + 6) / 7
  {
    BitLenSeven(v);
    if v >= 128 { LengthByBits(v / 128); }
  }

  /** `encodeVarint`: writes `v` so that it ends just before `offset`, and returns where it starts. */
  method EncodeVarint(buf: array<byte>, offset: nat, v: nat) returns (base: nat)
    requires |Encode(v)| <= offset <= buf.Length
    modifies buf
    ensures base == offset - |Encode(v)|
    ensures buf[base..offset] == Encode(v)
    ensures buf[..base] == old(buf[..base]) && buf[offset..] == old(buf[offset..])
  {
    hide BitOr, BitLen, Sov;
    SovIsLength(v);
    var at := offset - Sov(v);
    base := at;
    var w := v;
    ghost var done: Bytes := [];
    while w >= 128
      invariant base <= at && at == base + |done| && at + |Encode(w)| == offset
      invariant done + Encode(w) == Encode(v)
      invariant buf[base..at] == done
      invariant buf[..base] == old(buf[..base]) && buf[offset..] == old(buf[offset..])
      decreases w
    {
      assert done + Encode(w) == (done + [w % 128 + 128]) + Encode(w / 128);
      buf[at] := w % 128 + 128;
      done := done + [w % 128 + 128];
      w := w / 128;
      at := at + 1;
    }
    buf[at] := w;
    assert buf[base..offset] == done + [w];
  }

  // ----- the decoding -----

  /**
   The varint at the start of `s`, read from digit `k` on: its value before it is cut down to 64 bits
   and the number of bytes it takes. The tenth byte is the last one that may be read.
   */
  function RawAt(s: Bytes, k: nat): (r: Result<(nat, nat), Error>)
    requires k <= 10
    ensures r.Ok? ==> 1 <= r.value.1 <= |s|
    decreases |s|
  {
    if k == 10 then Err(IntOverflow)
    else if s == [] then Err(UnexpectedEof)
    else if s[0] < 128 then Ok((s[0], 1))
    else
      var rest :- RawAt(s[1..], k + 1);
      Ok((s[0] - 128 + 128 * rest.0, rest.1 + 1))
  }

  /** The 64-bit word a varint at the start of `s` stands for, and its length. */
  function Read(s: Bytes): (r: Result<(nat, nat), Error>)
    ensures r.Ok? ==> r.value.0 < TWO_64 && 1 <= r.value.1 <= |s|
  {
    var raw :- RawAt(s, 0);
    Ok((raw.0 % TWO_64, raw.1))
  }

  /** Bytes after a complete varint do not change how it is read. */
  lemma {:induction false} RawLocal(a: Bytes, b: Bytes, k: nat)
    requires k <= 10
    requires RawAt(a, k).Ok?
    ensures RawAt(a + b, k) == RawAt(a, k)
    decreases 10 - k
  {
    if a[0] >= 128 {
      assert (a + b)[1..] == a[1..] + b;
      RawLocal(a[1..], b, k + 1);
    }
  }

  lemma ReadLocal(a: Bytes, b: Bytes)
    requires Read(a).Ok?
    ensures Read(a + b) == Read(a)
  {
    RawLocal(a, b, 0);
  }

  lemma {:induction false} RawEncode(v: nat, rest: Bytes, k: nat)
    requires k < 10 && v < Digit(1, 10 - k)
    ensures RawAt(Encode(v) + rest, k) == Ok((v, |Encode(v)|))
    decreases 10 - k
  {
    if v >= 128 {
      assert (Encode(v) + rest)[1..] == Encode(v / 128) + rest;
      RawEncode(v / 128, rest, k + 1);
    }
  }

  /** Every 64-bit word survives being written and read back, whatever follows it. */
  lemma ReadEncode(v: nat, rest: Bytes)
    requires v < TWO_64
    ensures Read(Encode(v) + rest) == Ok((v, |Encode(v)|))
  {
    hide BitOr, Shl, Sov;
    DigitWords(1, 10);
    RawEncode(v, rest, 0);
  }

  /** A varint that does not end within ten bytes, or within the input, is refused. */
  lemma Unfinished(s: Bytes)
    requires forall i :: 0 <= i < |s| && i < 10 ==> s[i] >= 128
    ensures Read(s).Err?
  {
    UnfinishedFrom(s, 0);
  }

  lemma {:induction false} UnfinishedFrom(s: Bytes, k: nat)
    requires k <= 10 && forall i :: 0 <= i < |s| && k + i < 10 ==> s[i] >= 128
    ensures RawAt(s, k).Err?
    decreases |s|
  {
    if k < 10 && s != [] { UnfinishedFrom(s[1..], k + 1); }
  }

  /** Seven bits a byte, the lowest first, with the high bit set on all but the last. */
  lemma Examples()
    ensures Encode(0) == [0] && Encode(1) == [1] && Encode(127) == [127] && Encode(128) == [0x80, 0x01]
    ensures Encode(150) == [0x96, 0x01] && Encode(300) == [0xac, 0x02]
  {
  }

  /** Hence every `int64`, negative ones included. */
  lemma SignedRoundTrip(x: int, rest: Bytes)
    requires -TWO_63 <= x < TWO_63
    ensures Read(Encode(x % TWO_64) + rest).Ok?
    ensures Int64(Read(Encode(x % TWO_64) + rest).value.0) == x
  {
    ReadEncode(x % TWO_64, rest);
  }

  /** A reading of the bytes from `from` on, with the index where it ends in place of its length. */
  function Shift<T>(r: Result<(T, nat), Error>, from: nat): Result<(T, nat), Error>
  {
    match r
    case Ok(p) => Ok((p.0, from + p.1))
    case Err(e) => Err(e)
  }

  /** The varint loop of the generated code, run on a 64-bit accumulator. */
  method ReadVarint(s: Bytes, from: nat) returns (r: Result<(nat, nat), Error>)
    requires from <= |s|
    ensures r == Shift(Read(s[from..]), from)
  {
    hide BitOr, Shl;
    var at := from;
    var shift := 0;
    var acc: nat := 0;
    ghost var k := 0;
    while true
      invariant shift == 7 * k && k <= 10 && at == from + k <= |s|
      invariant Reading(s, from, k, acc)
      decreases 10 - k
    {
      if shift >= 64 { return Err(IntOverflow); }
      if at >= |s| {
        assert RawAt(s[at..], k) == Err(UnexpectedEof);
        return Err(UnexpectedEof);
      }
      var b := s[at];
      ghost var pre := acc;
      acc := BitOr(acc, Shl64(b % 128, shift));
      at := at + 1;
      if b < 128 {
        LastByte(s, from, k, pre);
        return Ok((acc, at));
      }
      MoreBytes(s, from, k, pre);
      shift := shift + 7;
      k := k + 1;
    }
  }

  /** What the loop knows when `k` bytes are read: they are worth `acc`, and the rest is still to come. */
  ghost predicate Reading(s: Bytes, from: nat, k: nat, acc: nat)
    requires k <= 10 && from + k <= |s|
  {
    if k == 10 then RawAt(s[from..], 0) == Err(IntOverflow)
    else acc < Digit(1, k) && RawAt(s[from..], 0) == Resume(RawAt(s[from + k..], k), acc, k)
  }

  lemma LastByte(s: Bytes, from: nat, k: nat, acc: nat)
    requires k < 10 && from + k < |s| && s[from + k] < 128
    requires Reading(s, from, k, acc)
    ensures Read(s[from..]) == Ok((BitOr(acc, Shl64(s[from + k], 7 * k)), k + 1))
  {
    hide BitOr, Shl, Digit;
    FinalDigit(acc, s[from + k], k);
  }

  lemma MoreBytes(s: Bytes, from: nat, k: nat, acc: nat)
    requires k < 10 && from + k < |s| && s[from + k] >= 128
    requires Reading(s, from, k, acc)
    ensures Reading(s, from, k + 1, BitOr(acc, Shl64(s[from + k] % 128, 7 * k)))
  {
    assert Digit(1, 0) == 1;
    hide BitOr, Shl, Digit;
    var c: nat := s[from + k] - 128;
    var rest := RawAt(s[from + k + 1..], k + 1);
    assert RawAt(s[from + k..], k) ==
      if rest.Err? then Err(rest.error) else Ok((c + 128 * rest.value.0, rest.value.1 + 1)) by {
      assert s[from + k..][1..] == s[from + k + 1..];
    }
    if k < 9 {
      assert s[from + k] % 128 == c;
      NextDigit(acc, c, k);
      if rest.Ok? { DigitSum(c, rest.value.0, k); }
    }
  }

  /** The reading of a whole varint, given that of its digits from `k` on and the value `acc` of those before. */
  ghost function Resume(r: Result<(nat, nat), Error>, acc: nat, k: nat): Result<(nat, nat), Error>
  {
    match r
    case Err(e) => Err(e)
    case Ok(p) => Ok((acc + Digit(p.0, k), p.1 + k))
  }

  lemma NextDigit(acc: nat, c: nat, k: nat)
    requires k < 9 && acc < Digit(1, k) && c < 128
    ensures BitOr(acc, Shl64(c, 7 * k)) == acc + Digit(c, k) < Digit(1, k + 1) <= TWO_63
  {
    assert Digit(1, k + 1) == 128 * Digit(1, k);
    hide BitOr, Shl, Digit;
    ShlDigit(c, k);
    DigitBound(c, k);
    DigitWords(1, k);
    SmallMod(Digit(c, k));
    OrDigit(acc, c, k);
  }

  /** Only the lowest bit of the tenth digit still fits into the word. */
  lemma TenthDigit(acc: nat, c: nat)
    requires acc < TWO_63
    ensures (TWO_63 * c) % TWO_64 == TWO_63 * (c % 2)
    ensures (acc + TWO_63 * c) % TWO_64 == acc + TWO_63 * (c % 2)
  {
    assert TWO_63 * c == (c / 2) * TWO_64 + TWO_63 * (c % 2);
  }

  lemma FinalDigit(acc: nat, c: nat, k: nat)
    requires k < 10 && acc < Digit(1, k) && c < 128
    ensures BitOr(acc, Shl64(c, 7 * k)) == (acc + Digit(c, k)) % TWO_64
  {
    hide BitOr, Shl, Digit;
    if k < 9 {
      NextDigit(acc, c, k);
      SmallMod(acc + Digit(c, k));
    } else {
      ShlDigit(c, k);
      DigitWords(c, k);
      DigitWords(c % 2, k);
      DigitWords(1, k);
      TenthDigit(acc, c);
      OrDigit(acc, c % 2, k);
    }
  }

  lemma SmallMod(x: nat)
    requires x < TWO_64
    ensures x % TWO_64 == x
  {
  }
}
