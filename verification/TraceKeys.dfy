/**
 The keys of the registration policy: a denomination trace as a byte string with delimiters, and a base
 denomination in front of it.
 */
module TraceKeys {
  import opened Bytes
  import opened PolicyCodec

  const NUL: byte := 0
  const SLASH: byte := 47

  // ----- searching and splitting, as the bytes package does -----

  /** The index of the first `b`, or -1. */
  function IndexByte(s: Bytes, b: byte): (r: int)
    ensures r == -1 <==> b !in s
    ensures -1 <= r < |s|
    ensures r >= 0 ==> s[r] == b && b !in s[..r]
  {
    if s == [] then -1
    else if s[0] == b then 0
    else
      var r := IndexByte(s[1..], b);
      assert r >= 0 ==> s[..r + 1] == [s[0]] + s[1..][..r];
      if r < 0 then -1 else r + 1
  }

  /** The parts of `s` between the occurrences of `b`. */
  function Split(s: Bytes, b: byte): (r: seq<Bytes>)
    ensures |r| >= 1
    ensures forall p :: p in r ==> b !in p
    decreases |s|
  {
    var i := IndexByte(s, b);
    if i < 0 then [s] else [s[..i]] + Split(s[i + 1..], b)
  }

  lemma IndexConcat(a: Bytes, rest: Bytes, b: byte)
    requires b !in a
    ensures IndexByte(a + [b] + rest, b) == |a|
  {
    var s := a + [b] + rest;
    var i := IndexByte(s, b);
    assert s[|a|] == b;
    assert forall j :: 0 <= j < |a| ==> s[j] == a[j];
    assert forall n :: |a| < n <= |s| ==> s[..n][|a|] == b;
  }

  lemma SplitConcat(a: Bytes, rest: Bytes, b: byte)
    requires b !in a
    ensures Split(a + [b] + rest, b) == [a] + Split(rest, b)
  {
    var s := a + [b] + rest;
    IndexConcat(a, rest, b);
    assert s[..|a|] == a && s[|a| + 1..] == rest;
  }

  // ----- trace keys -----

  function HopKey(h: SourceHop): Bytes
  {
    h.portId + [SLASH] + h.channelId
  }

  /** `EncodeTraceKey`: hops as `port/channel`, with a NUL between two. */
  function TraceKey(hops: seq<SourceHop>): Bytes
  {
    if hops == [] then []
    else if |hops| == 1 then HopKey(hops[0])
    else HopKey(hops[0]) + [NUL] + TraceKey(hops[1..])
  }

  /** A part of a key, read as a hop: cut at its first slash, none when it has no slash. */
  function ReadHop(part: Bytes): seq<SourceHop>
  {
    var i := IndexByte(part, SLASH);
    if i < 0 then [] else [SourceHop(part[..i], part[i + 1..])]
  }

  function ReadHops(parts: seq<Bytes>): seq<SourceHop>
  {
    if parts == [] then [] else ReadHops(parts[..|parts| - 1]) + ReadHop(parts[|parts| - 1])
  }

  /** `DecodeTraceKey`. */
  function ReadTrace(key: Bytes): seq<SourceHop>
  {
    if key == [] then [] else ReadHops(Split(key, NUL))
  }

  /** Hops that can be told apart in a key. */
  predicate Separable(h: SourceHop)
  {
    NUL !in h.portId && SLASH !in h.portId && NUL !in h.channelId
  }

  lemma HopKeyReads(h: SourceHop)
    requires Separable(h)
    ensures NUL !in HopKey(h) && ReadHop(HopKey(h)) == [h]
  {
    IndexConcat(h.portId, h.channelId, SLASH);
    assert HopKey(h)[..|h.portId|] == h.portId && HopKey(h)[|h.portId| + 1..] == h.channelId;
  }

  lemma {:induction false} ReadHopsConcat(a: seq<Bytes>, b: seq<Bytes>)
    ensures ReadHops(a + b) == ReadHops(a) + ReadHops(b)
  {
    if b == [] {
      assert a + b == a;
    } else {
      assert (a + b)[..|a + b| - 1] == a + b[..|b| - 1];
      ReadHopsConcat(a, b[..|b| - 1]);
    }
  }

  lemma ReadHopsFirst(first: Bytes, rest: seq<Bytes>)
    ensures ReadHops([first] + rest) == ReadHop(first) + ReadHops(rest)
  {
    ReadHopsConcat([first], rest);
    assert [first][..0] == [];
    assert ReadHops([first]) == ReadHops([]) + ReadHop(first);
  }

  lemma {:induction false} SeparableReads(hops: seq<SourceHop>)
    requires hops != [] && forall h :: h in hops ==> Separable(h)
    ensures ReadHops(Split(TraceKey(hops), NUL)) == hops
  {
    hide HopKey, ReadHop, Split;
    var k := HopKey(hops[0]);
    HopKeyReads(hops[0]);
    if |hops| == 1 {
      assert Split(k, NUL) == [k] + [] by { SplitWhole(k, NUL); }
      ReadHopsFirst(k, []);
      assert hops == [hops[0]] + [];
    } else {
      SplitConcat(k, TraceKey(hops[1..]), NUL);
      ReadHopsFirst(k, Split(TraceKey(hops[1..]), NUL));
      SeparableReads(hops[1..]);
      assert hops == [hops[0]] + hops[1..];
    }
  }

  lemma SplitWhole(s: Bytes, b: byte)
    requires b !in s
    ensures Split(s, b) == [s]
  {
  }

  lemma PartSeparable(part: Bytes)
    requires NUL !in part
    ensures forall h :: h in ReadHop(part) ==> Separable(h)
  {
  }

  /** Whatever a key holds, the hops read from it are separable. */
  lemma {:induction false} ReadsSeparable(parts: seq<Bytes>)
    requires forall p :: p in parts ==> NUL !in p
    ensures forall h :: h in ReadHops(parts) ==> Separable(h)
  {
    hide ReadHop, Separable;
    if parts != [] {
      ReadsSeparable(parts[..|parts| - 1]);
      PartSeparable(parts[|parts| - 1]);
    }
  }

  /** Decoding inverts encoding exactly on the traces whose ports have no slash and whose names have no NUL. */
  lemma TraceRoundTrip(hops: seq<SourceHop>)
    ensures ReadTrace(TraceKey(hops)) == hops <==> forall h :: h in hops ==> Separable(h)
  {
    if hops != [] {
      assert TraceKey(hops) != [];
      hide TraceKey, Split, ReadHops;
      if forall h :: h in hops ==> Separable(h) {
        SeparableReads(hops);
      } else {
        ReadsSeparable(Split(TraceKey(hops), NUL));
      }
    }
  }

  // ----- entry keys -----

  /** `baseDenomTraceStoreKey`. */
  function EntryKey(e: BaseDenomTrace): Bytes
  {
    e.baseDenom + [NUL] + TraceKey(e.trace)
  }

  /** How a listing reads an entry back: cut at the first NUL; keys without one are skipped. */
  function ReadEntry(key: Bytes): Option<BaseDenomTrace>
  {
    var i := IndexByte(key, NUL);
    if i < 0 then None else Some(BaseDenomTrace(key[..i], ReadTrace(key[i + 1..])))
  }

  predicate SeparableEntry(e: BaseDenomTrace)
  {
    NUL !in e.baseDenom && forall h :: h in e.trace ==> Separable(h)
  }

  /** An entry is listed as it was stored exactly when its base has no NUL and its hops are separable. */
  lemma EntryRoundTrip(e: BaseDenomTrace)
    ensures ReadEntry(EntryKey(e)) == Some(e) <==> SeparableEntry(e)
  {
    hide TraceKey, ReadTrace;
    var key := EntryKey(e);
    if NUL in e.baseDenom {
      var i := IndexByte(key, NUL);
      assert NUL !in key[..i];
    } else {
      IndexConcat(e.baseDenom, TraceKey(e.trace), NUL);
      assert key[..|e.baseDenom|] == e.baseDenom && key[|e.baseDenom| + 1..] == TraceKey(e.trace);
      TraceRoundTrip(e.trace);
    }
  }

  /** Whatever a listing reads, it reads a separable entry. */
  lemma ReadIsSeparable(key: Bytes)
    requires ReadEntry(key).Some?
    ensures SeparableEntry(ReadEntry(key).value)
  {
    var i := IndexByte(key, NUL);
    var rest := key[i + 1..];
    if rest != [] { ReadsSeparable(Split(rest, NUL)); }
    assert forall h :: h in ReadTrace(rest) ==> Separable(h);
    hide ReadTrace, Separable;
  }

  /** Reading a key and writing what was read gives the key again. */
  predicate Readable(key: Bytes)
  {
    ReadEntry(key).Some? && EntryKey(ReadEntry(key).value) == key
  }

  /** The readable keys are those of separable entries. */
  lemma ReadableExactly(key: Bytes)
    ensures Readable(key) <==> exists e :: SeparableEntry(e) && EntryKey(e) == key
  {
    hide EntryKey, ReadEntry, SeparableEntry;
    if Readable(key) { ReadIsSeparable(key); }
    forall e | SeparableEntry(e) && EntryKey(e) == key ensures Readable(key) { EntryRoundTrip(e); }
  }

  /** Different separable entries have different keys. */
  lemma EntryKeyInjective(e: BaseDenomTrace, f: BaseDenomTrace)
    requires SeparableEntry(e) && SeparableEntry(f) && EntryKey(e) == EntryKey(f)
    ensures e == f
  {
    hide EntryKey, ReadEntry, SeparableEntry;
    EntryRoundTrip(e);
    EntryRoundTrip(f);
  }

  /** A base with a NUL in it shares its key with an entry for another base and a longer trace. */
  lemma NulInBaseCollides(base: Bytes, h: SourceHop, rest: seq<SourceHop>)
    requires rest != []
    ensures EntryKey(BaseDenomTrace(base + [NUL] + HopKey(h), rest)) == EntryKey(BaseDenomTrace(base, [h] + rest))
  {
  }

  /** A part without a slash behind the base is lost when the key is read. */
  lemma StrayPartDropped(base: Bytes, part: Bytes, hops: seq<SourceHop>)
    requires NUL !in base && NUL !in part && SLASH !in part
    requires hops != [] && forall h :: h in hops ==> Separable(h)
    ensures ReadEntry(EntryKey(BaseDenomTrace(base + [NUL] + part, hops))) == Some(BaseDenomTrace(base, hops))
    ensures EntryKey(BaseDenomTrace(base + [NUL] + part, hops)) != EntryKey(BaseDenomTrace(base, hops))
  {
    hide TraceKey, HopKey, ReadHops, Split, IndexByte;
    var key := EntryKey(BaseDenomTrace(base + [NUL] + part, hops));
    var rest := part + [NUL] + TraceKey(hops);
    assert key == base + [NUL] + rest;
    assert |key| != |EntryKey(BaseDenomTrace(base, hops))|;
    IndexConcat(base, rest, NUL);
    assert key[..|base|] == base && key[|base| + 1..] == rest;
    SplitConcat(part, TraceKey(hops), NUL);
    ReadHopsFirst(part, Split(TraceKey(hops), NUL));
    SeparableReads(hops);
    assert ReadHop(part) + hops == hops;
    assert ReadTrace(rest) == ReadHops(Split(rest, NUL));
  }

  // ----- the loops of keys.go -----

  lemma {:induction false} TraceKeyAppend(hops: seq<SourceHop>, h: SourceHop)
    requires hops != []
    ensures TraceKey(hops + [h]) == TraceKey(hops) + [NUL] + HopKey(h)
  {
    hide HopKey;
    assert (hops + [h])[1..] == hops[1..] + [h];
    if |hops| == 1 {
      assert hops[1..] + [h] == [h];
    } else {
      TraceKeyAppend(hops[1..], h);
      var a, b, c := HopKey(hops[0]), TraceKey(hops[1..]), HopKey(h);
      assert a + [NUL] + (b + [NUL] + c) == (a + [NUL] + b) + [NUL] + c;
    }
  }

  /** How keys are laid out: port, slash and channel of each hop, hops separated by NUL, behind the base and a NUL. */
  lemma KeyLayout(base: Bytes, hops: seq<SourceHop>, h: SourceHop)
    ensures TraceKey([]) == []
    ensures TraceKey([h]) == h.portId + [47] + h.channelId
    ensures hops != [] ==> TraceKey(hops + [h]) == TraceKey(hops) + [0] + (h.portId + [47] + h.channelId)
    ensures EntryKey(BaseDenomTrace(base, hops)) == base + [0] + TraceKey(hops)
  {
    if hops != [] { TraceKeyAppend(hops, h); }
  }

  lemma {:induction false} TraceKeyEnds(hops: seq<SourceHop>)
    requires hops != []
    ensures TraceKey(hops) != []
    ensures var c := hops[|hops| - 1].channelId;
      TraceKey(hops)[|TraceKey(hops)| - 1] == if c == [] then SLASH else c[|c| - 1]
  {
    var last := hops[|hops| - 1];
    var key := HopKey(last);
    assert key[|key| - 1] == if last.channelId == [] then SLASH else last.channelId[|last.channelId| - 1];
    assert hops[..|hops| - 1] + [last] == hops;
    if |hops| == 1 {
      assert hops == [last];
    } else {
      hide HopKey;
      TraceKeyAppend(hops[..|hops| - 1], last);
    }
  }

  method EncodeTraceKey(hops: seq<SourceHop>) returns (key: Bytes)
    ensures key == TraceKey(hops)
  {
    key := [];
    for i := 0 to |hops|
      invariant key == TraceKey(hops[..i])
    {
      assert hops[..i + 1] == hops[..i] + [hops[i]];
      if i > 0 {
        TraceKeyAppend(hops[..i], hops[i]);
        key := key + [NUL];
      }
      ghost var before := key;
      key := key + hops[i].portId;
      key := key + [SLASH];
      key := key + hops[i].channelId;
      assert key == before + HopKey(hops[i]);
    }
    assert hops[..|hops|] == hops;
  }

  lemma ReadHopsLast(parts: seq<Bytes>, i: nat)
    requires i < |parts|
    ensures ReadHops(parts[..i + 1]) == ReadHops(parts[..i]) + ReadHop(parts[i])
  {
    hide ReadHop;
    assert parts[..i + 1][..i] == parts[..i];
  }

  method DecodeTraceKey(key: Bytes) returns (hops: seq<SourceHop>)
    ensures hops == ReadTrace(key)
  {
    if |key| == 0 { return []; }
    var parts := Split(key, NUL);
    assert ReadTrace(key) == ReadHops(parts) && ReadHops([]) == [];
    hide Split, IndexByte, ReadHops, ReadTrace;
    hops := [];
    for i := 0 to |parts|
      invariant hops == ReadHops(parts[..i])
    {
      ReadHopsLast(parts, i);
      var part := parts[i];
      var idx := IndexByte(part, SLASH);
      if idx >= 0 {
        hops := hops + [SourceHop(part[..idx], part[idx + 1..])];
      }
    }
    assert parts[..|parts|] == parts;
  }
}
