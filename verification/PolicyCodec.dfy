/**
 `MsgSetRegistrationPolicy` and the two messages nested in it, as the generated code of the erc20policy
 module writes and reads them.
 */
module PolicyCodec {
  import opened Bytes
  import opened Varint
  import opened Wire
  import opened Message
  import opened Writer
  import opened UnknownFields

  datatype SourceHop = SourceHop(portId: Bytes, channelId: Bytes)

  datatype BaseDenomTrace = BaseDenomTrace(baseDenom: Bytes, trace: seq<SourceHop>)

  datatype SetRegistrationPolicy = SetRegistrationPolicy(
    authority: Bytes,
    mode: Bytes,
    addDenoms: seq<Bytes>,
    removeDenoms: seq<Bytes>,
    addTraces: seq<BaseDenomTrace>,
    removeTraces: seq<BaseDenomTrace>)

  const EMPTY_HOP := SourceHop([], [])
  const EMPTY_TRACE := BaseDenomTrace([], [])
  const EMPTY_POLICY := SetRegistrationPolicy([], [], [], [], [], [])

  // ----- what is written -----

  ghost function HopRecords(h: SourceHop): seq<Record>
  {
    Optional(1, h.portId) + Optional(2, h.channelId)
  }

  ghost function HopBytes(h: SourceHop): Bytes
  {
    BytesOf(HopRecords(h))
  }

  ghost function AllHopBytes(hops: seq<SourceHop>): (r: seq<Bytes>)
    ensures |r| == |hops|
    ensures forall i :: 0 <= i < |r| ==> r[i] == HopBytes(hops[i])
  {
    seq(|hops|, i requires 0 <= i < |hops| => HopBytes(hops[i]))
  }

  ghost function TraceRecords(t: BaseDenomTrace): seq<Record>
  {
    Optional(1, t.baseDenom) + Repeated(2, AllHopBytes(t.trace))
  }

  ghost function TraceBytes(t: BaseDenomTrace): Bytes
  {
    BytesOf(TraceRecords(t))
  }

  ghost function AllTraceBytes(ts: seq<BaseDenomTrace>): (r: seq<Bytes>)
    ensures |r| == |ts|
    ensures forall i :: 0 <= i < |r| ==> r[i] == TraceBytes(ts[i])
  {
    seq(|ts|, i requires 0 <= i < |ts| => TraceBytes(ts[i]))
  }

  ghost function PolicyRecords(m: SetRegistrationPolicy): seq<Record>
  {
    Optional(1, m.authority) + (Optional(2, m.mode) +
    (Repeated(3, m.addDenoms) + (Repeated(4, m.removeDenoms) +
    (Repeated(5, AllTraceBytes(m.addTraces)) + Repeated(6, AllTraceBytes(m.removeTraces))))))
  }

  ghost function PolicyBytes(m: SetRegistrationPolicy): Bytes
  {
    BytesOf(PolicyRecords(m))
  }

  // ----- what is read -----

  function ApplyHop(m: SourceHop, rec: Record): Result<SourceHop, Error>
  {
    match rec
    case Payload(num, bytes) =>
      if num == 1 then Ok(m.(portId := bytes))
      else if num == 2 then Ok(m.(channelId := bytes))
      else Ok(m)
    case _ => Ok(m)
  }

  const HOP: Format<SourceHop> := Format(map[1 := LengthDelimited, 2 := LengthDelimited], ApplyHop)

  function ApplyTrace(m: BaseDenomTrace, rec: Record): Result<BaseDenomTrace, Error>
  {
    match rec
    case Payload(num, bytes) =>
      if num == 1 then Ok(m.(baseDenom := bytes))
      else if num == 2 then
        var hop :- Decode(HOP, bytes, 0, EMPTY_HOP);
        Ok(m.(trace := m.trace + [hop]))
      else Ok(m)
    case _ => Ok(m)
  }

  const TRACE: Format<BaseDenomTrace> := Format(map[1 := LengthDelimited, 2 := LengthDelimited], ApplyTrace)

  function ApplyPolicy(m: SetRegistrationPolicy, rec: Record): Result<SetRegistrationPolicy, Error>
  {
    match rec
    case Payload(num, bytes) =>
      if num == 1 then Ok(m.(authority := bytes))
      else if num == 2 then Ok(m.(mode := bytes))
      else if num == 3 then Ok(m.(addDenoms := m.addDenoms + [bytes]))
      else if num == 4 then Ok(m.(removeDenoms := m.removeDenoms + [bytes]))
      else if num == 5 then
        var t :- Decode(TRACE, bytes, 0, EMPTY_TRACE);
        Ok(m.(addTraces := m.addTraces + [t]))
      else if num == 6 then
        var t :- Decode(TRACE, bytes, 0, EMPTY_TRACE);
        Ok(m.(removeTraces := m.removeTraces + [t]))
      else Ok(m)
    case _ => Ok(m)
  }

  const POLICY: Format<SetRegistrationPolicy> :=
    Format(map[1 := LengthDelimited, 2 := LengthDelimited, 3 := LengthDelimited,
               4 := LengthDelimited, 5 := LengthDelimited, 6 := LengthDelimited], ApplyPolicy)

  // ----- every message survives being written and read back -----

  lemma HopRoundTrip(h: SourceHop)
    requires |HopBytes(h)| < TWO_63
    ensures Decode(HOP, HopBytes(h), 0, EMPTY_HOP) == Ok(h)
  {
    hide Decode, BytesOf;
    DecodeWritten(HOP, HopRecords(h), 0, EMPTY_HOP);
    var m1 := SourceHop(h.portId, []);
    assert Fold(HOP, Optional(1, h.portId), EMPTY_HOP) == Ok(m1);
    FoldConcat(HOP, Optional(1, h.portId), Optional(2, h.channelId), EMPTY_HOP, m1);
  }

  /** Reading the hops of a trace appends them in order. */
  lemma {:induction false} FoldHops(hops: seq<SourceHop>, m: BaseDenomTrace)
    requires forall i :: 0 <= i < |hops| ==> |HopBytes(hops[i])| < TWO_63
    ensures Fold(TRACE, Repeated(2, AllHopBytes(hops)), m) == Ok(m.(trace := m.trace + hops))
  {
    hide Decode, HopBytes;
    if hops == [] {
      assert m.trace + [] == m.trace;
    } else {
      HopRoundTrip(hops[0]);
      FoldHops(hops[1..], m.(trace := m.trace + [hops[0]]));
      assert m.trace + hops == m.trace + [hops[0]] + hops[1..];
      assert AllHopBytes(hops)[1..] == AllHopBytes(hops[1..]);
      assert Repeated(2, AllHopBytes(hops))[1..] == Repeated(2, AllHopBytes(hops[1..]));
    }
  }

  lemma TraceRoundTrip(t: BaseDenomTrace)
    requires |TraceBytes(t)| < TWO_63
    ensures Decode(TRACE, TraceBytes(t), 0, EMPTY_TRACE) == Ok(t)
  {
    hide Decode, BytesOf, HopBytes;
    var base, hops := Optional(1, t.baseDenom), Repeated(2, AllHopBytes(t.trace));
    BytesOfConcat(base, hops);
    forall i | 0 <= i < |t.trace| ensures |HopBytes(t.trace[i])| < TWO_63 {
      ElementFits(2, AllHopBytes(t.trace), i);
    }
    RepeatedWritable(TRACE.schema, 2, AllHopBytes(t.trace));
    DecodeWritten(TRACE, base + hops, 0, EMPTY_TRACE);
    var m1 := BaseDenomTrace(t.baseDenom, []);
    assert Fold(TRACE, base, EMPTY_TRACE) == Ok(m1);
    FoldConcat(TRACE, base, hops, EMPTY_TRACE, m1);
    FoldHops(t.trace, m1);
    assert m1.trace + t.trace == t.trace;
  }

  /** Reading a repeated string field appends its elements in order, empty ones included. */
  lemma {:induction false} FoldStrings(num: nat, ss: seq<Bytes>, m: SetRegistrationPolicy)
    requires num == 3 || num == 4
    ensures Fold(POLICY, Repeated(num, ss), m)
         == Ok(if num == 3 then m.(addDenoms := m.addDenoms + ss) else m.(removeDenoms := m.removeDenoms + ss))
  {
    if ss == [] {
      assert m.addDenoms + [] == m.addDenoms && m.removeDenoms + [] == m.removeDenoms;
    } else {
      var m1 := if num == 3 then m.(addDenoms := m.addDenoms + [ss[0]])
          else m.(removeDenoms := m.removeDenoms + [ss[0]]);
      assert m.addDenoms + ss == m.addDenoms + [ss[0]] + ss[1..];
      assert m.removeDenoms + ss == m.removeDenoms + [ss[0]] + ss[1..];
      assert Repeated(num, ss)[1..] == Repeated(num, ss[1..]);
      FoldStrings(num, ss[1..], m1);
    }
  }

  /** Reading a repeated trace field appends its traces in order. */
  lemma {:induction false} FoldTraces(num: nat, ts: seq<BaseDenomTrace>, m: SetRegistrationPolicy)
    requires num == 5 || num == 6
    requires forall i :: 0 <= i < |ts| ==> |TraceBytes(ts[i])| < TWO_63
    ensures Fold(POLICY, Repeated(num, AllTraceBytes(ts)), m)
         == Ok(if num == 5 then m.(addTraces := m.addTraces + ts) else m.(removeTraces := m.removeTraces + ts))
  {
    hide Decode, TraceBytes;
    if ts == [] {
      assert m.addTraces + [] == m.addTraces && m.removeTraces + [] == m.removeTraces;
    } else {
      TraceRoundTrip(ts[0]);
      var m1 := if num == 5 then m.(addTraces := m.addTraces + [ts[0]])
          else m.(removeTraces := m.removeTraces + [ts[0]]);
      FoldTraces(num, ts[1..], m1);
      assert m.addTraces + ts == m.addTraces + [ts[0]] + ts[1..];
      assert m.removeTraces + ts == m.removeTraces + [ts[0]] + ts[1..];
      assert AllTraceBytes(ts)[1..] == AllTraceBytes(ts[1..]);
      assert Repeated(num, AllTraceBytes(ts))[1..] == Repeated(num, AllTraceBytes(ts[1..]));
    }
  }

  /** Each nested trace is small enough to be read when the message is. */
  lemma TracesFit(num: nat, ts: seq<BaseDenomTrace>)
    requires |BytesOf(Repeated(num, AllTraceBytes(ts)))| < TWO_63
    ensures forall i :: 0 <= i < |ts| ==> |TraceBytes(ts[i])| < TWO_63
  {
    hide BytesOf, TraceBytes;
    forall i | 0 <= i < |ts| ensures |TraceBytes(ts[i])| < TWO_63 {
      ElementFits(num, AllTraceBytes(ts), i);
    }
  }

  /** The lists of a message, read after its scalars. */
  lemma FoldLists(m: SetRegistrationPolicy, m1: SetRegistrationPolicy)
    requires m1 == SetRegistrationPolicy(m.authority, m.mode, [], [], [], [])
    requires |BytesOf(Repeated(5, AllTraceBytes(m.addTraces)))| < TWO_63
    requires |BytesOf(Repeated(6, AllTraceBytes(m.removeTraces)))| < TWO_63
    ensures Fold(POLICY, Repeated(3, m.addDenoms) + (Repeated(4, m.removeDenoms) +
             (Repeated(5, AllTraceBytes(m.addTraces)) + Repeated(6, AllTraceBytes(m.removeTraces)))), m1) == Ok(m)
  {
    hide Fold, BytesOf, TraceBytes, Repeated;
    var c, d := Repeated(3, m.addDenoms), Repeated(4, m.removeDenoms);
    var e, f := Repeated(5, AllTraceBytes(m.addTraces)), Repeated(6, AllTraceBytes(m.removeTraces));
    var m2 := m1.(addDenoms := m.addDenoms);
    var m3 := m2.(removeDenoms := m.removeDenoms);
    var m4 := m3.(addTraces := m.addTraces);
    assert [] + m.addDenoms == m.addDenoms && [] + m.removeDenoms == m.removeDenoms;
    assert [] + m.addTraces == m.addTraces && [] + m.removeTraces == m.removeTraces;
    FoldStrings(3, m.addDenoms, m1);
    FoldStrings(4, m.removeDenoms, m2);
    TracesFit(5, m.addTraces);
    FoldTraces(5, m.addTraces, m3);
    TracesFit(6, m.removeTraces);
    FoldTraces(6, m.removeTraces, m4);
    FoldConcat(POLICY, c, d + (e + f), m1, m2);
    FoldConcat(POLICY, d, e + f, m2, m3);
    FoldConcat(POLICY, e, f, m3, m4);
  }

  lemma PolicyWritable(m: SetRegistrationPolicy)
    ensures AllWritable(POLICY.schema, PolicyRecords(m))
  {
    var s := POLICY.schema;
    assert AllWritable(s, Optional(1, m.authority)) && AllWritable(s, Optional(2, m.mode));
    RepeatedWritable(s, 3, m.addDenoms);
    RepeatedWritable(s, 4, m.removeDenoms);
    RepeatedWritable(s, 5, AllTraceBytes(m.addTraces));
    RepeatedWritable(s, 6, AllTraceBytes(m.removeTraces));
    hide AllWritable, Repeated, Optional, TraceBytes;
    SixWritable(s, Optional(1, m.authority), Optional(2, m.mode), Repeated(3, m.addDenoms),
                Repeated(4, m.removeDenoms), Repeated(5, AllTraceBytes(m.addTraces)),
                Repeated(6, AllTraceBytes(m.removeTraces)));
  }

  /** The size of a message is the sum of the sizes of its fields. */
  lemma PolicySections(m: SetRegistrationPolicy)
    ensures PolicyBytes(m) == BytesOf(Optional(1, m.authority)) + (BytesOf(Optional(2, m.mode)) +
      (BytesOf(Repeated(3, m.addDenoms)) + (BytesOf(Repeated(4, m.removeDenoms)) +
      (BytesOf(Repeated(5, AllTraceBytes(m.addTraces))) + BytesOf(Repeated(6, AllTraceBytes(m.removeTraces)))))))
  {
    hide BytesOf, TraceBytes, Repeated, Optional;
    var a, b := Optional(1, m.authority), Optional(2, m.mode);
    var c, d := Repeated(3, m.addDenoms), Repeated(4, m.removeDenoms);
    var e, f := Repeated(5, AllTraceBytes(m.addTraces)), Repeated(6, AllTraceBytes(m.removeTraces));
    BytesOfConcat(e, f);
    BytesOfConcat(d, e + f);
    BytesOfConcat(c, d + (e + f));
    BytesOfConcat(b, c + (d + (e + f)));
    BytesOfConcat(a, b + (c + (d + (e + f))));
  }

  /**
   Every message that fits a Go slice is read back equal, with the order of its lists, and the empty
   strings in them, kept through all three levels.
   */
  lemma PolicyRoundTrip(m: SetRegistrationPolicy)
    requires |PolicyBytes(m)| < TWO_63
    ensures Decode(POLICY, PolicyBytes(m), 0, EMPTY_POLICY) == Ok(m)
  {
    PolicySections(m);
    PolicyWritable(m);
    hide Decode, BytesOf, TraceBytes, Repeated;
    DecodeWritten(POLICY, PolicyRecords(m), 0, EMPTY_POLICY);
    var a, b := Optional(1, m.authority), Optional(2, m.mode);
    var lists := Repeated(3, m.addDenoms) + (Repeated(4, m.removeDenoms) +
      (Repeated(5, AllTraceBytes(m.addTraces)) + Repeated(6, AllTraceBytes(m.removeTraces))));
    var m1 := EMPTY_POLICY.(authority := m.authority);
    var m2 := m1.(mode := m.mode);
    assert Fold(POLICY, a, EMPTY_POLICY) == Ok(m1);
    assert Fold(POLICY, b, m1) == Ok(m2);
    hide Fold, Optional;
    FoldLists(m, m2);
    assert PolicyRecords(m) == a + (b + lists);
    FoldConcat(POLICY, a, b + lists, EMPTY_POLICY, m1);
    FoldConcat(POLICY, b, lists, m1, m2);
  }

  // ----- concatenated messages -----

  /** `y` is what `x` becomes on top of `m`: its lists are appended, and its scalars win where they are set. */
  ghost predicate Merged(m: SetRegistrationPolicy, x: SetRegistrationPolicy, y: SetRegistrationPolicy)
  {
    && y.addDenoms == m.addDenoms + x.addDenoms
    && y.removeDenoms == m.removeDenoms + x.removeDenoms
    && y.addTraces == m.addTraces + x.addTraces
    && y.removeTraces == m.removeTraces + x.removeTraces
    && (y.authority == x.authority || (x.authority == [] && y.authority == m.authority))
    && (y.mode == x.mode || (x.mode == [] && y.mode == m.mode))
  }

  lemma MergedStep(m: SetRegistrationPolicy, x: SetRegistrationPolicy, y: SetRegistrationPolicy, rec: Record)
    requires Merged(m, x, y)
    ensures match ApplyPolicy(x, rec)
            case Ok(x') => ApplyPolicy(y, rec).Ok? && Merged(m, x', ApplyPolicy(y, rec).value)
            case Err(e) => ApplyPolicy(y, rec) == Err(e)
  {
    hide Decode;
    if rec.Payload? {
      if rec.num == 3 {
        assert y.addDenoms + [rec.bytes] == m.addDenoms + (x.addDenoms + [rec.bytes]);
      } else if rec.num == 4 {
        assert y.removeDenoms + [rec.bytes] == m.removeDenoms + (x.removeDenoms + [rec.bytes]);
      } else if rec.num == 5 || rec.num == 6 {
        var t := Decode(TRACE, rec.bytes, 0, EMPTY_TRACE);
        if t.Ok? {
          assert y.addTraces + [t.value] == m.addTraces + (x.addTraces + [t.value]);
          assert y.removeTraces + [t.value] == m.removeTraces + (x.removeTraces + [t.value]);
        }
      }
    }
  }

  lemma {:induction false} DecodeMerged(b: Bytes, pos: nat, m: SetRegistrationPolicy,
      x: SetRegistrationPolicy, y: SetRegistrationPolicy)
    requires Merged(m, x, y)
    ensures match Decode(POLICY, b, pos, x)
            case Ok(x') => Decode(POLICY, b, pos, y).Ok? && Merged(m, x', Decode(POLICY, b, pos, y).value)
            case Err(e) => Decode(POLICY, b, pos, y) == Err(e)
    decreases |b|
  {
    hide Next, Merged, ApplyPolicy;
    if b != [] {
      var r := Next(POLICY.schema, b, pos);
      if r.Ok? {
        MergedStep(m, x, y, r.value.0);
        var x', y' := ApplyPolicy(x, r.value.0), ApplyPolicy(y, r.value.0);
        if x'.Ok? { DecodeMerged(b[r.value.1..], pos + r.value.1, m, x'.value, y'.value); }
      }
    }
  }

  /** Two messages written one after the other read as one: later scalars win, lists are joined. */
  lemma ConcatMerges(a: Bytes, b: Bytes, ma: SetRegistrationPolicy, mb: SetRegistrationPolicy)
    requires |a| + |b| < TWO_63
    requires Decode(POLICY, a, 0, EMPTY_POLICY) == Ok(ma)
    requires Decode(POLICY, b, 0, EMPTY_POLICY) == Ok(mb)
    ensures Decode(POLICY, a + b, 0, EMPTY_POLICY).Ok?
    ensures Merged(ma, mb, Decode(POLICY, a + b, 0, EMPTY_POLICY).value)
  {
    assert Merged(ma, EMPTY_POLICY, ma);
    hide Decode, Merged;
    DecodeConcat(POLICY, a, b, 0, EMPTY_POLICY, ma);
    DecodeAnywhere(POLICY, b, 0, |a|, EMPTY_POLICY);
    DecodeMerged(b, |a|, ma, EMPTY_POLICY, ma);
  }

  /** A well-formed field with another number, put anywhere between fields, is as good as absent. */
  lemma UnknownFieldIgnored(a: Bytes, u: Field, b: Bytes)
    requires WellFormed(u) && u.num > 6
    requires |a| + |FieldBytes(u)| + |b| < TWO_63
    requires Decode(POLICY, a, 0, EMPTY_POLICY).Ok?
    ensures Agree(Decode(POLICY, a + FieldBytes(u) + b, 0, EMPTY_POLICY), Decode(POLICY, a + b, 0, EMPTY_POLICY))
  {
    hide Decode, FieldBytes, WellFormed;
    UnknownFieldIsNeutral(POLICY, a, u, b, EMPTY_POLICY);
  }

  /** The same for hops and for base denominations with their traces. */
  lemma UnknownFieldIgnoredInside(a: Bytes, u: Field, b: Bytes)
    requires WellFormed(u) && u.num > 2
    requires |a| + |FieldBytes(u)| + |b| < TWO_63
    ensures Decode(HOP, a, 0, EMPTY_HOP).Ok? ==>
      Agree(Decode(HOP, a + FieldBytes(u) + b, 0, EMPTY_HOP), Decode(HOP, a + b, 0, EMPTY_HOP))
    ensures Decode(TRACE, a, 0, EMPTY_TRACE).Ok? ==>
      Agree(Decode(TRACE, a + FieldBytes(u) + b, 0, EMPTY_TRACE), Decode(TRACE, a + b, 0, EMPTY_TRACE))
  {
    hide Decode, FieldBytes, WellFormed;
    if Decode(HOP, a, 0, EMPTY_HOP).Ok? { UnknownFieldIsNeutral(HOP, a, u, b, EMPTY_HOP); }
    if Decode(TRACE, a, 0, EMPTY_TRACE).Ok? { UnknownFieldIsNeutral(TRACE, a, u, b, EMPTY_TRACE); }
  }

  // ----- the layout, field by field -----

  /** The bytes of the three messages: the tag of each field, in this order, and empty strings left out. */
  lemma HopLayout(h: SourceHop)
    ensures HopBytes(h) == TaggedUnlessEmpty(0x0a, h.portId) + TaggedUnlessEmpty(0x12, h.channelId)
  {
    hide BytesOf, Optional, TaggedUnlessEmpty;
    BytesOfConcat(Optional(1, h.portId), Optional(2, h.channelId));
    OptionalLayout(1, 0x0a, h.portId);
    OptionalLayout(2, 0x12, h.channelId);
  }

  lemma TraceLayout(t: BaseDenomTrace)
    ensures TraceBytes(t) == TaggedUnlessEmpty(0x0a, t.baseDenom) + TaggedEach(0x12, AllHopBytes(t.trace))
  {
    hide BytesOf, Optional, Repeated, TaggedUnlessEmpty, TaggedEach;
    BytesOfConcat(Optional(1, t.baseDenom), Repeated(2, AllHopBytes(t.trace)));
    OptionalLayout(1, 0x0a, t.baseDenom);
    RepeatedLayout(2, 0x12, AllHopBytes(t.trace));
  }

  lemma PolicyLayout(m: SetRegistrationPolicy)
    ensures PolicyBytes(m) ==
      TaggedUnlessEmpty(0x0a, m.authority) + (TaggedUnlessEmpty(0x12, m.mode) +
      (TaggedEach(0x1a, m.addDenoms) + (TaggedEach(0x22, m.removeDenoms) +
      (TaggedEach(0x2a, AllTraceBytes(m.addTraces)) + TaggedEach(0x32, AllTraceBytes(m.removeTraces))))))
  {
    hide BytesOf, Optional, Repeated, TaggedUnlessEmpty, TaggedEach, PolicyBytes;
    PolicySections(m);
    OptionalLayout(1, 0x0a, m.authority);
    OptionalLayout(2, 0x12, m.mode);
    RepeatedLayout(3, 0x1a, m.addDenoms);
    RepeatedLayout(4, 0x22, m.removeDenoms);
    RepeatedLayout(5, 0x2a, AllTraceBytes(m.addTraces));
    RepeatedLayout(6, 0x32, AllTraceBytes(m.removeTraces));
  }

  /** A field behind a hop that decodes: the last port and the last channel win. */
  lemma HopField(a: Bytes, m: SourceHop, s: Bytes, tag: byte)
    requires Decode(HOP, a, 0, EMPTY_HOP) == Ok(m) && tag in {0x0a, 0x12} && |a + Tagged(tag, s)| < TWO_63
    ensures Decode(HOP, a + Tagged(tag, s), 0, EMPTY_HOP) ==
      Ok(if tag == 0x0a then m.(portId := s) else m.(channelId := s))
  {
    hide Decode, Tagged;
    FieldBehind(HOP, a, (tag - 2) / 8, tag, s, EMPTY_HOP, m);
  }

  /** A field behind a base denomination that decodes: the last base wins, hops are appended. */
  lemma TraceField(a: Bytes, m: BaseDenomTrace, s: Bytes, h: SourceHop)
    requires Decode(TRACE, a, 0, EMPTY_TRACE) == Ok(m)
    requires |a + Tagged(0x0a, s)| < TWO_63 && |a + Tagged(0x12, HopBytes(h))| < TWO_63
    ensures Decode(TRACE, a + Tagged(0x0a, s), 0, EMPTY_TRACE) == Ok(m.(baseDenom := s))
    ensures Decode(TRACE, a + Tagged(0x12, HopBytes(h)), 0, EMPTY_TRACE) == Ok(m.(trace := m.trace + [h]))
  {
    assert |HopBytes(h)| < TWO_63;
    hide Decode, HopBytes, Tagged;
    HopRoundTrip(h);
    FieldBehind(TRACE, a, 1, 0x0a, s, EMPTY_TRACE, m);
    FieldBehind(TRACE, a, 2, 0x12, HopBytes(h), EMPTY_TRACE, m);
  }

  /** A string field behind a message that decodes: the last scalar wins, denominations are appended. */
  lemma PolicyField(a: Bytes, m: SetRegistrationPolicy, s: Bytes, tag: byte)
    requires Decode(POLICY, a, 0, EMPTY_POLICY) == Ok(m) && tag in {0x0a, 0x12, 0x1a, 0x22}
    requires |a + Tagged(tag, s)| < TWO_63
    ensures Decode(POLICY, a + Tagged(tag, s), 0, EMPTY_POLICY) == Ok(
      if tag == 0x0a then m.(authority := s)
      else if tag == 0x12 then m.(mode := s)
      else if tag == 0x1a then m.(addDenoms := m.addDenoms + [s])
      else m.(removeDenoms := m.removeDenoms + [s]))
  {
    hide Decode, Tagged;
    FieldBehind(POLICY, a, (tag - 2) / 8, tag, s, EMPTY_POLICY, m);
  }

  /** A nested entry behind a message that decodes is appended to its list. */
  lemma PolicyEntryField(a: Bytes, m: SetRegistrationPolicy, t: BaseDenomTrace, tag: byte)
    requires Decode(POLICY, a, 0, EMPTY_POLICY) == Ok(m) && tag in {0x2a, 0x32}
    requires |a + Tagged(tag, TraceBytes(t))| < TWO_63
    ensures Decode(POLICY, a + Tagged(tag, TraceBytes(t)), 0, EMPTY_POLICY) == Ok(
      if tag == 0x2a then m.(addTraces := m.addTraces + [t]) else m.(removeTraces := m.removeTraces + [t]))
  {
    hide Decode, TraceBytes, HopBytes;
    assert |TraceBytes(t)| < |Tagged(tag, TraceBytes(t))|;
    hide Tagged;
    TraceRoundTrip(t);
    hide TRACE, EMPTY_TRACE;
    FieldBehind(POLICY, a, (tag - 2) / 8, tag, TraceBytes(t), EMPTY_POLICY, m);
  }

  // ----- sizes -----

  method SizeHop(h: SourceHop) returns (n: nat)
    ensures n == |HopBytes(h)|
  {
    hide BytesOf, Sov;
    BytesOfConcat(Optional(1, h.portId), Optional(2, h.channelId));
    OptionalSize(1, h.portId);
    OptionalSize(2, h.channelId);
    n := 0;
    n := n + StringTerm(|h.portId|);
    n := n + StringTerm(|h.channelId|);
  }

  method SizeTrace(t: BaseDenomTrace) returns (n: nat)
    ensures n == |TraceBytes(t)|
  {
    hide BytesOf, Sov, HopBytes;
    ghost var all := AllHopBytes(t.trace);
    BytesOfConcat(Optional(1, t.baseDenom), Repeated(2, all));
    OptionalSize(1, t.baseDenom);
    n := 0;
    n := n + StringTerm(|t.baseDenom|);
    for k := 0 to |t.trace|
      invariant n + |BytesOf(Repeated(2, all[k..]))| == |TraceBytes(t)|
    {
      var l := SizeHop(t.trace[k]);
      RepeatedStep(2, all, k);
      PayloadSize(2, all[k]);
      n := n + 1 + l + Sov(l);
    }
    NoRecords(2, all);
  }

  method SizeTraces(ts: seq<BaseDenomTrace>, ghost num: nat) returns (n: nat)
    requires num < 15
    ensures n == |BytesOf(Repeated(num, AllTraceBytes(ts)))|
  {
    hide BytesOf, Sov, TraceBytes;
    ghost var all := AllTraceBytes(ts);
    n := 0;
    assert all[0..] == all;
    for k := 0 to |ts|
      invariant n + |BytesOf(Repeated(num, all[k..]))| == |BytesOf(Repeated(num, all))|
    {
      var l := SizeTrace(ts[k]);
      RepeatedStep(num, all, k);
      PayloadSize(num, all[k]);
      n := n + 1 + l + Sov(l);
    }
    NoRecords(num, all);
  }

  method SizePolicy(m: SetRegistrationPolicy) returns (n: nat)
    ensures n == |PolicyBytes(m)|
  {
    PolicySections(m);
    hide BytesOf, Sov, TraceBytes, PolicyBytes;
    OptionalSize(1, m.authority);
    OptionalSize(2, m.mode);
    n := 0;
    n := n + StringTerm(|m.authority|);
    n := n + StringTerm(|m.mode|);
    var c := SizeRepeated(m.addDenoms, 3);
    var d := SizeRepeated(m.removeDenoms, 4);
    var e := SizeTraces(m.addTraces, 5);
    var f := SizeTraces(m.removeTraces, 6);
    n := n + c + d + e + f;
  }

  // ----- writing -----

  /** `MarshalToSizedBuffer`: fills the buffer up to `hi` and returns how many bytes it wrote. */
  method MarshalHop(h: SourceHop, buf: array<byte>, hi: nat) returns (n: nat)
    requires |HopBytes(h)| <= hi <= buf.Length
    modifies buf
    ensures n == |HopBytes(h)| && Wrote(old(buf[..]), buf[..], hi - n, hi, HopBytes(h))
  {
    ghost var port, channel := Optional(1, h.portId), Optional(2, h.channelId);
    BytesOfConcat(port, channel);
    hide BytesOf, Optional;
    ghost var before := buf[..];
    var i := PutOptional(buf, hi, h.channelId, 0x12, 2);
    ghost var mid, split := buf[..], i;
    i := PutOptional(buf, i, h.portId, 0x0a, 1);
    WroteBefore(before, mid, buf[..], i, split, hi, BytesOf(port), BytesOf(channel));
    n := hi - i;
  }

  method MarshalTrace(t: BaseDenomTrace, buf: array<byte>, hi: nat) returns (n: nat)
    requires |TraceBytes(t)| <= hi <= buf.Length
    modifies buf
    ensures n == |TraceBytes(t)| && Wrote(old(buf[..]), buf[..], hi - n, hi, TraceBytes(t))
  {
    ghost var base, all := Optional(1, t.baseDenom), AllHopBytes(t.trace);
    BytesOfConcat(base, Repeated(2, all));
    hide BytesOf, Optional, HopBytes, Bytes1, Repeated;
    ghost var before := buf[..];
    var i := PutHops(buf, hi, t.trace);
    ghost var mid, split := buf[..], i;
    i := PutOptional(buf, i, t.baseDenom, 0x0a, 1);
    WroteBefore(before, mid, buf[..], i, split, hi, BytesOf(base), BytesOf(Repeated(2, all)));
    n := hi - i;
  }

  method PutHops(buf: array<byte>, hi: nat, hops: seq<SourceHop>) returns (i: nat)
    requires |BytesOf(Repeated(2, AllHopBytes(hops)))| <= hi <= buf.Length
    modifies buf
    ensures Wrote(old(buf[..]), buf[..], i, hi, BytesOf(Repeated(2, AllHopBytes(hops))))
  {
    ghost var all := AllHopBytes(hops);
    NoRecords(2, all);
    WroteNothing(buf[..], hi);
    hide BytesOf, HopBytes, Repeated, Bytes1;
    ghost var before := buf[..];
    i := hi;
    var k := |hops|;
    while k > 0
      invariant 0 <= k <= |hops|
      invariant Wrote(before, buf[..], i, hi, BytesOf(Repeated(2, all[k..])))
    {
      k := k - 1;
      ghost var mid, split := buf[..], i;
      RepeatedFits(2, all, k);
      RepeatedStep(2, all, k);
      RoomForPayload(2, all[k]);
      var size := MarshalHop(hops[k], buf, i);
      i := PutNested(buf, i - size, i, 0x12, 2, all[k], mid);
      WroteBefore(before, mid, buf[..], i, split, hi, Bytes1(Payload(2, all[k])), BytesOf(Repeated(2, all[k + 1..])));
    }
    assert all[0..] == all;
  }

  method PutTraces(buf: array<byte>, hi: nat, ts: seq<BaseDenomTrace>, tag: byte, ghost num: nat) returns (i: nat)
    requires tag == num * 8 + 2 < 128
    requires |BytesOf(Repeated(num, AllTraceBytes(ts)))| <= hi <= buf.Length
    modifies buf
    ensures Wrote(old(buf[..]), buf[..], i, hi, BytesOf(Repeated(num, AllTraceBytes(ts))))
  {
    ghost var all := AllTraceBytes(ts);
    NoRecords(num, all);
    WroteNothing(buf[..], hi);
    hide BytesOf, TraceBytes, Repeated, Bytes1;
    ghost var before := buf[..];
    i := hi;
    var k := |ts|;
    while k > 0
      invariant 0 <= k <= |ts|
      invariant Wrote(before, buf[..], i, hi, BytesOf(Repeated(num, all[k..])))
    {
      k := k - 1;
      ghost var mid, split := buf[..], i;
      RepeatedFits(num, all, k);
      RepeatedStep(num, all, k);
      RoomForPayload(num, all[k]);
      var size := MarshalTrace(ts[k], buf, i);
      i := PutNested(buf, i - size, i, tag, num, all[k], mid);
      WroteBefore(before, mid, buf[..], i, split, hi, Bytes1(Payload(num, all[k])),
        BytesOf(Repeated(num, all[k + 1..])));
    }
    assert all[0..] == all;
  }

  /** Writes a whole message; the cursor ends exactly `Size` bytes before `hi`. */
  method MarshalPolicy(m: SetRegistrationPolicy, buf: array<byte>, hi: nat) returns (n: nat)
    requires |PolicyBytes(m)| <= hi <= buf.Length
    modifies buf
    ensures n == |PolicyBytes(m)| && Wrote(old(buf[..]), buf[..], hi - n, hi, PolicyBytes(m))
  {
    PolicySections(m);
    hide BytesOf, TraceBytes, Repeated, Optional, PolicyBytes;
    ghost var a, b := BytesOf(Optional(1, m.authority)), BytesOf(Optional(2, m.mode));
    ghost var c, d := BytesOf(Repeated(3, m.addDenoms)), BytesOf(Repeated(4, m.removeDenoms));
    ghost var e, f := BytesOf(Repeated(5, AllTraceBytes(m.addTraces))),
      BytesOf(Repeated(6, AllTraceBytes(m.removeTraces)));
    ghost var before := buf[..];
    var i := PutTraces(buf, hi, m.removeTraces, 0x32, 6);
    ghost var mid, split := buf[..], i;
    i := PutTraces(buf, i, m.addTraces, 0x2a, 5);
    WroteBefore(before, mid, buf[..], i, split, hi, e, f);
    mid, split := buf[..], i;
    i := PutRepeated(buf, i, m.removeDenoms, 0x22, 4);
    WroteBefore(before, mid, buf[..], i, split, hi, d, e + f);
    mid, split := buf[..], i;
    i := PutRepeated(buf, i, m.addDenoms, 0x1a, 3);
    WroteBefore(before, mid, buf[..], i, split, hi, c, d + (e + f));
    mid, split := buf[..], i;
    i := PutOptional(buf, i, m.mode, 0x12, 2);
    WroteBefore(before, mid, buf[..], i, split, hi, b, c + (d + (e + f)));
    mid, split := buf[..], i;
    i := PutOptional(buf, i, m.authority, 0x0a, 1);
    WroteBefore(before, mid, buf[..], i, split, hi, a, b + (c + (d + (e + f))));
    n := hi - i;
  }

  /** `Marshal`: a buffer of exactly the computed size, filled down to its first byte. */
  method Marshal(m: SetRegistrationPolicy) returns (data: Bytes)
    ensures data == PolicyBytes(m)
  {
    hide PolicyBytes;
    var size := SizePolicy(m);
    var buf := new byte[size](_ => 0);
    var n := MarshalPolicy(m, buf, size);
    assert buf[..] == buf[0..size];
    data := buf[..n];
  }

  // ----- reading -----

  method UnmarshalHop(data: Bytes) returns (r: Result<SourceHop, Error>)
    requires |data| < TWO_63
    ensures r == Decode(HOP, data, 0, EMPTY_HOP)
  {
    hide Next;
    var m := EMPTY_HOP;
    var at := 0;
    assert data[0..] == data;
    while at < |data|
      invariant 0 <= at <= |data|
      invariant Decode(HOP, data[at..], at, m) == Decode(HOP, data, 0, EMPTY_HOP)
    {
      var rec := ReadNext(HOP.schema, data, at);
      if rec.Err? { return Err(rec.error); }
      assert data[at..][rec.value.1 - at..] == data[rec.value.1..];
      if rec.value.0.Payload? {
        var field := rec.value.0;
        match field.num {
          case 1 => m := m.(portId := field.bytes);
          case 2 => m := m.(channelId := field.bytes);
          case _ =>
        }
      }
      at := rec.value.1;
    }
    return Ok(m);
  }

  method UnmarshalTrace(data: Bytes) returns (r: Result<BaseDenomTrace, Error>)
    requires |data| < TWO_63
    ensures r == Decode(TRACE, data, 0, EMPTY_TRACE)
  {
    hide Next;
    var m := EMPTY_TRACE;
    var at := 0;
    assert data[0..] == data;
    while at < |data|
      invariant 0 <= at <= |data|
      invariant Decode(TRACE, data[at..], at, m) == Decode(TRACE, data, 0, EMPTY_TRACE)
    {
      var rec := ReadNext(TRACE.schema, data, at);
      if rec.Err? { return Err(rec.error); }
      assert data[at..][rec.value.1 - at..] == data[rec.value.1..];
      if rec.value.0.Payload? {
        var field := rec.value.0;
        match field.num {
          case 1 => m := m.(baseDenom := field.bytes);
          case 2 =>
            var hop := UnmarshalHop(field.bytes);
            if hop.Err? { return Err(hop.error); }
            m := m.(trace := m.trace + [hop.value]);
          case _ =>
        }
      }
      at := rec.value.1;
    }
    return Ok(m);
  }

  method Unmarshal(data: Bytes) returns (r: Result<SetRegistrationPolicy, Error>)
    requires |data| < TWO_63
    ensures r == Decode(POLICY, data, 0, EMPTY_POLICY)
  {
    hide Next;
    var m := EMPTY_POLICY;
    var at := 0;
    assert data[0..] == data;
    while at < |data|
      invariant 0 <= at <= |data|
      invariant Decode(POLICY, data[at..], at, m) == Decode(POLICY, data, 0, EMPTY_POLICY)
    {
      var rec := ReadNext(POLICY.schema, data, at);
      if rec.Err? { return Err(rec.error); }
      assert data[at..][rec.value.1 - at..] == data[rec.value.1..];
      if rec.value.0.Payload? {
        var field := rec.value.0;
        match field.num {
          case 1 => m := m.(authority := field.bytes);
          case 2 => m := m.(mode := field.bytes);
          case 3 => m := m.(addDenoms := m.addDenoms + [field.bytes]);
          case 4 => m := m.(removeDenoms := m.removeDenoms + [field.bytes]);
          case 5 =>
            var t := UnmarshalTrace(field.bytes);
            if t.Err? { return Err(t.error); }
            m := m.(addTraces := m.addTraces + [t.value]);
          case 6 =>
            var t := UnmarshalTrace(field.bytes);
            if t.Err? { return Err(t.error); }
            m := m.(removeTraces := m.removeTraces + [t.value]);
          case _ =>
        }
      }
      at := rec.value.1;
    }
    return Ok(m);
  }
}
