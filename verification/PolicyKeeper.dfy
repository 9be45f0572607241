/**
 The keeper wrapper that applies the registration policy: the store it writes, the governance handler, and
 the decision about a received packet. Iterators over the store are given as the keys they deliver.
 */
module PolicyKeeper {
  import opened Bytes
  import opened PolicyCodec
  import opened TraceKeys
  import opened Lex
  import opened RegistrationPolicy

  /** The keys an iterator over a prefixed store delivers: those of a range, in order, without the prefix. */
  ghost predicate Iterates(kv: Store, pfx: Bytes, start: Bytes, end: Option<Bytes>, keys: seq<Bytes>)
  {
    && (forall i, j :: 0 <= i < j < |keys| ==> Less(keys[i], keys[j]))
    && (forall k :: k in keys <==> pfx + k in kv && InRange(k, start, end))
  }

  function DeleteKeys(kv: Store, keys: seq<Bytes>): Store
  {
    if keys == [] then kv else DeleteKeys(kv, keys[..|keys| - 1]) - {TRACE_PFX + keys[|keys| - 1]}
  }

  lemma {:induction false} KeysDeleted(kv: Store, keys: seq<Bytes>, k: Bytes)
    ensures k in DeleteKeys(kv, keys) <==> k in kv && forall d :: d in keys ==> TRACE_PFX + d != k
    ensures k in DeleteKeys(kv, keys) ==> DeleteKeys(kv, keys)[k] == kv[k]
  {
    hide Ascii;
    if keys != [] {
      KeysDeleted(kv, keys[..|keys| - 1], k);
      assert forall d :: d in keys <==> d in keys[..|keys| - 1] || d == keys[|keys| - 1];
    }
  }

  /** Deleting what the iterator over the range of a base delivers is `WithoutBase`. */
  lemma RangeDeleted(kv: Store, base: Bytes, keys: seq<Bytes>)
    requires Iterates(kv, TRACE_PFX, base + [NUL], PrefixEnd(base + [NUL]), keys)
    ensures DeleteKeys(kv, keys) == WithoutBase(kv, base)
  {
    hide Ascii, InRange, PrefixEnd;
    forall k ensures k in DeleteKeys(kv, keys) <==> k in WithoutBase(kv, base)
      ensures k in DeleteKeys(kv, keys) ==> DeleteKeys(kv, keys)[k] == kv[k]
    {
      KeysDeleted(kv, keys, k);
      if TRACE_PFX <= k {
        assert k == TRACE_PFX + k[|TRACE_PFX|..];
        forall d | TRACE_PFX + d == k ensures d == k[|TRACE_PFX|..] {
          assert (TRACE_PFX + d)[|TRACE_PFX|..] == d;
        }
      } else {
        forall d ensures TRACE_PFX + d != k { assert TRACE_PFX <= TRACE_PFX + d; }
      }
    }
  }

  lemma WholeRange(k: Bytes)
    ensures InRange(k, [], None)
  {
  }

  /** What a listing makes of the keys: keys that cannot be read are skipped. */
  function Listing(keys: seq<Bytes>): seq<BaseDenomTrace>
  {
    if keys == [] then []
    else
      var e := ReadEntry(keys[|keys| - 1]);
      Listing(keys[..|keys| - 1]) + if e.Some? then [e.value] else []
  }

  lemma {:induction false} ListingHolds(keys: seq<Bytes>, e: BaseDenomTrace)
    ensures e in Listing(keys) <==> exists k :: k in keys && ReadEntry(k) == Some(e)
  {
    hide ReadEntry;
    if keys != [] {
      ListingHolds(keys[..|keys| - 1], e);
      assert forall k :: k in keys <==> k in keys[..|keys| - 1] || k == keys[|keys| - 1];
    }
  }

  /** Readable keys that differ are listed as entries that differ. */
  lemma {:induction false} ListingDistinct(keys: seq<Bytes>)
    requires Distinct(keys) && forall k :: k in keys ==> Readable(k)
    ensures Distinct(Listing(keys))
  {
    hide ReadEntry, EntryKey;
    if keys != [] {
      var before, last := keys[..|keys| - 1], keys[|keys| - 1];
      ListingDistinct(before);
      assert Readable(last);
      var e := ReadEntry(last).value;
      ListingHolds(before, e);
      forall k | k in before ensures ReadEntry(k) != Some(e) {
        assert k in keys && Readable(k) && k != last;
      }
    }
  }

  /** In every store the listing shows the entries of the store, and in a well-kept one each of them once. */
  lemma EntriesListed(kv: Store, keys: seq<Bytes>)
    requires Iterates(kv, TRACE_PFX, [], None, keys)
    ensures Elements(Listing(keys)) == Entries(kv)
    ensures WellKept(kv) ==> Distinct(Listing(keys))
  {
    hide EntryKey, ReadEntry, InRange, Less, Entries, WellKept, Ascii, Readable, Listing;
    forall k ensures k in keys <==> TRACE_PFX + k in kv { WholeRange(k); }
    forall e ensures e in Listing(keys) <==> e in Entries(kv) {
      ListingHolds(keys, e);
      ListedByKey(kv, e);
      if k :| ListedAs(kv, k, e) { assert k in keys; }
      if k :| k in keys && ReadEntry(k) == Some(e) { assert ListedAs(kv, k, e); }
    }
    if WellKept(kv) {
      WellKeptByKey(kv);
      forall i, j | 0 <= i < j < |keys| ensures keys[i] != keys[j] {
        LessIrreflexive(keys[i]);
        assert Less(keys[i], keys[j]);
      }
      ListingDistinct(keys);
    }
  }

  ghost predicate FirstInvalidDenom(denoms: seq<Bytes>, n: nat)
  {
    n < |denoms| && !ValidDenom(denoms[n]) && forall d :: d in denoms[..n] ==> ValidDenom(d)
  }

  ghost predicate FirstInvalidEntry(es: seq<BaseDenomTrace>, n: nat)
  {
    n < |es| && !ValidEntry(es[n]) && forall e :: e in es[..n] ==> ValidEntry(e)
  }

  /** What the handler has written when it refuses a message: everything up to the first invalid addition. */
  ghost predicate Partly(before: Store, msg: SetRegistrationPolicy, err: PolicyError, after: Store)
  {
    var named := WithMode(before, msg.mode);
    match err
    case InvalidDenom => exists n: nat ::
      FirstInvalidDenom(msg.addDenoms, n) && after == AddDenoms(named, msg.addDenoms[..n])
    case InvalidEntry => exists n: nat ::
      && FirstInvalidEntry(msg.addTraces, n)
      && after == AddEntries(RemoveDenoms(AddDenoms(named, msg.addDenoms), msg.removeDenoms), msg.addTraces[..n])
    case _ => after == before
  }

  class Wrapper {
    var kv: Store

    constructor (kv: Store)
      ensures this.kv == kv
    {
      this.kv := kv;
    }

    /** `baseDenomTraceStoreKey`. */
    method EntryStoreKey(e: BaseDenomTrace) returns (key: Bytes)
      ensures key == EntryKey(e)
    {
      var traceKey := EncodeTraceKey(e.trace);
      key := e.baseDenom;
      key := key + [NUL];
      key := key + traceKey;
    }

    method SetMode(mode: Bytes)
      modifies this
      ensures kv == old(kv)[MODE_KEY := mode]
    {
      kv := kv[MODE_KEY := mode];
    }

    method SetEntry(e: BaseDenomTrace)
      modifies this
      ensures kv == old(kv)[StoreKey(e) := PRESENT]
    {
      var key := EntryStoreKey(e);
      kv := kv[TRACE_PFX + key := PRESENT];
    }

    method RemoveEntry(e: BaseDenomTrace)
      modifies this
      ensures kv == old(kv) - {StoreKey(e)}
    {
      var key := EntryStoreKey(e);
      kv := kv - {TRACE_PFX + key};
    }

    /** Adds denominations up to the first one that is not valid. */
    method AddDenomLoop(denoms: seq<Bytes>) returns (err: Option<PolicyError>)
      modifies this
      ensures err.None? <==> forall d :: d in denoms ==> ValidDenom(d)
      ensures err.None? ==> kv == AddDenoms(old(kv), denoms)
      ensures err.Some? ==> err == Some(InvalidDenom)
      ensures err.Some? ==> exists n: nat :: FirstInvalidDenom(denoms, n) && kv == AddDenoms(old(kv), denoms[..n])
    {
      hide DenomKey;
      for i := 0 to |denoms|
        invariant kv == AddDenoms(old(kv), denoms[..i])
        invariant forall d :: d in denoms[..i] ==> ValidDenom(d)
      {
        assert denoms[..i + 1][..i] == denoms[..i] && denoms[i] in denoms;
        if |denoms[i]| == 0 || |denoms[i]| > 128 {
          assert FirstInvalidDenom(denoms, i);
          return Some(InvalidDenom);
        }
        kv := kv[DenomKey(denoms[i]) := PRESENT];
      }
      assert denoms[..|denoms|] == denoms;
      return None;
    }

    method RemoveDenomLoop(denoms: seq<Bytes>)
      modifies this
      ensures kv == RemoveDenoms(old(kv), denoms)
    {
      hide DenomKey;
      for i := 0 to |denoms|
        invariant kv == RemoveDenoms(old(kv), denoms[..i])
      {
        assert denoms[..i + 1][..i] == denoms[..i];
        kv := kv - {DenomKey(denoms[i])};
      }
      assert denoms[..|denoms|] == denoms;
    }

    /** `validateBaseDenomTrace`. */
    static method CheckEntry(e: BaseDenomTrace) returns (ok: bool)
      ensures ok <==> ValidEntry(e)
    {
      hide ValidHop;
      if |e.baseDenom| == 0 || |e.baseDenom| > 64 { return false; }
      for i := 0 to |e.trace|
        invariant forall h :: h in e.trace[..i] ==> ValidHop(h)
      {
        if !ValidHop(e.trace[i]) { return false; }
      }
      assert e.trace[..|e.trace|] == e.trace;
      return true;
    }

    /** Adds entries up to the first one that is not valid. */
    method AddEntryLoop(es: seq<BaseDenomTrace>) returns (err: Option<PolicyError>)
      modifies this
      ensures err.None? <==> forall e :: e in es ==> ValidEntry(e)
      ensures err.None? ==> kv == AddEntries(old(kv), es)
      ensures err.Some? ==> err == Some(InvalidEntry)
      ensures err.Some? ==> exists n: nat :: FirstInvalidEntry(es, n) && kv == AddEntries(old(kv), es[..n])
    {
      hide StoreKey, ValidEntry;
      for i := 0 to |es|
        invariant kv == AddEntries(old(kv), es[..i])
        invariant forall e :: e in es[..i] ==> ValidEntry(e)
      {
        assert es[..i + 1][..i] == es[..i] && es[i] in es;
        var ok := CheckEntry(es[i]);
        if !ok {
          assert FirstInvalidEntry(es, i);
          return Some(InvalidEntry);
        }
        SetEntry(es[i]);
      }
      assert es[..|es|] == es;
      return None;
    }

    method RemoveEntryLoop(es: seq<BaseDenomTrace>)
      modifies this
      ensures kv == RemoveEntries(old(kv), es)
    {
      hide StoreKey;
      for i := 0 to |es|
        invariant kv == RemoveEntries(old(kv), es[..i])
      {
        assert es[..i + 1][..i] == es[..i];
        RemoveEntry(es[i]);
      }
      assert es[..|es|] == es;
    }

    /** The handler of the governance message. After an error it has written a part of the message. */
    method Handle(c: Chain, msg: SetRegistrationPolicy) returns (err: Option<PolicyError>)
      modifies this
      ensures SetPolicy(c, old(kv), msg).Ok? ==> err.None? && kv == SetPolicy(c, old(kv), msg).value
      ensures SetPolicy(c, old(kv), msg).Err? ==> err == Some(SetPolicy(c, old(kv), msg).error)
      ensures err.Some? ==> Partly(old(kv), msg, err.value, kv)
    {
      if msg.authority == [] { return Some(EmptyAuthority); }
      var authority := c.bech32(msg.authority);
      if authority.None? { return Some(InvalidAuthority); }
      if authority.value != c.authority { return Some(Unauthorized); }
      hide ValidDenom, ValidEntry, ValidMode, AddDenoms, RemoveDenoms, AddEntries, RemoveEntries, Ascii;
      if msg.mode != [] {
        if !ValidMode(msg.mode) { return Some(InvalidMode); }
        SetMode(msg.mode);
      }
      assert kv == WithMode(old(kv), msg.mode);
      err := AddDenomLoop(msg.addDenoms);
      if err.Some? { return err; }
      RemoveDenomLoop(msg.removeDenoms);
      err := AddEntryLoop(msg.addTraces);
      if err.Some? { return err; }
      RemoveEntryLoop(msg.removeTraces);
    }

    /** A message in a transaction: what a failing handler wrote is discarded. */
    method Deliver(c: Chain, msg: SetRegistrationPolicy) returns (err: Option<PolicyError>)
      modifies this
      ensures err.None? <==> Acceptable(c, msg)
      ensures kv == if err.None? then SetPolicy(c, old(kv), msg).value else old(kv)
      ensures err.Some? ==> SetPolicy(c, old(kv), msg) == Err(err.value)
    {
      SetPolicyAccepts(c, kv, msg);
      hide SetPolicy, Acceptable;
      var snapshot := kv;
      err := Handle(c, msg);
      if err.Some? { kv := snapshot; }
    }

    /** `removeAllBaseDenomTraces`: collects the keys of the range, then deletes them. */
    method RemoveAllTraces(base: Bytes, delivered: seq<Bytes>)
      requires Iterates(kv, TRACE_PFX, base + [NUL], PrefixEnd(base + [NUL]), delivered)
      modifies this
      ensures kv == WithoutBase(old(kv), base)
    {
      hide Iterates, Ascii;
      var keys: seq<Bytes> := [];
      for i := 0 to |delivered|
        invariant keys == delivered[..i]
      {
        keys := keys + [delivered[i]];
      }
      assert keys == delivered;
      for i := 0 to |keys|
        invariant kv == DeleteKeys(old(kv), keys[..i])
      {
        assert keys[..i + 1][..i] == keys[..i];
        kv := kv - {TRACE_PFX + keys[i]};
      }
      assert keys[..|keys|] == keys;
      RangeDeleted(old(kv), base, keys);
    }

    /** `getAllowedBaseDenomTraces`: lists the entries of the store, in a well-kept one each once. */
    method ListEntries(delivered: seq<Bytes>) returns (list: seq<BaseDenomTrace>)
      requires Iterates(kv, TRACE_PFX, [], None, delivered)
      ensures Elements(list) == Entries(kv)
      ensures WellKept(kv) ==> Distinct(list)
    {
      hide Iterates, WellKept, Entries, Ascii, IndexByte, ReadTrace;
      list := [];
      for i := 0 to |delivered|
        invariant list == Listing(delivered[..i])
      {
        var key := delivered[i];
        assert delivered[..i + 1][..i] == delivered[..i];
        var idx := IndexByte(key, NUL);
        if idx < 0 { continue; }
        var hops := DecodeTraceKey(key[idx + 1..]);
        list := list + [BaseDenomTrace(key[..idx], hops)];
      }
      assert delivered[..|delivered|] == delivered;
      EntriesListed(kv, delivered);
    }

    /** `getAllowedDenoms`: lists every allowed denomination once. */
    method ListDenoms(delivered: seq<Bytes>) returns (list: seq<Bytes>)
      requires Iterates(kv, ALLOW_PFX, [], None, delivered)
      ensures Elements(list) == Denoms(kv) && Distinct(list)
    {
      list := [];
      for i := 0 to |delivered|
        invariant list == delivered[..i]
      {
        list := list + [delivered[i]];
      }
      assert list == delivered;
      DenomsListed(kv, list);
    }

    /** `buildFullTrace`. */
    static method BuildFullTrace(p: Packet, incoming: seq<SourceHop>) returns (hops: seq<SourceHop>)
      ensures hops == FullTrace(p, incoming)
      ensures |hops| == 1 + |incoming| && hops[0] == SourceHop(p.destPort, p.destChannel)
      ensures forall i :: 0 <= i < |incoming| ==> hops[i + 1] == incoming[i]
    {
      hops := [SourceHop(p.destPort, p.destChannel)];
      for i := 0 to |incoming|
        invariant hops == FullTrace(p, incoming[..i])
      {
        hops := hops + [SourceHop(incoming[i].portId, incoming[i].channelId)];
      }
      assert incoming[..|incoming|] == incoming;
    }

    /** `OnRecvPacket`: whether the packet is handed on to the keeper that registers tokens. */
    method OnRecvPacket(registered: set<Bytes>, p: Packet) returns (delegate: bool)
      ensures delegate == Delegates(kv, registered, p)
      ensures !Unregistered(registered, p) ==> delegate
      ensures ValidMode(Mode(kv)) && Unregistered(registered, p) && !Misjudged(kv, p, p.token.value) ==>
        (delegate <==> Allows(Abs(kv), p, p.token.value))
    {
      delegate := Decide(registered, p);
      hide Delegates, Misjudged, Allows, Abs, ValidMode, Mode, Unregistered, Ascii;
      if !Unregistered(registered, p) {
        OthersPass(kv, registered, p);
      } else if ValidMode(Mode(kv)) {
        DelegatesExactly(kv, registered, p);
      }
    }

    method Decide(registered: set<Bytes>, p: Packet) returns (delegate: bool)
      ensures delegate == Delegates(kv, registered, p)
    {
      hide Ascii, EntryKey;
      var mode := if MODE_KEY in kv then kv[MODE_KEY] else ALLOWLIST;
      if mode == ALL { return true; }
      if p.token.None? { return true; }
      var t := p.token.value;
      if !(IBC_PFX <= t.denom) { return true; }
      if t.denom in registered { return true; }
      if mode == NONE { return false; }
      if mode != ALLOWLIST { return true; }
      if ALLOW_PFX + t.denom in kv { return true; }
      var full := BuildFullTrace(p, t.trace);
      if |full| == 0 { return false; }
      var key := EntryStoreKey(BaseDenomTrace(t.base, full));
      return TRACE_PFX + key in kv;
    }

    /** `initERC20PolicyDefaults`: nothing happens when a mode is stored. */
    method InitDefaults()
      modifies this
      ensures kv == Seeded(old(kv))
    {
      if MODE_KEY in kv { return; }
      SetMode(ALLOWLIST);
      ghost var kv1 := kv;
      hide StoreKey, Ascii;
      for i := 0 to |DEFAULTS|
        invariant kv == AddEntries(kv1, DEFAULTS[..i])
      {
        assert DEFAULTS[..i + 1][..i] == DEFAULTS[..i];
        SetEntry(DEFAULTS[i]);
      }
      assert DEFAULTS[..|DEFAULTS|] == DEFAULTS;
    }

    /** The seeding of the v1.20.0 upgrade, which writes the keys itself, leaves the same store. */
    method SeedAtUpgrade()
      modifies this
      ensures kv == Seeded(old(kv))
    {
      if MODE_KEY in kv { return; }
      kv := kv[MODE_KEY := ALLOWLIST];
      ghost var kv1 := kv;
      hide Ascii;
      for i := 0 to |DEFAULTS|
        invariant kv == AddEntries(kv1, DEFAULTS[..i])
      {
        assert DEFAULTS[..i + 1][..i] == DEFAULTS[..i];
        var entry := DEFAULTS[i];
        var traceKey := EncodeTraceKey(entry.trace);
        var key := entry.baseDenom + [NUL];
        key := key + traceKey;
        assert key == EntryKey(entry);
        kv := kv[TRACE_PFX + key := PRESENT];
      }
      assert DEFAULTS[..|DEFAULTS|] == DEFAULTS;
    }
  }

  lemma DenomsListed(kv: Store, keys: seq<Bytes>)
    requires Iterates(kv, ALLOW_PFX, [], None, keys)
    ensures Elements(keys) == Denoms(kv) && Distinct(keys)
  {
    hide InRange, Ascii, Less, Denoms;
    forall d ensures d in keys <==> d in Denoms(kv) {
      DenomIn(kv, d);
      WholeRange(d);
    }
    forall i, j | 0 <= i < j < |keys| ensures keys[i] != keys[j] {
      LessIrreflexive(keys[i]);
      assert Less(keys[i], keys[j]);
    }
  }
}

/** Runs of the policy: governance messages and received packets, in any order. */
module PolicyRuns {
  import opened Bytes
  import opened PolicyCodec
  import opened TraceKeys
  import opened RegistrationPolicy

  datatype State = State(kv: Store, registered: set<Bytes>)

  /** The keeper behind the wrapper registers at most the voucher of a packet it was handed. */
  datatype Step = Govern(msg: SetRegistrationPolicy) | Receive(packet: Packet, registers: bool)

  function Apply(c: Chain, s: State, step: Step): State
  {
    match step
    case Govern(msg) =>
      var r := SetPolicy(c, s.kv, msg);
      if r.Ok? then s.(kv := r.value) else s
    case Receive(p, registers) =>
      if Delegates(s.kv, s.registered, p) && registers && p.token.Some? then
        s.(registered := s.registered + {p.token.value.denom})
      else
        s
  }

  function Run(c: Chain, s: State, steps: seq<Step>): State
  {
    if steps == [] then s else Apply(c, Run(c, s, steps[..|steps| - 1]), steps[|steps| - 1])
  }

  /** Every message leaves a valid mode. */
  lemma ModeStep(c: Chain, s: State, step: Step)
    requires ValidMode(Mode(s.kv))
    ensures ValidMode(Mode(Apply(c, s, step).kv))
  {
    hide Updated, ValidMode, Mode;
    if step.Govern? { UpdatedMode(s.kv, step.msg); }
  }

  lemma {:induction false} ModeRun(c: Chain, s: State, steps: seq<Step>)
    requires ValidMode(Mode(s.kv))
    ensures ValidMode(Mode(Run(c, s, steps).kv))
  {
    hide Apply, ValidMode, Mode;
    if steps != [] {
      ModeRun(c, s, steps[..|steps| - 1]);
      ModeStep(c, Run(c, s, steps[..|steps| - 1]), steps[|steps| - 1]);
    }
  }

  /** The step is a message from the governance account. */
  predicate ByAuthority(c: Chain, step: Step)
  {
    step.Govern? && step.msg.authority != [] && c.bech32(step.msg.authority) == Some(c.authority)
  }

  /** Over every run, nothing but an acceptable message from the governance account changes the store. */
  lemma {:induction false} ChangedByAuthority(c: Chain, s: State, steps: seq<Step>)
    requires Run(c, s, steps).kv != s.kv
    ensures exists n :: 0 <= n < |steps| && ByAuthority(c, steps[n]) && Acceptable(c, steps[n].msg)
  {
    hide SetPolicy, Delegates, Acceptable;
    var before, last := steps[..|steps| - 1], steps[|steps| - 1];
    if Run(c, s, before).kv != s.kv {
      ChangedByAuthority(c, s, before);
      var n :| 0 <= n < |before| && ByAuthority(c, before[n]) && Acceptable(c, before[n].msg);
      assert steps[n] == before[n];
    } else {
      SetPolicyAccepts(c, s.kv, last.msg);
      AcceptableByAuthority(c, last);
      assert ByAuthority(c, steps[|steps| - 1]);
    }
  }

  lemma AcceptableByAuthority(c: Chain, step: Step)
    requires step.Govern? && Acceptable(c, step.msg)
    ensures ByAuthority(c, step)
  {
  }

  /** Step `n` of a run receives a packet with the voucher, and the policy listed at that moment allows it. */
  ghost predicate AllowedAt(c: Chain, s: State, steps: seq<Step>, n: nat, denom: Bytes)
  {
    && n < |steps|
    && steps[n].Receive? && steps[n].packet.token.Some? && steps[n].packet.token.value.denom == denom
    && Allows(Abs(Run(c, s, steps[..n]).kv), steps[n].packet, steps[n].packet.token.value)
  }

  /** Step `n` receives a packet with the voucher that slips through. */
  predicate SlipsAt(c: Chain, s: State, steps: seq<Step>, n: nat, denom: Bytes)
  {
    && n < |steps|
    && steps[n].Receive? && steps[n].packet.token.Some? && steps[n].packet.token.value.denom == denom
    && Slips(Run(c, s, steps[..n]).kv, steps[n].packet, steps[n].packet.token.value)
  }

  /**
   Over every run of packets and messages, every voucher that is registered came with a packet that the policy
   listed at that moment allows, by its name or by its own base and trace, or that slips through.
   */
  lemma {:induction false} RegisteredThrough(c: Chain, s: State, steps: seq<Step>, denom: Bytes)
    requires ValidMode(Mode(s.kv))
    requires IBC_PFX <= denom && denom in Run(c, s, steps).registered && denom !in s.registered
    ensures exists n :: AllowedAt(c, s, steps, n, denom) || SlipsAt(c, s, steps, n, denom)
  {
    hide SetPolicy, Abs, Allows, Slips, ValidMode, Ascii, Mode;
    var before := steps[..|steps| - 1];
    var mid := Run(c, s, before);
    if denom in mid.registered {
      RegisteredThrough(c, s, before, denom);
      var n: nat :| AllowedAt(c, s, before, n, denom) || SlipsAt(c, s, before, n, denom);
      assert steps[..n] == before[..n];
      assert AllowedAt(c, s, steps, n, denom) || SlipsAt(c, s, steps, n, denom);
    } else {
      ModeRun(c, s, before);
      DelegatesSafely(mid.kv, mid.registered, steps[|steps| - 1].packet);
      assert AllowedAt(c, s, steps, |steps| - 1, denom) || SlipsAt(c, s, steps, |steps| - 1, denom);
    }
  }

  /** The packets of a step have no delimiters in their names. */
  predicate SeparablePacket(step: Step)
  {
    step.Receive? && step.packet.token.Some? ==> SeparableEntry(PacketEntry(step.packet, step.packet.token.value))
  }

  /** Hence, for packets without delimiters in their names, every registered voucher was allowed. */
  lemma RegisteredWasAllowed(c: Chain, s: State, steps: seq<Step>, denom: Bytes)
    requires ValidMode(Mode(s.kv)) && forall x :: x in steps ==> SeparablePacket(x)
    requires IBC_PFX <= denom && denom in Run(c, s, steps).registered && denom !in s.registered
    ensures exists n :: AllowedAt(c, s, steps, n, denom)
  {
    hide Run, ValidMode, Ascii, Mode, SeparableEntry, EntryKey;
    RegisteredThrough(c, s, steps, denom);
    assert forall i :: 0 <= i < |steps| ==> SeparablePacket(steps[i]);
    var n: nat :| AllowedAt(c, s, steps, n, denom) || SlipsAt(c, s, steps, n, denom);
    assert AllowedAt(c, s, steps, n, denom);
  }

  /** The exception is real: a run of one packet registers a voucher that the policy never allows. */
  lemma SlippedIsRegistered(c: Chain, denom: Bytes) returns (steps: seq<Step>)
    requires IBC_PFX <= denom
    ensures ValidMode(Mode(LONG_ONLY)) && denom in Run(c, State(LONG_ONLY, {}), steps).registered
    ensures forall n :: !AllowedAt(c, State(LONG_ONLY, {}), steps, n, denom)
  {
    hide LONG_ONLY, Ascii, Delegates, Allows, Abs, SetPolicy, Mode, WellKept, Entries, UATOM, HOP0, HOP1, HopKey;
    var p := HopInBase(denom, UATOM, HOP0, HOP1);
    LongOnly(denom);
    SomePacketSlips(denom);
    steps := [Receive(p, true)];
    assert steps[..0] == [];
  }

  /** What the accepted messages of a run grant: added - removed, in turn. */
  ghost function Granted(c: Chain, s: State, steps: seq<Step>): set<BaseDenomTrace>
  {
    if steps == [] then {}
    else
      var before, last := steps[..|steps| - 1], steps[|steps| - 1];
      var g := Granted(c, s, before);
      if last.Govern? && SetPolicy(c, Run(c, s, before).kv, last.msg).Ok? then
        g + Elements(last.msg.addTraces) - Elements(last.msg.removeTraces)
      else
        g
  }

  /** Over every run, a trace key that is stored was stored at its start, or is the key of an entry that is granted. */
  lemma {:induction false} KeyWasGranted(c: Chain, s: State, steps: seq<Step>, k: Bytes)
    requires TRACE_PFX + k in Run(c, s, steps).kv
    ensures TRACE_PFX + k in s.kv || exists g :: g in Granted(c, s, steps) && EntryKey(g) == k
  {
    hide Updated, ValidEntry, ValidDenom, ValidMode, Delegates, EntryKey, Ascii;
    if steps != [] {
      var before, last := steps[..|steps| - 1], steps[|steps| - 1];
      var mid := Run(c, s, before);
      if last.Govern? { UpdatedKeys(mid.kv, last.msg, [], k); }
      if TRACE_PFX + k in mid.kv {
        KeyWasGranted(c, s, before, k);
        if TRACE_PFX + k !in s.kv {
          var g :| g in Granted(c, s, before) && EntryKey(g) == k;
          assert g in Granted(c, s, steps);
        }
      } else {
        var a :| a in last.msg.addTraces && EntryKey(a) == k;
        assert a in Granted(c, s, steps);
      }
    }
  }

  /**
   Hence whatever is listed was listed at the start of the run and is still, or is what the listing shows for an
   entry that is granted; that is the entry itself exactly when it has no delimiters in its names.
   */
  lemma ListedWasGranted(c: Chain, s: State, steps: seq<Step>, e: BaseDenomTrace)
    requires e in Entries(Run(c, s, steps).kv)
    ensures
      || (exists k :: ListedAs(s.kv, k, e) && ListedAs(Run(c, s, steps).kv, k, e))
      || (exists g :: g in Granted(c, s, steps) && Shows(g, e) && (g == e <==> SeparableEntry(g)))
  {
    hide Run, Entries, EntryKey, ReadEntry, SeparableEntry, Granted, Ascii;
    ListedByKey(Run(c, s, steps).kv, e);
    var k :| ListedAs(Run(c, s, steps).kv, k, e);
    KeyWasGranted(c, s, steps, k);
    if TRACE_PFX + k in s.kv {
      assert ListedAs(s.kv, k, e);
    } else {
      var g :| g in Granted(c, s, steps) && EntryKey(g) == k;
      EntryRoundTrip(g);
      ListedIsSeparable(Run(c, s, steps).kv, e);
      assert Shows(g, e);
    }
  }

  /** On a freshly seeded chain no voucher is registered until governance speaks. */
  lemma {:induction false} SeededRegistersNothing(c: Chain, kv: Store, steps: seq<Step>, denom: Bytes)
    requires forall k :: k in kv ==> k != MODE_KEY && !(ALLOW_PFX <= k) && !(TRACE_PFX <= k)
    requires forall x :: x in steps ==> x.Receive?
    ensures Run(c, State(Seeded(kv), {}), steps).kv == Seeded(kv)
    ensures IBC_PFX <= denom ==> denom !in Run(c, State(Seeded(kv), {}), steps).registered
  {
    hide Seeded, Ascii, Delegates, SetPolicy;
    if steps != [] {
      var last := steps[|steps| - 1];
      SeededRegistersNothing(c, kv, steps[..|steps| - 1], denom);
      var mid := Run(c, State(Seeded(kv), {}), steps[..|steps| - 1]);
      if last.packet.token.Some? && last.packet.token.value.denom == denom && IBC_PFX <= denom {
        SeededAllowsNothing(kv, mid.registered, last.packet);
      }
    }
  }
}
