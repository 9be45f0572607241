/**
 The ERC20 registration policy. Abstractly it is a mode, a set of denominations and a set of base
 denominations bound to traces; in the chain it lives in a key-value store that it shares with a module.
 */
module RegistrationPolicy {
  import opened Bytes
  import opened PolicyCodec
  import opened TraceKeys
  import opened Lex

  type Store = map<Bytes, Bytes>

  const ALL: Bytes := Ascii("all")
  const ALLOWLIST: Bytes := Ascii("allowlist")
  const NONE: Bytes := Ascii("none")

  const MODE_KEY: Bytes := Ascii("lumera/erc20policy/mode")
  const ALLOW_PFX: Bytes := Ascii("lumera/erc20policy/allow/")
  const TRACE_PFX: Bytes := Ascii("lumera/erc20policy/allowbasetrace/")
  const IBC_PFX: Bytes := Ascii("ibc/")

  const PRESENT: Bytes := [1]

  const DEFAULTS: seq<BaseDenomTrace> :=
    [BaseDenomTrace(Ascii("uatom"), []), BaseDenomTrace(Ascii("uosmo"), []),
     BaseDenomTrace(Ascii("uusdc"), []), BaseDenomTrace(Ascii("inj"), [])]

  // ----- the abstract policy -----

  datatype Policy = Policy(mode: Bytes, denoms: set<Bytes>, entries: set<BaseDenomTrace>)

  function DenomKey(denom: Bytes): Bytes { ALLOW_PFX + denom }

  function StoreKey(e: BaseDenomTrace): Bytes { TRACE_PFX + EntryKey(e) }

  /** `getRegistrationMode`: the allowlist when nothing was stored. */
  function Mode(kv: Store): Bytes
  {
    if MODE_KEY in kv then kv[MODE_KEY] else ALLOWLIST
  }

  ghost function Denoms(kv: Store): set<Bytes>
  {
    set k | k in kv && ALLOW_PFX <= k :: k[|ALLOW_PFX|..]
  }

  /** What a listing of the store shows. */
  ghost function Entries(kv: Store): set<BaseDenomTrace>
  {
    set k | k in kv && TRACE_PFX <= k && ReadEntry(k[|TRACE_PFX|..]).Some? :: ReadEntry(k[|TRACE_PFX|..]).value
  }

  ghost function Abs(kv: Store): Policy
  {
    Policy(Mode(kv), Denoms(kv), Entries(kv))
  }

  /** Every stored trace key was made from an entry that can be read back. */
  ghost predicate WellKept(kv: Store)
  {
    forall k :: k in kv && TRACE_PFX <= k ==>
      exists e :: SeparableEntry(e) && k == StoreKey(e)
  }

  /** The three parts of the policy never share a key. */
  lemma KeysApart(denom: Bytes, k: Bytes)
    ensures !(TRACE_PFX <= DenomKey(denom)) && !(ALLOW_PFX <= TRACE_PFX + k)
    ensures !(TRACE_PFX <= MODE_KEY) && !(ALLOW_PFX <= MODE_KEY)
    ensures MODE_KEY != DenomKey(denom) && MODE_KEY != TRACE_PFX + k && DenomKey(denom) != TRACE_PFX + k
  {
    assert MODE_KEY[19] == 109 && ALLOW_PFX[19] == 97 && TRACE_PFX[19] == 97;
    assert ALLOW_PFX[24] == 47 && TRACE_PFX[24] == 98;
    assert DenomKey(denom)[24] == 47 && (TRACE_PFX + k)[24] == 98;
    assert DenomKey(denom)[19] == 97 && (TRACE_PFX + k)[19] == 97;
  }

  lemma DenomIn(kv: Store, denom: Bytes)
    ensures denom in Denoms(kv) <==> DenomKey(denom) in kv
  {
    assert DenomKey(denom)[|ALLOW_PFX|..] == denom;
    if denom in Denoms(kv) {
      var k :| k in kv && ALLOW_PFX <= k && k[|ALLOW_PFX|..] == denom;
      assert k == DenomKey(denom);
    }
  }

  /** In a well-kept store the listed entries are the separable ones whose key is there. */
  lemma EntryIn(kv: Store, e: BaseDenomTrace)
    requires WellKept(kv)
    ensures e in Entries(kv) <==> SeparableEntry(e) && StoreKey(e) in kv
  {
    hide EntryKey, ReadEntry, SeparableEntry;
    assert StoreKey(e)[|TRACE_PFX|..] == EntryKey(e);
    if SeparableEntry(e) && StoreKey(e) in kv {
      EntryRoundTrip(e);
      assert TRACE_PFX <= StoreKey(e);
    }
    if e in Entries(kv) {
      var k :| k in kv && TRACE_PFX <= k && ReadEntry(k[|TRACE_PFX|..]) == Some(e);
      var f :| SeparableEntry(f) && k == StoreKey(f);
      assert StoreKey(f)[|TRACE_PFX|..] == EntryKey(f);
      EntryRoundTrip(f);
    }
  }

  // ----- changes to the store -----

  function AddDenoms(kv: Store, denoms: seq<Bytes>): Store
  {
    if denoms == [] then kv else AddDenoms(kv, denoms[..|denoms| - 1])[DenomKey(denoms[|denoms| - 1]) := PRESENT]
  }

  function RemoveDenoms(kv: Store, denoms: seq<Bytes>): Store
  {
    if denoms == [] then kv else RemoveDenoms(kv, denoms[..|denoms| - 1]) - {DenomKey(denoms[|denoms| - 1])}
  }

  function AddEntries(kv: Store, es: seq<BaseDenomTrace>): Store
  {
    if es == [] then kv else AddEntries(kv, es[..|es| - 1])[StoreKey(es[|es| - 1]) := PRESENT]
  }

  function RemoveEntries(kv: Store, es: seq<BaseDenomTrace>): Store
  {
    if es == [] then kv else RemoveEntries(kv, es[..|es| - 1]) - {StoreKey(es[|es| - 1])}
  }

  lemma {:induction false} DenomsAdded(kv: Store, denoms: seq<Bytes>, k: Bytes)
    ensures k in AddDenoms(kv, denoms) <==> k in kv || exists d :: d in denoms && DenomKey(d) == k
    ensures !(ALLOW_PFX <= k) && k in kv ==> k in AddDenoms(kv, denoms) && AddDenoms(kv, denoms)[k] == kv[k]
  {
    hide Ascii;
    if denoms != [] {
      var last := denoms[|denoms| - 1];
      DenomsAdded(kv, denoms[..|denoms| - 1], k);
      assert forall d :: d in denoms <==> d in denoms[..|denoms| - 1] || d == last;
      assert ALLOW_PFX <= DenomKey(last);
    }
  }

  lemma {:induction false} DenomsRemoved(kv: Store, denoms: seq<Bytes>, k: Bytes)
    ensures k in RemoveDenoms(kv, denoms) <==> k in kv && forall d :: d in denoms ==> DenomKey(d) != k
    ensures k in RemoveDenoms(kv, denoms) ==> RemoveDenoms(kv, denoms)[k] == kv[k]
  {
    hide Ascii, DenomKey;
    if denoms != [] {
      DenomsRemoved(kv, denoms[..|denoms| - 1], k);
      assert forall d :: d in denoms <==> d in denoms[..|denoms| - 1] || d == denoms[|denoms| - 1];
    }
  }

  lemma {:induction false} EntriesAdded(kv: Store, es: seq<BaseDenomTrace>, k: Bytes)
    ensures k in AddEntries(kv, es) <==> k in kv || exists e :: e in es && StoreKey(e) == k
    ensures !(TRACE_PFX <= k) && k in kv ==> k in AddEntries(kv, es) && AddEntries(kv, es)[k] == kv[k]
  {
    hide Ascii, EntryKey;
    if es != [] {
      var last := es[|es| - 1];
      EntriesAdded(kv, es[..|es| - 1], k);
      assert forall e :: e in es <==> e in es[..|es| - 1] || e == last;
      assert TRACE_PFX <= StoreKey(last);
    }
  }

  lemma {:induction false} EntriesRemoved(kv: Store, es: seq<BaseDenomTrace>, k: Bytes)
    ensures k in RemoveEntries(kv, es) <==> k in kv && forall e :: e in es ==> StoreKey(e) != k
    ensures k in RemoveEntries(kv, es) ==> RemoveEntries(kv, es)[k] == kv[k]
  {
    hide Ascii, StoreKey;
    if es != [] {
      EntriesRemoved(kv, es[..|es| - 1], k);
      assert forall e :: e in es <==> e in es[..|es| - 1] || e == es[|es| - 1];
    }
  }

  // ----- the governance message -----

  /** Foreign parts: the decoding of an address, and the governance account. */
  datatype Chain = Chain(bech32: Bytes -> Option<Bytes>, authority: Bytes)

  datatype PolicyError = EmptyAuthority | InvalidAuthority | Unauthorized | InvalidMode | InvalidDenom | InvalidEntry

  predicate ValidMode(mode: Bytes)
  {
    mode == ALL || mode == ALLOWLIST || mode == NONE
  }

  predicate ValidDenom(denom: Bytes)
  {
    0 < |denom| <= 128
  }

  /** Letters, digits and the signs . _ + - # [ ] < > of ICS 24 identifiers. */
  predicate IdentifierByte(b: byte)
  {
    97 <= b <= 122 || 65 <= b <= 90 || 48 <= b <= 57 || b in {46, 95, 43, 45, 35, 91, 93, 60, 62}
  }

  predicate ValidIdentifier(id: Bytes, min: nat, max: nat)
  {
    min <= |id| <= max && forall b :: b in id ==> IdentifierByte(b)
  }

  predicate ValidHop(h: SourceHop)
  {
    ValidIdentifier(h.portId, 2, 128) && ValidIdentifier(h.channelId, 8, 64)
  }

  /** `validateBaseDenomTrace`: the base may hold any byte, a NUL included. */
  predicate ValidEntry(e: BaseDenomTrace)
  {
    0 < |e.baseDenom| <= 64 && forall h :: h in e.trace ==> ValidHop(h)
  }

  /** Identifiers cannot hold the delimiters of a key, so only the base of a valid entry can. */
  lemma ValidIsSeparable(e: BaseDenomTrace)
    requires ValidEntry(e)
    ensures SeparableEntry(e) <==> NUL !in e.baseDenom
  {
  }

  function WithMode(kv: Store, mode: Bytes): Store
  {
    if mode == [] then kv else kv[MODE_KEY := mode]
  }

  /** The store after a valid message. */
  function Updated(kv: Store, msg: SetRegistrationPolicy): Store
  {
    RemoveEntries(AddEntries(RemoveDenoms(AddDenoms(WithMode(kv, msg.mode), msg.addDenoms),
      msg.removeDenoms), msg.addTraces), msg.removeTraces)
  }

  /** `SetRegistrationPolicy`; a refused message leaves the store as it was. */
  function SetPolicy(c: Chain, kv: Store, msg: SetRegistrationPolicy): Result<Store, PolicyError>
  {
    if msg.authority == [] then Err(EmptyAuthority)
    else if c.bech32(msg.authority).None? then Err(InvalidAuthority)
    else if c.bech32(msg.authority).value != c.authority then Err(Unauthorized)
    else if msg.mode != [] && !ValidMode(msg.mode) then Err(InvalidMode)
    else if exists d :: d in msg.addDenoms && !ValidDenom(d) then Err(InvalidDenom)
    else if exists e :: e in msg.addTraces && !ValidEntry(e) then Err(InvalidEntry)
    else Ok(Updated(kv, msg))
  }

  /** What a message has to be: from the governance account, with a known mode and additions within the limits. */
  predicate Acceptable(c: Chain, msg: SetRegistrationPolicy)
  {
    && msg.authority != [] && c.bech32(msg.authority) == Some(c.authority)
    && (msg.mode == [] || msg.mode == ALL || msg.mode == ALLOWLIST || msg.mode == NONE)
    && (forall d :: d in msg.addDenoms ==> 1 <= |d| <= 128)
    && forall e :: e in msg.addTraces ==>
      && 1 <= |e.baseDenom| <= 64
      && forall h :: h in e.trace ==>
        && 2 <= |h.portId| <= 128 && 8 <= |h.channelId| <= 64
        && forall b :: b in h.portId || b in h.channelId ==> IdentifierByte(b)
  }

  /** Exactly the acceptable messages are accepted. */
  lemma SetPolicyAccepts(c: Chain, kv: Store, msg: SetRegistrationPolicy)
    ensures SetPolicy(c, kv, msg).Ok? <==> Acceptable(c, msg)
  {
    hide Ascii, Updated, IdentifierByte;
  }

  /** An addition has the key. */
  predicate AddsKey(msg: SetRegistrationPolicy, k: Bytes)
  {
    exists a :: a in msg.addTraces && EntryKey(a) == k
  }

  /** A removal has the key. */
  predicate RemovesKey(msg: SetRegistrationPolicy, k: Bytes)
  {
    exists r :: r in msg.removeTraces && EntryKey(r) == k
  }

  /** Which keys an update leaves in the store. */
  lemma UpdatedKeys(kv: Store, msg: SetRegistrationPolicy, denom: Bytes, k: Bytes)
    ensures DenomKey(denom) in Updated(kv, msg) <==>
      (DenomKey(denom) in kv || denom in msg.addDenoms) && denom !in msg.removeDenoms
    ensures TRACE_PFX + k in Updated(kv, msg) <==>
      (TRACE_PFX + k in kv || AddsKey(msg, k)) && !RemovesKey(msg, k)
  {
    hide Ascii, EntryKey;
    var d, t := DenomKey(denom), TRACE_PFX + k;
    forall x ensures DenomKey(x) == d <==> x == denom {
      assert DenomKey(x)[|ALLOW_PFX|..] == x;
    }
    KeysApart(denom, k);
    forall x ensures DenomKey(x) != t { KeysApart(x, k); }
    forall a ensures StoreKey(a) != d && (StoreKey(a) == t <==> EntryKey(a) == k) {
      KeysApartFrom(denom, a);
      assert StoreKey(a)[|TRACE_PFX|..] == EntryKey(a) && t[|TRACE_PFX|..] == k;
    }
    hide DenomKey, StoreKey;
    var kv1 := WithMode(kv, msg.mode);
    var kv2 := AddDenoms(kv1, msg.addDenoms);
    var kv3 := RemoveDenoms(kv2, msg.removeDenoms);
    var kv4 := AddEntries(kv3, msg.addTraces);
    DenomsAdded(kv1, msg.addDenoms, d);
    DenomsAdded(kv1, msg.addDenoms, t);
    DenomsRemoved(kv2, msg.removeDenoms, d);
    DenomsRemoved(kv2, msg.removeDenoms, t);
    EntriesAdded(kv3, msg.addTraces, d);
    EntriesAdded(kv3, msg.addTraces, t);
    EntriesRemoved(kv4, msg.removeTraces, d);
    EntriesRemoved(kv4, msg.removeTraces, t);
  }

  lemma KeysApartFrom(denom: Bytes, e: BaseDenomTrace)
    ensures MODE_KEY != DenomKey(denom) && MODE_KEY != StoreKey(e) && DenomKey(denom) != StoreKey(e)
  {
    KeysApart(denom, EntryKey(e));
  }

  /** The messages that add no base with a NUL, or remove what they add. */
  predicate PlainAdditions(msg: SetRegistrationPolicy)
  {
    forall a :: a in msg.addTraces ==> a in msg.removeTraces || NUL !in a.baseDenom
  }

  /** Well kept is a matter of each stored key. */
  lemma WellKeptByKey(kv: Store)
    ensures WellKept(kv) <==> forall k :: TRACE_PFX + k in kv ==> Readable(k)
  {
    hide Ascii, EntryKey, SeparableEntry, Readable;
    if WellKept(kv) {
      forall k | TRACE_PFX + k in kv ensures Readable(k) {
        assert TRACE_PFX <= TRACE_PFX + k;
        var e :| SeparableEntry(e) && TRACE_PFX + k == StoreKey(e);
        assert (TRACE_PFX + k)[|TRACE_PFX|..] == k && StoreKey(e)[|TRACE_PFX|..] == EntryKey(e);
        ReadableExactly(k);
      }
    }
    if forall k :: TRACE_PFX + k in kv ==> Readable(k) {
      forall key | key in kv && TRACE_PFX <= key ensures exists e :: SeparableEntry(e) && key == StoreKey(e) {
        var k := key[|TRACE_PFX|..];
        assert key == TRACE_PFX + k;
        ReadableExactly(k);
        var e :| SeparableEntry(e) && EntryKey(e) == k;
      }
    }
  }

  /** An update keeps every stored trace key readable exactly when the keys it adds for good are readable. */
  lemma UpdateKeeps(kv: Store, msg: SetRegistrationPolicy)
    requires WellKept(kv)
    ensures WellKept(Updated(kv, msg)) <==>
      forall a :: a in msg.addTraces && !RemovesKey(msg, EntryKey(a)) ==> Readable(EntryKey(a))
  {
    hide Updated, WellKept, Ascii, EntryKey, Readable, RemovesKey;
    WellKeptByKey(kv);
    WellKeptByKey(Updated(kv, msg));
    forall k ensures TRACE_PFX + k in Updated(kv, msg) <==>
      (TRACE_PFX + k in kv || AddsKey(msg, k)) && !RemovesKey(msg, k)
    {
      UpdatedKeys(kv, msg, [], k);
    }
    forall a | a in msg.addTraces ensures AddsKey(msg, EntryKey(a)) {}
  }

  lemma StoreKeyOf(a: BaseDenomTrace, e: BaseDenomTrace)
    ensures StoreKey(a) == StoreKey(e) <==> EntryKey(a) == EntryKey(e)
  {
    hide Ascii, EntryKey;
    assert StoreKey(a)[|TRACE_PFX|..] == EntryKey(a) && StoreKey(e)[|TRACE_PFX|..] == EntryKey(e);
  }

  lemma UpdatedMode(kv: Store, msg: SetRegistrationPolicy)
    ensures Mode(Updated(kv, msg)) == if msg.mode == [] then Mode(kv) else msg.mode
  {
    hide EntryKey;
    var kv1 := WithMode(kv, msg.mode);
    var kv2 := AddDenoms(kv1, msg.addDenoms);
    var kv3 := RemoveDenoms(kv2, msg.removeDenoms);
    var kv4 := AddEntries(kv3, msg.addTraces);
    forall d ensures DenomKey(d) != MODE_KEY { KeysApart(d, []); }
    forall e ensures StoreKey(e) != MODE_KEY { KeysApartFrom([], e); }
    KeysApart([], []);
    hide Ascii;
    DenomsAdded(kv1, msg.addDenoms, MODE_KEY);
    DenomsRemoved(kv2, msg.removeDenoms, MODE_KEY);
    EntriesAdded(kv3, msg.addTraces, MODE_KEY);
    EntriesRemoved(kv4, msg.removeTraces, MODE_KEY);
  }

  /** The keys of other users of the store are left alone. */
  lemma UpdateFrame(kv: Store, msg: SetRegistrationPolicy, k: Bytes)
    requires k != MODE_KEY && !(ALLOW_PFX <= k) && !(TRACE_PFX <= k)
    ensures k in Updated(kv, msg) <==> k in kv
    ensures k in kv ==> Updated(kv, msg)[k] == kv[k]
  {
    hide Ascii, EntryKey;
    var kv1 := WithMode(kv, msg.mode);
    var kv2 := AddDenoms(kv1, msg.addDenoms);
    var kv3 := RemoveDenoms(kv2, msg.removeDenoms);
    var kv4 := AddEntries(kv3, msg.addTraces);
    assert forall d :: ALLOW_PFX <= DenomKey(d);
    assert forall e :: TRACE_PFX <= StoreKey(e);
    DenomsAdded(kv1, msg.addDenoms, k);
    DenomsRemoved(kv2, msg.removeDenoms, k);
    EntriesAdded(kv3, msg.addTraces, k);
    EntriesRemoved(kv4, msg.removeTraces, k);
  }

  /** The denominations are updated as the message says, whatever the message and the store. */
  lemma DenomsUpdated(kv: Store, msg: SetRegistrationPolicy)
    ensures Denoms(Updated(kv, msg)) == Denoms(kv) + Elements(msg.addDenoms) - Elements(msg.removeDenoms)
  {
    hide Updated, Denoms;
    forall d ensures d in Denoms(Updated(kv, msg)) <==>
      d in Denoms(kv) + Elements(msg.addDenoms) - Elements(msg.removeDenoms)
    {
      UpdatedKeys(kv, msg, d, []);
      DenomIn(kv, d);
      DenomIn(Updated(kv, msg), d);
    }
  }

  /** No listing shows an entry with a delimiter in its names. */
  lemma ListedIsSeparable(kv: Store, e: BaseDenomTrace)
    requires e in Entries(kv)
    ensures SeparableEntry(e)
  {
    hide ReadEntry, SeparableEntry, Ascii;
    var k :| k in kv && TRACE_PFX <= k && ReadEntry(k[|TRACE_PFX|..]) == Some(e);
    ReadIsSeparable(k[|TRACE_PFX|..]);
  }

  /** A stored key is listed as the entry. */
  predicate ListedAs(kv: Store, k: Bytes, e: BaseDenomTrace)
  {
    TRACE_PFX + k in kv && ReadEntry(k) == Some(e)
  }

  lemma ListedByKey(kv: Store, e: BaseDenomTrace)
    ensures e in Entries(kv) <==> exists k :: ListedAs(kv, k, e)
  {
    hide Ascii, ReadEntry;
    if e in Entries(kv) {
      var key :| key in kv && TRACE_PFX <= key && ReadEntry(key[|TRACE_PFX|..]) == Some(e);
      assert key == TRACE_PFX + key[|TRACE_PFX|..];
      assert ListedAs(kv, key[|TRACE_PFX|..], e);
    }
    if k :| ListedAs(kv, k, e) {
      assert TRACE_PFX <= TRACE_PFX + k && (TRACE_PFX + k)[|TRACE_PFX|..] == k;
    }
  }

  /** The entry that the listing shows for an addition. */
  predicate Shows(a: BaseDenomTrace, e: BaseDenomTrace)
  {
    ReadEntry(EntryKey(a)) == Some(e)
  }

  /** Which entries any message leaves in any store: those shown by a key that was there or added, and not removed. */
  lemma UpdateRefines(kv: Store, msg: SetRegistrationPolicy, e: BaseDenomTrace)
    ensures e in Entries(Updated(kv, msg)) <==>
      || (exists k :: ListedAs(kv, k, e) && !RemovesKey(msg, k))
      || (exists a :: a in msg.addTraces && Shows(a, e) && !RemovesKey(msg, EntryKey(a)))
  {
    hide Updated, Ascii, EntryKey, ReadEntry, RemovesKey, Entries;
    var kv' := Updated(kv, msg);
    ListedByKey(kv', e);
    if k :| ListedAs(kv', k, e) {
      UpdatedKeys(kv, msg, [], k);
      if TRACE_PFX + k in kv {
        assert ListedAs(kv, k, e);
      } else {
        var a :| a in msg.addTraces && EntryKey(a) == k;
        assert Shows(a, e);
      }
    }
    if k :| ListedAs(kv, k, e) && !RemovesKey(msg, k) {
      UpdatedKeys(kv, msg, [], k);
      assert ListedAs(kv', k, e);
    }
    if a :| a in msg.addTraces && Shows(a, e) && !RemovesKey(msg, EntryKey(a)) {
      UpdatedKeys(kv, msg, [], EntryKey(a));
      assert AddsKey(msg, EntryKey(a));
      assert ListedAs(kv', EntryKey(a), e);
    }
  }

  /** The removals take every stored key that is listed as the entry, and its own key if it is added. */
  ghost predicate Cleared(kv: Store, msg: SetRegistrationPolicy, e: BaseDenomTrace)
  {
    && (forall k :: ListedAs(kv, k, e) ==> RemovesKey(msg, k))
    && (e in msg.addTraces ==> RemovesKey(msg, EntryKey(e)))
  }

  /** The removals clear exactly the entries that the message removes. */
  ghost predicate OwnRemovals(kv: Store, msg: SetRegistrationPolicy)
  {
    forall e :: e in Entries(kv) || e in msg.addTraces ==> (e in msg.removeTraces <==> Cleared(kv, msg, e))
  }

  ghost function Intended(kv: Store, msg: SetRegistrationPolicy): set<BaseDenomTrace>
  {
    Entries(kv) + Elements(msg.addTraces) - Elements(msg.removeTraces)
  }

  /**
   In every store, every accepted message updates mode and denominations as it says. The entries become
   (old + added) - removed exactly when what it adds for good is free of NUL and its removals clear the entries
   that it removes and no others.
   */
  lemma SetPolicyRefines(c: Chain, kv: Store, msg: SetRegistrationPolicy)
    requires SetPolicy(c, kv, msg).Ok?
    ensures var kv' := SetPolicy(c, kv, msg).value;
      && Mode(kv') == (if msg.mode == [] then Mode(kv) else msg.mode)
      && Denoms(kv') == Denoms(kv) + Elements(msg.addDenoms) - Elements(msg.removeDenoms)
      && (Entries(kv') == Intended(kv, msg) <==> PlainAdditions(msg) && OwnRemovals(kv, msg))
  {
    UpdatedMode(kv, msg);
    DenomsUpdated(kv, msg);
    hide Updated, SeparableEntry, Denoms, Entries, Mode, ValidDenom, ValidEntry, OwnRemovals;
    var kv' := Updated(kv, msg);
    if PlainAdditions(msg) {
      EntriesUpdated(kv, msg);
    } else {
      var a :| a in msg.addTraces && a !in msg.removeTraces && NUL in a.baseDenom;
      ValidIsSeparable(a);
      if a in Entries(kv') { ListedIsSeparable(kv', a); }
    }
  }

  /** With plain additions an entry is left exactly when it was there or added and is not cleared. */
  lemma PlainlyUpdated(kv: Store, msg: SetRegistrationPolicy, e: BaseDenomTrace)
    requires PlainAdditions(msg) && forall a :: a in msg.addTraces ==> ValidEntry(a)
    ensures e in Entries(Updated(kv, msg)) <==> (e in Entries(kv) || e in msg.addTraces) && !Cleared(kv, msg, e)
  {
    hide Updated, Entries, ValidEntry, EntryKey, ReadEntry, SeparableEntry;
    UpdateRefines(kv, msg, e);
    ListedByKey(kv, e);
    forall a | a in msg.addTraces && !RemovesKey(msg, EntryKey(a)) ensures Shows(a, e) <==> a == e {
      assert a !in msg.removeTraces;
      ValidIsSeparable(a);
      EntryRoundTrip(a);
    }
    hide RemovesKey, Shows, ListedAs;
  }

  lemma EntriesUpdated(kv: Store, msg: SetRegistrationPolicy)
    requires PlainAdditions(msg) && forall a :: a in msg.addTraces ==> ValidEntry(a)
    ensures Entries(Updated(kv, msg)) == Intended(kv, msg) <==> OwnRemovals(kv, msg)
  {
    hide Updated, Entries, ValidEntry, PlainAdditions, Cleared;
    var kv' := Updated(kv, msg);
    forall e ensures e in Entries(kv') <==> (e in Entries(kv) || e in msg.addTraces) && !Cleared(kv, msg, e) {
      PlainlyUpdated(kv, msg, e);
    }
    if OwnRemovals(kv, msg) {
      assert forall e :: e in Entries(kv') <==> e in Intended(kv, msg);
    } else {
      var e :| (e in Entries(kv) || e in msg.addTraces) && !(e in msg.removeTraces <==> Cleared(kv, msg, e));
      assert e in Intended(kv, msg) <==> e !in Entries(kv');
    }
  }

  /** In a well-kept store an entry is cleared exactly when a removal has its key. */
  lemma ClearedByKey(kv: Store, msg: SetRegistrationPolicy, e: BaseDenomTrace)
    requires WellKept(kv) && (e in Entries(kv) || e in msg.addTraces)
    ensures Cleared(kv, msg, e) <==> RemovesKey(msg, EntryKey(e))
  {
    hide EntryKey, ReadEntry, Entries, WellKept, Ascii, RemovesKey;
    WellKeptByKey(kv);
    ListedByKey(kv, e);
    assert forall k :: ListedAs(kv, k, e) ==> k == EntryKey(e);
  }

  // ----- where it fails -----

  const UATOM: Bytes := Ascii("uatom")
  const TRANSFER: Bytes := Ascii("transfer")
  const HOP0: SourceHop := SourceHop(TRANSFER, Ascii("channel-0"))
  const HOP1: SourceHop := SourceHop(TRANSFER, Ascii("channel-1"))

  /** uatom through two channels, and the entry with one hop in its base that has the same key. */
  const LONG: BaseDenomTrace := BaseDenomTrace(UATOM, [HOP0] + [HOP1])
  const ALIAS: BaseDenomTrace := BaseDenomTrace(UATOM + [NUL] + HopKey(HOP0), [HOP1])

  lemma AliasFacts()
    ensures ValidEntry(LONG) && ValidEntry(ALIAS) && SeparableEntry(LONG) && !SeparableEntry(ALIAS)
    ensures LONG != ALIAS && EntryKey(LONG) == EntryKey(ALIAS)
  {
    NulInBaseCollides(UATOM, HOP0, [HOP1]);
    assert NUL in ALIAS.baseDenom by { assert ALIAS.baseDenom[5] == NUL; }
    assert NUL !in UATOM;
    assert forall b :: b in TRANSFER ==> IdentifierByte(b);
    assert forall b :: b in HOP0.channelId ==> IdentifierByte(b);
    assert forall b :: b in HOP1.channelId ==> IdentifierByte(b);
    ValidIsSeparable(LONG);
    ValidIsSeparable(ALIAS);
  }

  function Message(who: Bytes, add: seq<BaseDenomTrace>, remove: seq<BaseDenomTrace>): SetRegistrationPolicy
  {
    SetRegistrationPolicy(who, [], [], [], add, remove)
  }

  /** A base with a NUL is accepted, and the listing shows another entry in its place. */
  lemma NulBaseAccepted(c: Chain, who: Bytes, kv: Store)
    requires who != [] && c.bech32(who) == Some(c.authority)
    ensures SetPolicy(c, kv, Message(who, [ALIAS], [])).Ok?
    ensures var kv' := SetPolicy(c, kv, Message(who, [ALIAS], [])).value;
      ALIAS !in Entries(kv') && LONG in Entries(kv')
  {
    AliasFacts();
    var msg := Message(who, [ALIAS], []);
    hide Ascii, EntryKey, SeparableEntry, ValidEntry, Updated;
    assert ALIAS in msg.addTraces;
    UpdatedKeys(kv, msg, [], EntryKey(LONG));
    assert AddsKey(msg, EntryKey(LONG)) && !RemovesKey(msg, EntryKey(LONG));
    StoredIsListed(Updated(kv, msg), LONG);
    if ALIAS in Entries(Updated(kv, msg)) { ListedIsSeparable(Updated(kv, msg), ALIAS); }
  }

  /** The key of a separable entry is listed as that entry, in any store. */
  lemma StoredIsListed(kv: Store, e: BaseDenomTrace)
    requires SeparableEntry(e) && StoreKey(e) in kv
    ensures e in Entries(kv)
  {
    hide Ascii, EntryKey, ReadEntry, SeparableEntry;
    EntryRoundTrip(e);
    assert TRACE_PFX <= StoreKey(e) && StoreKey(e)[|TRACE_PFX|..] == EntryKey(e);
  }

  /** Removals are not validated: removing one entry removes another that is listed. */
  lemma RemovalAlias(c: Chain, who: Bytes, kv: Store)
    requires who != [] && c.bech32(who) == Some(c.authority)
    requires WellKept(kv) && LONG in Entries(kv)
    ensures SetPolicy(c, kv, Message(who, [], [ALIAS])).Ok?
    ensures LONG !in Entries(SetPolicy(c, kv, Message(who, [], [ALIAS])).value)
  {
    AliasFacts();
    var msg := Message(who, [], [ALIAS]);
    hide Ascii, EntryKey, SeparableEntry, ValidEntry, Updated, Entries, WellKept;
    assert ALIAS in msg.removeTraces;
    assert RemovesKey(msg, EntryKey(LONG));
    UpdateKeeps(kv, msg);
    EntryIn(Updated(kv, msg), LONG);
    UpdatedKeys(kv, msg, [], EntryKey(LONG));
  }

  /** An entry whose key reads as another entry, but is not the key of that entry. */
  const STRAY: BaseDenomTrace := BaseDenomTrace(UATOM + [NUL] + Ascii("x"), [HOP0])
  const SHOWN: BaseDenomTrace := BaseDenomTrace(UATOM, [HOP0])

  lemma StrayFacts()
    ensures ValidEntry(STRAY) && SeparableEntry(SHOWN) && Shows(STRAY, SHOWN) && EntryKey(STRAY) != EntryKey(SHOWN)
  {
    AliasFacts();
    assert HOP0 in LONG.trace;
    assert ValidHop(HOP0) && Separable(HOP0);
    assert NUL !in UATOM && NUL !in Ascii("x") && SLASH !in Ascii("x");
    StrayPartDropped(UATOM, Ascii("x"), [HOP0]);
    hide EntryKey, ReadEntry, ValidHop, Separable;
    assert forall h :: h in [HOP0] ==> h == HOP0;
  }

  /** It is accepted and listed as the other one; an accepted message that removes the one listed leaves it listed. */
  lemma StrayStays(c: Chain, who: Bytes, kv: Store)
    requires who != [] && c.bech32(who) == Some(c.authority)
    ensures SetPolicy(c, kv, Message(who, [STRAY], [])).Ok?
    ensures var kv1 := SetPolicy(c, kv, Message(who, [STRAY], [])).value;
      && SHOWN in Entries(kv1)
      && SetPolicy(c, kv1, Message(who, [], [SHOWN])).Ok?
      && SHOWN in Entries(SetPolicy(c, kv1, Message(who, [], [SHOWN])).value)
  {
    StrayFacts();
    var add, remove := Message(who, [STRAY], []), Message(who, [], [SHOWN]);
    hide Ascii, EntryKey, ReadEntry, SeparableEntry, ValidEntry, Updated, Entries;
    var kv1, k := Updated(kv, add), EntryKey(STRAY);
    assert STRAY in add.addTraces;
    assert AddsKey(add, k) && !RemovesKey(add, k) && !RemovesKey(remove, k);
    UpdatedKeys(kv, add, [], k);
    UpdatedKeys(kv1, remove, [], k);
    assert ListedAs(kv1, k, SHOWN) && ListedAs(Updated(kv1, remove), k, SHOWN);
    ListedByKey(kv1, SHOWN);
    ListedByKey(Updated(kv1, remove), SHOWN);
  }

  // ----- ranges -----

  /** The store after deleting all trace keys in the range that `removeAllBaseDenomTraces` iterates over. */
  ghost function WithoutBase(kv: Store, base: Bytes): Store
  {
    map k | k in kv && !(TRACE_PFX <= k && InRange(k[|TRACE_PFX|..], base + [NUL], PrefixEnd(base + [NUL]))) :: kv[k]
  }

  /** Whatever a key is listed as, its base is the part of the key before the first NUL. */
  lemma BaseOfKey(k: Bytes, e: BaseDenomTrace, base: Bytes)
    requires NUL !in base && ReadEntry(k) == Some(e)
    ensures base + [NUL] <= k <==> e.baseDenom == base
  {
    hide ReadTrace;
    var i := IndexByte(k, NUL);
    assert k == e.baseDenom + [NUL] + k[i + 1..];
    if base + [NUL] <= k {
      var rest := k[|base| + 1..];
      assert k == base + [NUL] + rest;
      IndexConcat(base, rest, NUL);
    }
  }

  lemma WithoutKey(kv: Store, base: Bytes, k: Bytes)
    ensures TRACE_PFX + k in WithoutBase(kv, base) <==> TRACE_PFX + k in kv && !(base + [NUL] <= k)
  {
    hide Ascii, InRange, PrefixEnd;
    RangeIsPrefix(k, base + [NUL]);
    assert TRACE_PFX <= TRACE_PFX + k && (TRACE_PFX + k)[|TRACE_PFX|..] == k;
  }

  /**
   In every store the range deletes the keys that start with the base and a NUL: for a base free of NUL exactly
   the entries that are listed with that base.
   */
  lemma WithoutBaseRefines(kv: Store, base: Bytes, e: BaseDenomTrace)
    ensures e in Entries(WithoutBase(kv, base)) <==> exists k :: ListedAs(kv, k, e) && !(base + [NUL] <= k)
    ensures NUL !in base ==> (e in Entries(WithoutBase(kv, base)) <==> e in Entries(kv) && e.baseDenom != base)
    ensures WellKept(kv) ==> WellKept(WithoutBase(kv, base))
    ensures Denoms(WithoutBase(kv, base)) == Denoms(kv) && Mode(WithoutBase(kv, base)) == Mode(kv)
  {
    var kv' := WithoutBase(kv, base);
    WithoutBaseKeeps(kv, base);
    hide Ascii, ReadEntry, Entries, WellKept, WithoutBase, Denoms, Mode, Readable;
    forall k ensures TRACE_PFX + k in kv' <==> TRACE_PFX + k in kv && !(base + [NUL] <= k) { WithoutKey(kv, base, k); }
    ListedByKey(kv, e);
    ListedByKey(kv', e);
    forall k ensures ListedAs(kv', k, e) <==> ListedAs(kv, k, e) && !(base + [NUL] <= k) {}
    if NUL !in base {
      forall k | ListedAs(kv, k, e) ensures base + [NUL] <= k <==> e.baseDenom == base { BaseOfKey(k, e, base); }
    }
    WellKeptByKey(kv);
    WellKeptByKey(kv');
  }

  lemma WithoutBaseKeeps(kv: Store, base: Bytes)
    ensures Denoms(WithoutBase(kv, base)) == Denoms(kv) && Mode(WithoutBase(kv, base)) == Mode(kv)
  {
    var kv' := WithoutBase(kv, base);
    KeysApart([], []);
    hide InRange, PrefixEnd;
    forall d ensures d in Denoms(kv') <==> d in Denoms(kv) {
      DenomIn(kv, d);
      DenomIn(kv', d);
      KeysApart(d, []);
    }
  }

  // ----- packets -----

  /** What the wrapper reads from a packet: none when its data cannot be parsed. */
  datatype Token = Token(denom: Bytes, base: Bytes, trace: seq<SourceHop>)

  datatype Packet = Packet(destPort: Bytes, destChannel: Bytes, token: Option<Token>)

  /** `buildFullTrace`: the hop of the destination, then the hops the packet came with. */
  function FullTrace(p: Packet, incoming: seq<SourceHop>): seq<SourceHop>
  {
    [SourceHop(p.destPort, p.destChannel)] + incoming
  }

  predicate TraceAllowed(kv: Store, base: Bytes, trace: seq<SourceHop>)
  {
    trace != [] && StoreKey(BaseDenomTrace(base, trace)) in kv
  }

  /** `OnRecvPacket`: whether the packet goes on to the keeper that registers tokens. */
  predicate Delegates(kv: Store, registered: set<Bytes>, p: Packet)
  {
    var mode := Mode(kv);
    if mode == ALL then true
    else if p.token.None? then true
    else
      var t := p.token.value;
      if !(IBC_PFX <= t.denom) then true
      else if t.denom in registered then true
      else if mode == NONE then false
      else if mode == ALLOWLIST then DenomKey(t.denom) in kv || TraceAllowed(kv, t.base, FullTrace(p, t.trace))
      else true
  }

  /** The entry that stands for a packet. */
  function PacketEntry(p: Packet, t: Token): BaseDenomTrace
  {
    BaseDenomTrace(t.base, FullTrace(p, t.trace))
  }

  /** The entry has the base of the packet, the hop it is received over first, and then the hops it came with. */
  predicate Covers(e: BaseDenomTrace, p: Packet, t: Token)
  {
    && e.baseDenom == t.base && |e.trace| == 1 + |t.trace|
    && e.trace[0] == SourceHop(p.destPort, p.destChannel)
    && forall i :: 0 <= i < |t.trace| ==> e.trace[i + 1] == t.trace[i]
  }

  /** What the policy says about an unregistered voucher: its name or its own base and trace are allowed. */
  ghost predicate Allows(policy: Policy, p: Packet, t: Token)
  {
    || policy.mode == ALL
    || (policy.mode == ALLOWLIST && (t.denom in policy.denoms || exists e :: e in policy.entries && Covers(e, p, t)))
  }

  /** One entry covers a packet: the one that the wrapper looks up. */
  lemma CoversOne(e: BaseDenomTrace, p: Packet, t: Token)
    ensures Covers(e, p, t) <==> e == PacketEntry(p, t)
  {
    if Covers(e, p, t) { assert e.trace == FullTrace(p, t.trace); }
  }

  lemma CoveredIsLookedUp(entries: set<BaseDenomTrace>, p: Packet, t: Token)
    ensures (exists e :: e in entries && Covers(e, p, t)) <==> PacketEntry(p, t) in entries
  {
    hide Covers, PacketEntry;
    forall e ensures Covers(e, p, t) <==> e == PacketEntry(p, t) { CoversOne(e, p, t); }
  }

  /** The packet has the key of an allowed entry, but delimiters in its names: it is not that entry. */
  predicate Slips(kv: Store, p: Packet, t: Token)
  {
    && Mode(kv) == ALLOWLIST && DenomKey(t.denom) !in kv
    && !SeparableEntry(PacketEntry(p, t)) && StoreKey(PacketEntry(p, t)) in kv
  }

  predicate Unregistered(registered: set<Bytes>, p: Packet)
  {
    p.token.Some? && IBC_PFX <= p.token.value.denom && p.token.value.denom !in registered
  }

  lemma ModesDiffer()
    ensures ALL != ALLOWLIST && ALL != NONE && NONE != ALLOWLIST
  {
    assert |ALL| == 3 && |NONE| == 4 && |ALLOWLIST| == 9;
  }

  /** Whatever is stored, a voucher is handed on only when the listed policy allows it or when it slips through. */
  lemma DelegatesSafely(kv: Store, registered: set<Bytes>, p: Packet)
    requires ValidMode(Mode(kv)) && Unregistered(registered, p) && Delegates(kv, registered, p)
    ensures Allows(Abs(kv), p, p.token.value) || Slips(kv, p, p.token.value)
  {
    ModesDiffer();
    hide Ascii, EntryKey, Denoms, Entries, SeparableEntry;
    var t := p.token.value;
    DenomIn(kv, t.denom);
    var x := PacketEntry(p, t);
    CoveredIsLookedUp(Entries(kv), p, t);
    if SeparableEntry(x) && StoreKey(x) in kv { StoredIsListed(kv, x); }
  }

  /** The listed policy has the entry of the packet, by a key that is not the packet's. */
  ghost predicate HeldBack(kv: Store, p: Packet, t: Token)
  {
    && Mode(kv) == ALLOWLIST && DenomKey(t.denom) !in kv && StoreKey(PacketEntry(p, t)) !in kv
    && exists k :: ListedAs(kv, k, PacketEntry(p, t))
  }

  ghost predicate Misjudged(kv: Store, p: Packet, t: Token)
  {
    Slips(kv, p, t) || HeldBack(kv, p, t)
  }

  /**
   In every store the byte-keyed decision about an unregistered voucher is that of the listed policy exactly when
   the packet neither slips through nor is held back; in the first case it is handed on against the policy, in
   the second it is not although the policy allows it.
   */
  lemma DelegatesExactly(kv: Store, registered: set<Bytes>, p: Packet)
    requires ValidMode(Mode(kv)) && Unregistered(registered, p)
    ensures (Delegates(kv, registered, p) <==> Allows(Abs(kv), p, p.token.value)) <==> !Misjudged(kv, p, p.token.value)
    ensures Slips(kv, p, p.token.value) ==> Delegates(kv, registered, p) && !Allows(Abs(kv), p, p.token.value)
    ensures HeldBack(kv, p, p.token.value) ==> !Delegates(kv, registered, p) && Allows(Abs(kv), p, p.token.value)
  {
    ModesDiffer();
    hide Ascii, EntryKey, Denoms, Entries, SeparableEntry, ReadEntry, Covers;
    var t := p.token.value;
    var x := PacketEntry(p, t);
    DenomIn(kv, t.denom);
    CoveredIsLookedUp(Entries(kv), p, t);
    ListedByKey(kv, x);
    if x in Entries(kv) { ListedIsSeparable(kv, x); }
    if SeparableEntry(x) && StoreKey(x) in kv { StoredIsListed(kv, x); }
  }

  /** Whatever is stored: unreadable packets, coins that are no vouchers and registered vouchers are handed on. */
  lemma OthersPass(kv: Store, registered: set<Bytes>, p: Packet)
    requires !Unregistered(registered, p)
    ensures Delegates(kv, registered, p)
  {
  }

  /** No packet is held back in a well-kept store. */
  lemma WellKeptHoldsNone(kv: Store, p: Packet, t: Token)
    requires WellKept(kv)
    ensures !HeldBack(kv, p, t)
  {
    hide Ascii, EntryKey, ReadEntry, WellKept;
    WellKeptByKey(kv);
  }

  /** A store with nothing but the key of that entry. */
  const STRAY_ONLY: Store := map[MODE_KEY := ALLOWLIST, StoreKey(STRAY) := PRESENT]

  lemma StrayOnly(denom: Bytes)
    ensures Mode(STRAY_ONLY) == ALLOWLIST && DenomKey(denom) !in STRAY_ONLY && StoreKey(SHOWN) !in STRAY_ONLY
    ensures ListedAs(STRAY_ONLY, EntryKey(STRAY), SHOWN)
  {
    StrayFacts();
    KeysApart(denom, EntryKey(STRAY));
    KeysApart(denom, EntryKey(SHOWN));
    hide Ascii, EntryKey, ReadEntry;
    StoreKeyOf(STRAY, SHOWN);
  }

  /** A packet received over `h` without further hops. */
  function OneHop(denom: Bytes, base: Bytes, h: SourceHop): Packet
  {
    Packet(h.portId, h.channelId, Some(Token(denom, base, [])))
  }

  lemma OneHopEntry(denom: Bytes, base: Bytes, h: SourceHop)
    ensures PacketEntry(OneHop(denom, base, h), OneHop(denom, base, h).token.value) == BaseDenomTrace(base, [h])
  {
  }

  /** A packet that is held back: uatom over one channel is listed, but stored under the key of another entry. */
  lemma SomePacketHeldBack(denom: Bytes)
    ensures var p := OneHop(denom, UATOM, HOP0); HeldBack(STRAY_ONLY, p, p.token.value)
  {
    hide Ascii, EntryKey, StoreKey, STRAY_ONLY, STRAY, PacketEntry, ListedAs, Mode, DenomKey;
    StrayOnly(denom);
    OneHopEntry(denom, UATOM, HOP0);
  }

  /**
   A packet that slips through: the allowed entry has a hop in front of the trace of the packet, and the
   packet has that hop in its base.
   */
  lemma HopInBaseSlips(kv: Store, registered: set<Bytes>, p: Packet, base: Bytes, h: SourceHop)
    requires Mode(kv) == ALLOWLIST && Unregistered(registered, p)
    requires DenomKey(p.token.value.denom) !in kv && p.token.value.base == base + [NUL] + HopKey(h)
    requires StoreKey(BaseDenomTrace(base, [h] + FullTrace(p, p.token.value.trace))) in kv
    ensures Delegates(kv, registered, p) && !Allows(Abs(kv), p, p.token.value)
  {
    var t := p.token.value;
    var e := BaseDenomTrace(base, [h] + FullTrace(p, t.trace));
    NulInBaseCollides(base, h, FullTrace(p, t.trace));
    assert NUL in t.base by { assert t.base[|base|] == NUL; }
    assert !SeparableEntry(PacketEntry(p, t));
    hide Ascii, EntryKey, Denoms, Entries, SeparableEntry, HopKey;
    StoreKeyOf(PacketEntry(p, t), e);
    DelegatesExactly(kv, registered, p);
  }

  /** A store that allows uatom through two channels, and nothing else. */
  const LONG_ONLY: Store := map[MODE_KEY := ALLOWLIST, StoreKey(LONG) := PRESENT]

  lemma LongOnly(denom: Bytes)
    ensures WellKept(LONG_ONLY) && Mode(LONG_ONLY) == ALLOWLIST && DenomKey(denom) !in LONG_ONLY
    ensures LONG in Entries(LONG_ONLY) && StoreKey(LONG) in LONG_ONLY
  {
    AliasFacts();
    KeysApart(denom, EntryKey(LONG));
    hide Ascii, EntryKey, SeparableEntry, ReadEntry, HopKey;
    StoredIsListed(LONG_ONLY, LONG);
  }

  /** A packet received over `h` that came over `g` before. */
  function TwoHops(denom: Bytes, base: Bytes, h: SourceHop, g: SourceHop): Packet
  {
    Packet(h.portId, h.channelId, Some(Token(denom, base, [g])))
  }

  /** It is looked up with the hop it is received over first. */
  lemma TwoHopsLookedUp(kv: Store, denom: Bytes, base: Bytes, h: SourceHop, g: SourceHop)
    requires Mode(kv) == ALLOWLIST && IBC_PFX <= denom && DenomKey(denom) !in kv
    ensures Delegates(kv, {}, TwoHops(denom, base, h, g)) <==> StoreKey(BaseDenomTrace(base, [h] + [g])) in kv
  {
    ModesDiffer();
    hide Ascii, EntryKey;
    assert FullTrace(TwoHops(denom, base, h, g), [g]) == [h] + [g];
  }

  /** With uatom allowed over two channels, it is handed on in the order of its hops and not in the other. */
  lemma TwoHopsInOrder(denom: Bytes)
    requires IBC_PFX <= denom
    ensures Delegates(LONG_ONLY, {}, TwoHops(denom, UATOM, HOP0, HOP1))
    ensures !Delegates(LONG_ONLY, {}, TwoHops(denom, UATOM, HOP1, HOP0))
  {
    hide Ascii, Delegates, TwoHops, LONG_ONLY, StoreKey, DenomKey, Mode, WellKept, Entries;
    LongOnly(denom);
    OtherOrderApart();
    TwoHopsLookedUp(LONG_ONLY, denom, UATOM, HOP0, HOP1);
    TwoHopsLookedUp(LONG_ONLY, denom, UATOM, HOP1, HOP0);
  }

  lemma OtherOrderApart()
    ensures StoreKey(BaseDenomTrace(UATOM, [HOP1] + [HOP0])) !in LONG_ONLY
  {
    var x := BaseDenomTrace(UATOM, [HOP1] + [HOP0]);
    assert HOP0 != HOP1 by { assert HOP0.channelId[8] == 48 && HOP1.channelId[8] == 49; }
    assert x.trace[0] == HOP1 && LONG.trace[0] == HOP0;
    AliasFacts();
    KeysApart([], EntryKey(x));
    hide Ascii, EntryKey, HopKey;
    assert SeparableEntry(x) by { assert HOP0 in LONG.trace && HOP1 in LONG.trace; }
    hide SeparableEntry;
    StoreKeyOf(x, LONG);
    if EntryKey(x) == EntryKey(LONG) { EntryKeyInjective(x, LONG); }
  }

  /** A packet received over `h` without further hops, with another hop in its base. */
  function HopInBase(denom: Bytes, base: Bytes, inBase: SourceHop, h: SourceHop): Packet
  {
    OneHop(denom, base + [NUL] + HopKey(inBase), h)
  }

  lemma OneHopSlips(kv: Store, denom: Bytes, base: Bytes, inBase: SourceHop, h: SourceHop)
    requires Mode(kv) == ALLOWLIST && IBC_PFX <= denom && DenomKey(denom) !in kv
    requires StoreKey(BaseDenomTrace(base, [inBase] + [h])) in kv
    ensures var p := HopInBase(denom, base, inBase, h);
      Unregistered({}, p) && Delegates(kv, {}, p) && !Allows(Abs(kv), p, p.token.value)
  {
    hide Ascii, HopKey, Delegates, Allows, Abs, WellKept, Entries, Denoms, Mode;
    var p := HopInBase(denom, base, inBase, h);
    assert FullTrace(p, []) == [h];
    HopInBaseSlips(kv, {}, p, base, inBase);
  }

  /** Such a packet exists: it is received on the second channel and names the first in its base. */
  lemma SomePacketSlips(denom: Bytes)
    requires IBC_PFX <= denom
    ensures WellKept(LONG_ONLY)
    ensures var p := HopInBase(denom, UATOM, HOP0, HOP1);
      Unregistered({}, p) && Delegates(LONG_ONLY, {}, p) && !Allows(Abs(LONG_ONLY), p, p.token.value)
  {
    hide Ascii, HopInBase, Delegates, Allows, Abs, WellKept, Entries, Denoms, Mode, LONG_ONLY;
    LongOnly(denom);
    OneHopSlips(LONG_ONLY, denom, UATOM, HOP0, HOP1);
  }

  /**
   An entry without a trace has the key of no packet, unless its base holds a NUL and the last channel of the
   packet ends with one; then some base does.
   */
  lemma PlaceholderIsInert(base: Bytes, p: Packet, t: Token)
    ensures var full := FullTrace(p, t.trace);
      var c := full[|full| - 1].channelId;
      && (NUL !in base ==> EntryKey(BaseDenomTrace(base, [])) != EntryKey(PacketEntry(p, t)))
      && ((exists b :: EntryKey(BaseDenomTrace(b, [])) == EntryKey(PacketEntry(p, t))) <==>
          c != [] && c[|c| - 1] == NUL)
  {
    var full := FullTrace(p, t.trace);
    var tail := TraceKey(full);
    var key := EntryKey(PacketEntry(p, t));
    assert forall b :: EntryKey(BaseDenomTrace(b, [])) == b + [NUL];
    TraceKeyEnds(full);
    hide TraceKey, HopKey;
    assert key == t.base + [NUL] + tail && key[|t.base|] == NUL && key[|key| - 1] == tail[|tail| - 1];
    var placeholder := base + [NUL];
    assert forall i :: 0 <= i < |placeholder| && placeholder[i] == NUL && NUL !in base ==> i == |base|;
    if tail[|tail| - 1] == NUL {
      var b := key[..|key| - 1];
      assert b + [NUL] == key;
      assert EntryKey(BaseDenomTrace(b, [])) == key;
    }
  }

  // ----- seeding -----

  /** The store after the defaults are written, on first genesis or by the upgrade; an existing mode stops both. */
  function Seeded(kv: Store): Store
  {
    if MODE_KEY in kv then kv else AddEntries(kv[MODE_KEY := ALLOWLIST], DEFAULTS)
  }

  lemma DefaultsSeparable(e: BaseDenomTrace)
    requires e in DEFAULTS
    ensures SeparableEntry(e) && e.trace == []
  {
  }

  /** Seeding keeps the store readable, and its entries are placeholders. */
  lemma SeededKeeps(kv: Store)
    requires WellKept(kv)
    ensures WellKept(Seeded(kv))
    ensures MODE_KEY in kv ==> Seeded(kv) == kv
    ensures MODE_KEY !in kv ==> Mode(Seeded(kv)) == ALLOWLIST
  {
    if MODE_KEY !in kv {
      var kv1 := kv[MODE_KEY := ALLOWLIST];
      SeededMode(kv);
      hide Ascii, EntryKey;
      forall k | k in Seeded(kv) && TRACE_PFX <= k ensures exists e :: SeparableEntry(e) && k == StoreKey(e) {
        EntriesAdded(kv1, DEFAULTS, k);
        if k !in kv {
          var e :| e in DEFAULTS && StoreKey(e) == k;
          DefaultsSeparable(e);
        }
      }
    }
  }

  lemma DefaultsAre(e: BaseDenomTrace)
    ensures e in DEFAULTS <==>
      e.trace == [] && e.baseDenom in {Ascii("uatom"), Ascii("uosmo"), Ascii("uusdc"), Ascii("inj")}
  {
    assert DEFAULTS[0] in DEFAULTS && DEFAULTS[1] in DEFAULTS && DEFAULTS[2] in DEFAULTS && DEFAULTS[3] in DEFAULTS;
  }

  /** Seeding lists the four placeholders and changes no other entry. */
  lemma SeededLists(kv: Store, e: BaseDenomTrace)
    requires MODE_KEY !in kv
    ensures e in Entries(Seeded(kv)) <==>
      || e in Entries(kv)
      || (e.trace == [] && e.baseDenom in {Ascii("uatom"), Ascii("uosmo"), Ascii("uusdc"), Ascii("inj")})
  {
    DefaultsAre(e);
    hide Ascii, EntryKey, ReadEntry, Entries, DEFAULTS, Seeded;
    forall k ensures
      TRACE_PFX + k in Seeded(kv) <==> TRACE_PFX + k in kv || exists x :: x in DEFAULTS && EntryKey(x) == k
    {
      SeededKey(kv, k);
    }
    ListedByKey(kv, e);
    ListedByKey(Seeded(kv), e);
    forall x | x in DEFAULTS ensures ReadEntry(EntryKey(x)) == Some(x) {
      DefaultsSeparable(x);
      EntryRoundTrip(x);
    }
    if k :| ListedAs(kv, k, e) { assert ListedAs(Seeded(kv), k, e); }
    if e in DEFAULTS { assert ListedAs(Seeded(kv), EntryKey(e), e); }
    if k :| ListedAs(Seeded(kv), k, e) {
      if TRACE_PFX + k in kv { assert ListedAs(kv, k, e); }
    }
  }

  /** It changes no denomination. */
  lemma SeededDenoms(kv: Store)
    requires MODE_KEY !in kv
    ensures Denoms(Seeded(kv)) == Denoms(kv)
  {
    hide Ascii, EntryKey, Denoms, DEFAULTS;
    forall d ensures d in Denoms(Seeded(kv)) <==> d in Denoms(kv) {
      DenomIn(kv, d);
      DenomIn(Seeded(kv), d);
      EntriesAdded(kv[MODE_KEY := ALLOWLIST], DEFAULTS, DenomKey(d));
      forall x ensures StoreKey(x) != DenomKey(d) && MODE_KEY != DenomKey(d) { KeysApartFrom(d, x); }
    }
  }

  lemma SeededKey(kv: Store, k: Bytes)
    requires MODE_KEY !in kv
    ensures TRACE_PFX + k in Seeded(kv) <==> TRACE_PFX + k in kv || exists x :: x in DEFAULTS && EntryKey(x) == k
  {
    KeysApart([], k);
    hide Ascii, EntryKey, DEFAULTS;
    EntriesAdded(kv[MODE_KEY := ALLOWLIST], DEFAULTS, TRACE_PFX + k);
    forall x ensures StoreKey(x) == TRACE_PFX + k <==> EntryKey(x) == k {
      assert StoreKey(x)[|TRACE_PFX|..] == EntryKey(x) && (TRACE_PFX + k)[|TRACE_PFX|..] == k;
    }
  }

  /** On a store without a policy, seeding allows nothing: every unregistered voucher is held back. */
  lemma SeededAllowsNothing(kv: Store, registered: set<Bytes>, p: Packet)
    requires forall k :: k in kv ==> k != MODE_KEY && !(ALLOW_PFX <= k) && !(TRACE_PFX <= k)
    requires Unregistered(registered, p)
    ensures !Delegates(Seeded(kv), registered, p)
  {
    var t := p.token.value;
    var kv1, x := kv[MODE_KEY := ALLOWLIST], PacketEntry(p, t);
    ModesDiffer();
    SeededMode(kv);
    EntriesAdded(kv1, DEFAULTS, DenomKey(t.denom));
    EntriesAdded(kv1, DEFAULTS, StoreKey(x));
    KeysApart(t.denom, EntryKey(x));
    assert ALLOW_PFX <= DenomKey(t.denom) && TRACE_PFX <= StoreKey(x);
    hide EntryKey, Ascii, Mode;
    forall e | e in DEFAULTS ensures StoreKey(e) != StoreKey(x) && StoreKey(e) != DenomKey(t.denom) {
      DefaultsSeparable(e);
      PlaceholderIsInert(e.baseDenom, p, t);
      assert e == BaseDenomTrace(e.baseDenom, []);
      StoreKeyOf(e, x);
      KeysApartFrom(t.denom, e);
    }
  }

  lemma SeededMode(kv: Store)
    requires MODE_KEY !in kv
    ensures Mode(Seeded(kv)) == ALLOWLIST
  {
    KeysApart([], []);
    hide Ascii, EntryKey;
    EntriesAdded(kv[MODE_KEY := ALLOWLIST], DEFAULTS, MODE_KEY);
  }
}
