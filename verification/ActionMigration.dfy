/**
 Actions and their secondary indexes, and the migration that moves the actions of a legacy address to a new
 one. The migration finds them through the indexes instead of scanning the store.
 */
module ActionMigration {
  import opened Bytes
  import opened Lex
  import opened TraceKeys

  type Id = Bytes
  type Address = Bytes

  /** An action, with the fields that no index and no migration looks at in `rest`. */
  datatype Action = Action(
    id: Id,
    creator: Address,
    superNodes: seq<Address>,
    state: Bytes,
    kind: Bytes,
    height: Bytes,
    rest: Bytes)

  datatype Index = ByState | ByCreator | ByType | ByHeight | BySuperNode

  /** A marker in an index: under a value it holds the identifier of an action. */
  datatype Marker = Marker(index: Index, value: Bytes, id: Id)

  type Actions = map<Id, Action>

  // ----- the keys of the indexes -----

  function Prefix(index: Index): Bytes
  {
    match index
    case ByState => Ascii("Action/state/")
    case ByCreator => Ascii("Action/creator/")
    case ByType => Ascii("Action/type/")
    case ByHeight => Ascii("Action/block/")
    case BySuperNode => Ascii("Action/supernode/")
  }

  /** What a scan of an index for a value looks for. */
  function ScanPrefix(index: Index, value: Bytes): Bytes
  {
    Prefix(index) + (value + [SLASH])
  }

  function MarkerKey(m: Marker): Bytes
  {
    ScanPrefix(m.index, m.value) + m.id
  }

  lemma PrefixesApart(i: Index, j: Index, k: Bytes)
    requires Prefix(i) <= k && Prefix(j) <= k
    ensures i == j
  {
    assert forall x :: |Prefix(x)| >= 12;
    assert k[7] == Prefix(i)[7] == Prefix(j)[7] && k[8] == Prefix(i)[8] == Prefix(j)[8];
    assert forall x: Index :: Prefix(x)[7] == match x
      case ByState => 115 case ByCreator => 99 case ByType => 116 case ByHeight => 98 case BySuperNode => 115;
    assert Prefix(ByState)[8] == 116 && Prefix(BySuperNode)[8] == 117;
  }

  /** For values without a slash, such as addresses, a value and a slash begin the key of that value only. */
  lemma KeyScan(value: Bytes, other: Bytes, id: Id)
    requires SLASH !in value && SLASH !in other
    ensures value + [SLASH] <= other + [SLASH] + id <==> value == other
  {
    IndexConcat(other, id, SLASH);
    if value + [SLASH] <= other + [SLASH] + id {
      var key := other + [SLASH] + id;
      var rest := key[|value| + 1..];
      assert key == value + [SLASH] + rest;
      IndexConcat(value, rest, SLASH);
      assert key[..|value|] == value && key[..|other|] == other;
    }
  }

  /** Markers whose values hold no slash have different keys. */
  lemma KeyInjective(m: Marker, n: Marker)
    requires SLASH !in m.value && SLASH !in n.value && MarkerKey(m) == MarkerKey(n)
    ensures m == n
  {
    hide Prefix;
    var k := MarkerKey(m);
    assert Prefix(m.index) <= k && Prefix(n.index) <= k;
    PrefixesApart(m.index, n.index, k);
    var p := |Prefix(m.index)|;
    assert k[p..] == m.value + [SLASH] + m.id && k[p..] == n.value + [SLASH] + n.id;
    assert m.value + [SLASH] <= k[p..];
    KeyScan(m.value, n.value, n.id);
    assert k[p..][|m.value| + 1..] == m.id && k[p..][|n.value| + 1..] == n.id;
  }

  /** The markers that belong to an action. */
  ghost predicate Marks(a: Action, m: Marker)
  {
    m.id == a.id && m.value in Values(a, m.index)
  }

  ghost function Values(a: Action, index: Index): set<Bytes>
  {
    match index
    case ByState => {a.state}
    case ByCreator => {a.creator}
    case ByType => {a.kind}
    case ByHeight => {a.height}
    case BySuperNode => Elements(a.superNodes)
  }

  /** No value that an index files the action under holds a slash. */
  ghost predicate Plain(a: Action)
  {
    forall index, v :: v in Values(a, index) ==> SLASH !in v
  }

  ghost predicate KeyOf(a: Action, k: Bytes)
  {
    exists m :: Marks(a, m) && MarkerKey(m) == k
  }

  /** The indexes hold the keys of the stored actions, and no others. */
  ghost predicate Exact(actions: Actions, keys: set<Bytes>)
  {
    && (forall id :: id in actions ==> actions[id].id == id && Plain(actions[id]))
    && (forall k :: k in keys <==> exists id :: id in actions && KeyOf(actions[id], k))
  }

  /** With exact indexes a key without a slash in its value is there exactly when its action has it. */
  lemma MarkedExactly(actions: Actions, keys: set<Bytes>, m: Marker)
    requires Exact(actions, keys) && SLASH !in m.value
    ensures MarkerKey(m) in keys <==> m.id in actions && Marks(actions[m.id], m)
  {
    hide MarkerKey, Values;
    if MarkerKey(m) in keys {
      var id :| id in actions && KeyOf(actions[id], MarkerKey(m));
      var n :| Marks(actions[id], n) && MarkerKey(n) == MarkerKey(m);
      assert Plain(actions[id]) && n.value in Values(actions[id], n.index);
      KeyInjective(m, n);
    }
    if m.id in actions && Marks(actions[m.id], m) { assert KeyOf(actions[m.id], MarkerKey(m)); }
  }

  // ----- changing the indexes -----

  ghost function Keys(index: Index, values: set<Bytes>, id: Id): set<Bytes>
  {
    set v | v in values :: MarkerKey(Marker(index, v, id))
  }

  /** One index after the values of an action changed: stale keys are gone, current ones are there. */
  ghost predicate Moved(before: set<Bytes>, index: Index, id: Id, was: set<Bytes>, now: set<Bytes>, after: set<Bytes>)
  {
    after == before - Keys(index, was, id) + Keys(index, now, id)
  }

  ghost function OldValues(older: Option<Action>, index: Index): set<Bytes>
  {
    if older.None? then {} else Values(older.value, index)
  }

  /** Which keys are there after an action was written over an older version of it. */
  ghost predicate Remarked(before: set<Bytes>, older: Option<Action>, a: Action, after: set<Bytes>)
  {
    forall k :: k in after <==>
      KeyOf(a, k) || (k in before && !(older.Some? && KeyOf(older.value.(id := a.id), k)))
  }

  lemma KeysPrefix(index: Index, values: set<Bytes>, id: Id, k: Bytes)
    requires k in Keys(index, values, id)
    ensures Prefix(index) <= k
  {
    hide Prefix;
    var v :| v in values && MarkerKey(Marker(index, v, id)) == k;
  }

  lemma KeyOfIndex(a: Action, k: Bytes)
    ensures KeyOf(a, k) <==> exists index :: k in Keys(index, Values(a, index), a.id)
  {
    hide MarkerKey, Values;
    if KeyOf(a, k) {
      var m :| Marks(a, m) && MarkerKey(m) == k;
      assert m == Marker(m.index, m.value, a.id);
      assert k in Keys(m.index, Values(a, m.index), a.id);
    }
    forall index | k in Keys(index, Values(a, index), a.id) ensures KeyOf(a, k) {
      var v :| v in Values(a, index) && MarkerKey(Marker(index, v, a.id)) == k;
      assert Marks(a, Marker(index, v, a.id));
    }
  }

  /** A key of one index is touched by the change of that index alone. */
  lemma MovedAt(before: set<Bytes>, index: Index, id: Id, was: set<Bytes>, now: set<Bytes>, after: set<Bytes>, k: Bytes)
    requires Moved(before, index, id, was, now, after)
    ensures !(Prefix(index) <= k) ==> (k in after <==> k in before)
    ensures k in after <==> k in Keys(index, now, id) || (k in before && k !in Keys(index, was, id))
  {
    hide Keys, Prefix;
    if k in Keys(index, was, id) { KeysPrefix(index, was, id, k); }
    if k in Keys(index, now, id) { KeysPrefix(index, now, id, k); }
  }

  lemma AllMoved(s0: set<Bytes>, s1: set<Bytes>, s2: set<Bytes>, s3: set<Bytes>, s4: set<Bytes>, s5: set<Bytes>,
                 older: Option<Action>, a: Action)
    requires Moved(s0, ByState, a.id, OldValues(older, ByState), Values(a, ByState), s1)
    requires Moved(s1, ByCreator, a.id, OldValues(older, ByCreator), Values(a, ByCreator), s2)
    requires Moved(s2, ByType, a.id, OldValues(older, ByType), Values(a, ByType), s3)
    requires Moved(s3, ByHeight, a.id, OldValues(older, ByHeight), Values(a, ByHeight), s4)
    requires Moved(s4, BySuperNode, a.id, OldValues(older, BySuperNode), Values(a, BySuperNode), s5)
    ensures Remarked(s0, older, a, s5)
  {
    hide Moved, Keys, Values, Prefix, KeyOf, OldValues;
    forall k ensures k in s5 <==>
      KeyOf(a, k) || (k in s0 && !(older.Some? && KeyOf(older.value.(id := a.id), k)))
    {
      MovedAt(s0, ByState, a.id, OldValues(older, ByState), Values(a, ByState), s1, k);
      MovedAt(s1, ByCreator, a.id, OldValues(older, ByCreator), Values(a, ByCreator), s2, k);
      MovedAt(s2, ByType, a.id, OldValues(older, ByType), Values(a, ByType), s3, k);
      MovedAt(s3, ByHeight, a.id, OldValues(older, ByHeight), Values(a, ByHeight), s4, k);
      MovedAt(s4, BySuperNode, a.id, OldValues(older, BySuperNode), Values(a, BySuperNode), s5, k);
      KeyAt(older, a, k);
    }
  }

  /** The keys of an action by index, in the form in which the changes speak of them. */
  lemma KeyAt(older: Option<Action>, a: Action, k: Bytes)
    ensures forall i, j :: Prefix(i) <= k && Prefix(j) <= k ==> i == j
    ensures forall i :: k in Keys(i, Values(a, i), a.id) ==> Prefix(i) <= k
    ensures forall i :: k in Keys(i, OldValues(older, i), a.id) ==> Prefix(i) <= k
    ensures KeyOf(a, k) <==> exists i :: k in Keys(i, Values(a, i), a.id)
    ensures older.Some? && KeyOf(older.value.(id := a.id), k) <==> exists i :: k in Keys(i, OldValues(older, i), a.id)
  {
    hide Keys, Values, Prefix, KeyOf, OldValues;
    forall i, j | Prefix(i) <= k && Prefix(j) <= k ensures i == j { PrefixesApart(i, j, k); }
    KeyOfIndex(a, k);
    OldKeyAt(older, a.id, k);
    forall i | k in Keys(i, Values(a, i), a.id) ensures Prefix(i) <= k { KeysPrefix(i, Values(a, i), a.id, k); }
    forall i | k in Keys(i, OldValues(older, i), a.id) ensures Prefix(i) <= k {
      KeysPrefix(i, OldValues(older, i), a.id, k);
    }
  }

  lemma OldKeyAt(older: Option<Action>, id: Id, k: Bytes)
    ensures older.Some? && KeyOf(older.value.(id := id), k) <==> exists i :: k in Keys(i, OldValues(older, i), id)
  {
    if older.Some? {
      var b := older.value.(id := id);
      KeyOfIndex(b, k);
      assert forall i :: Values(b, i) == OldValues(older, i);
    }
    hide KeyOf, Values;
  }

  function Find(actions: Actions, id: Id): Option<Action>
  {
    if id in actions then Some(actions[id]) else None
  }

  /** Writing a plain action over an older version of it keeps the indexes exact. */
  lemma RemarkedExact(actions: Actions, before: set<Bytes>, a: Action, after: set<Bytes>)
    requires Exact(actions, before) && Plain(a) && Remarked(before, Find(actions, a.id), a, after)
    ensures Exact(actions[a.id := a], after)
  {
    var actions' := actions[a.id := a];
    hide MarkerKey, Values;
    forall k ensures k in after <==> exists id :: id in actions' && KeyOf(actions'[id], k) {
      if a.id in actions { assert actions[a.id].(id := a.id) == actions[a.id]; }
      if k in after {
        if KeyOf(a, k) {
          assert KeyOf(actions'[a.id], k);
        } else {
          var id :| id in actions && KeyOf(actions[id], k);
          assert id != a.id;
          assert KeyOf(actions'[id], k);
        }
      }
      if id :| id in actions' && KeyOf(actions'[id], k) {
        if id != a.id {
          assert KeyOf(actions[id], k);
          if a.id in actions && KeyOf(actions[a.id], k) { OneOwner(actions, before, id, a.id, k); }
        }
      }
    }
  }

  /** A key of two stored actions is a key of one. */
  lemma OneOwner(actions: Actions, keys: set<Bytes>, id: Id, other: Id, k: Bytes)
    requires Exact(actions, keys) && id in actions && other in actions
    requires KeyOf(actions[id], k) && KeyOf(actions[other], k)
    ensures id == other
  {
    hide MarkerKey, Values;
    var m :| Marks(actions[id], m) && MarkerKey(m) == k;
    var n :| Marks(actions[other], n) && MarkerKey(n) == k;
    assert Plain(actions[id]) && Plain(actions[other]);
    KeyInjective(m, n);
  }

  // ----- the rewriting -----

  predicate Refers(a: Action, address: Address)
  {
    a.creator == address || address in a.superNodes
  }

  function Renamed(x: Address, legacy: Address, new_: Address): Address
  {
    if x == legacy then new_ else x
  }

  function Rewritten(a: Action, legacy: Address, new_: Address): Action
  {
    a.(creator := Renamed(a.creator, legacy, new_),
       superNodes := seq(|a.superNodes|, i requires 0 <= i < |a.superNodes| => Renamed(a.superNodes[i], legacy, new_)))
  }

  /** The address is renamed where it stands, as creator and in each place of the list, and nothing else changes. */
  predicate MigratedTo(a: Action, b: Action, legacy: Address, new_: Address)
  {
    && b.id == a.id && b.state == a.state && b.kind == a.kind && b.height == a.height && b.rest == a.rest
    && b.creator == (if a.creator == legacy then new_ else a.creator)
    && |b.superNodes| == |a.superNodes|
    && forall i :: 0 <= i < |a.superNodes| ==>
      b.superNodes[i] == if a.superNodes[i] == legacy then new_ else a.superNodes[i]
  }

  lemma RewrittenExactly(a: Action, b: Action, legacy: Address, new_: Address)
    ensures b == Rewritten(a, legacy, new_) <==> MigratedTo(a, b, legacy, new_)
  {
    if MigratedTo(a, b, legacy, new_) { assert b.superNodes == Rewritten(a, legacy, new_).superNodes; }
  }

  /** Rewriting every action of the store, as a full scan would. */
  function FullScan(actions: Actions, legacy: Address, new_: Address): Actions
  {
    map id | id in actions :: Rewritten(actions[id], legacy, new_)
  }

  ghost function Affected(actions: Actions, legacy: Address): set<Id>
  {
    set id | id in actions && Refers(actions[id], legacy)
  }

  lemma UntouchedIsSame(a: Action, legacy: Address, new_: Address)
    requires !Refers(a, legacy)
    ensures Rewritten(a, legacy, new_) == a
  {
  }

  /** A full scan leaves no reference to the legacy address, and nothing for a second one to do. */
  lemma LegacyIsGone(actions: Actions, legacy: Address, new_: Address)
    requires legacy != new_
    ensures Affected(FullScan(actions, legacy, new_), legacy) == {}
    ensures FullScan(FullScan(actions, legacy, new_), legacy, new_) == FullScan(actions, legacy, new_)
  {
    var done := FullScan(actions, legacy, new_);
    forall id | id in done ensures !Refers(done[id], legacy) && Rewritten(done[id], legacy, new_) == done[id] {
      UntouchedIsSame(done[id], legacy, new_);
    }
  }

  /** The indexes find exactly the actions that refer to an address. */
  lemma IndexedIsAffected(actions: Actions, keys: set<Bytes>, address: Address, id: Id)
    requires Exact(actions, keys) && SLASH !in address
    ensures id in Affected(actions, address) <==>
      MarkerKey(Marker(ByCreator, address, id)) in keys || MarkerKey(Marker(BySuperNode, address, id)) in keys
  {
    hide MarkerKey, Exact;
    if id in actions { KeyedById(actions, keys, id); }
    MarkedExactly(actions, keys, Marker(ByCreator, address, id));
    MarkedExactly(actions, keys, Marker(BySuperNode, address, id));
  }

  /** With exact indexes, an action is filed under its own state, creator, type, height and supernodes alone. */
  lemma FiledExactly(actions: Actions, keys: set<Bytes>, v: Bytes, id: Id)
    requires Exact(actions, keys) && SLASH !in v && id in actions
    ensures MarkerKey(Marker(ByState, v, id)) in keys <==> actions[id].state == v
    ensures MarkerKey(Marker(ByCreator, v, id)) in keys <==> actions[id].creator == v
    ensures MarkerKey(Marker(ByType, v, id)) in keys <==> actions[id].kind == v
    ensures MarkerKey(Marker(ByHeight, v, id)) in keys <==> actions[id].height == v
    ensures MarkerKey(Marker(BySuperNode, v, id)) in keys <==> v in actions[id].superNodes
  {
    hide MarkerKey, Exact;
    KeyedById(actions, keys, id);
    MarkedExactly(actions, keys, Marker(ByState, v, id));
    MarkedExactly(actions, keys, Marker(ByCreator, v, id));
    MarkedExactly(actions, keys, Marker(ByType, v, id));
    MarkedExactly(actions, keys, Marker(ByHeight, v, id));
    MarkedExactly(actions, keys, Marker(BySuperNode, v, id));
  }

  ghost predicate Finds(actions: Actions, keys: set<Bytes>, index: Index, value: Bytes, found: seq<Action>)
  {
    && (forall a :: a in found ==>
            exists id :: MarkerKey(Marker(index, value, id)) in keys && id in actions && actions[id] == a)
    && (forall id :: MarkerKey(Marker(index, value, id)) in keys && id in actions ==> actions[id] in found)
  }

  /** The identifier at a place is not in the order and was not met before. */
  ghost predicate New(order: seq<Id>, found: seq<Action>, i: nat)
    requires i < |found|
  {
    found[i].id !in order && forall j :: 0 <= j < i ==> found[j].id != found[i].id
  }

  /** The new identifiers among the first `n`, each where it is first met. */
  ghost function FirstMet(order: seq<Id>, found: seq<Action>, n: nat): seq<Id>
    requires n <= |found|
  {
    if n == 0 then []
    else FirstMet(order, found, n - 1) + if New(order, found, n - 1) then [found[n - 1].id] else []
  }

  /** The actions seen, with those among the first `n` whose identifier was not seen yet. */
  ghost function Gathered(seen: Actions, found: seq<Action>, n: nat): Actions
    requires n <= |found|
  {
    if n == 0 then seen
    else
      var before, a := Gathered(seen, found, n - 1), found[n - 1];
      if a.id in before then before else before[a.id := a]
  }

  lemma {:induction false} GatheredHolds(seen: Actions, found: seq<Action>, n: nat, id: Id)
    requires n <= |found|
    ensures id in Gathered(seen, found, n) <==> id in seen || exists j :: 0 <= j < n && found[j].id == id
    ensures id in Gathered(seen, found, n) && id !in seen ==>
      Gathered(seen, found, n)[id] in found && Gathered(seen, found, n)[id].id == id
    ensures id in seen ==> Gathered(seen, found, n)[id] == seen[id]
  {
    if n > 0 { GatheredHolds(seen, found, n - 1, id); }
  }

  lemma {:induction false} GatheredInOrder(seen: Actions, order: seq<Id>, found: seq<Action>, n: nat)
    requires n <= |found| && Elements(order) == seen.Keys && Distinct(order)
    ensures Elements(order + FirstMet(order, found, n)) == Gathered(seen, found, n).Keys
    ensures Distinct(order + FirstMet(order, found, n))
    ensures n < |found| ==> (New(order, found, n) <==> found[n].id !in Gathered(seen, found, n))
  {
    if n == 0 {
      assert order + [] == order;
    } else {
      var all := order + FirstMet(order, found, n - 1);
      GatheredInOrder(seen, order, found, n - 1);
      if New(order, found, n - 1) {
        Appended(all, found[n - 1].id);
        assert all + [found[n - 1].id] == order + FirstMet(order, found, n);
      } else {
        assert order + FirstMet(order, found, n) == all;
      }
    }
    hide FirstMet, Distinct, Gathered;
    if n < |found| {
      GatheredHolds(seen, found, n, found[n].id);
      assert found[n].id in order <==> found[n].id in Elements(order);
    }
  }

  // ----- the keeper -----

  class Keeper {
    var actions: Actions
    /** The keys of all indexes; the value under each is a mere marker. */
    var keys: set<Bytes>
    /** The identifiers written so far, in order. */
    var writes: seq<Id>

    constructor ()
      ensures actions == map[] && keys == {} && writes == []
      ensures Exact(actions, keys)
    {
      actions, keys, writes := map[], {}, [];
    }

    /** One single-valued index of `SetAction`. */
    method Move(index: Index, older: Option<Bytes>, value: Bytes, id: Id, ghost was: set<Bytes>, ghost now: set<Bytes>)
      requires was == (if older.Some? then {older.value} else {}) && now == {value}
      modifies this`keys
      ensures Moved(old(keys), index, id, was, now, keys)
    {
      hide MarkerKey;
      if older.Some? && older.value != value {
        keys := keys - {MarkerKey(Marker(index, older.value, id))};
      }
      keys := keys + {MarkerKey(Marker(index, value, id))};
    }

    /** The supernode index of `SetAction`: stale keys go, current ones are set. */
    method MoveSuperNodes(older: seq<Address>, current: seq<Address>, id: Id,
                          ghost was: set<Bytes>, ghost now: set<Bytes>)
      requires was == Elements(older) && now == Elements(current)
      modifies this`keys
      ensures Moved(old(keys), BySuperNode, id, was, now, keys)
    {
      hide MarkerKey;
      ghost var stale := Elements(older) - Elements(current);
      var todo := set sn | sn in older && sn !in current;
      while todo != {}
        invariant todo <= stale && keys == old(keys) - Keys(BySuperNode, stale - todo, id)
        decreases todo
      {
        var sn :| sn in todo;
        assert Keys(BySuperNode, stale - (todo - {sn}), id) ==
          Keys(BySuperNode, stale - todo, id) + {MarkerKey(Marker(BySuperNode, sn, id))};
        keys := keys - {MarkerKey(Marker(BySuperNode, sn, id))};
        todo := todo - {sn};
      }
      ghost var mid := keys;
      todo := set sn | sn in current;
      while todo != {}
        invariant todo <= Elements(current) && keys == mid + Keys(BySuperNode, Elements(current) - todo, id)
        decreases todo
      {
        var sn :| sn in todo;
        assert Keys(BySuperNode, Elements(current) - (todo - {sn}), id) ==
          Keys(BySuperNode, Elements(current) - todo, id) + {MarkerKey(Marker(BySuperNode, sn, id))};
        keys := keys + {MarkerKey(Marker(BySuperNode, sn, id))};
        todo := todo - {sn};
      }
      assert stale - {} == stale && Elements(current) - {} == Elements(current);
    }

    /** `SetAction`: writes the action and brings every index up to date. */
    method SetAction(a: Action)
      modifies this
      ensures actions == old(actions)[a.id := a]
      ensures writes == old(writes) + [a.id]
      ensures Remarked(old(keys), Find(old(actions), a.id), a, keys)
      ensures Exact(old(actions), old(keys)) && Plain(a) ==> Exact(actions, keys)
    {
      ghost var s0, was := keys, actions;
      var older := Find(actions, a.id);
      actions := actions[a.id := a];
      writes := writes + [a.id];
      Reindex(older, a);
      hide Remarked, Exact, Plain;
      if Exact(was, s0) && Plain(a) { RemarkedExact(was, s0, a, keys); }
    }

    /** The index part of `SetAction`. */
    method Reindex(older: Option<Action>, a: Action)
      modifies this`keys
      ensures Remarked(old(keys), older, a, keys)
    {
      assert Elements<Address>([]) == {};
      hide Moved, Remarked;
      ghost var s0 := keys;
      Move(ByState, if older.Some? then Some(older.value.state) else None, a.state, a.id,
           OldValues(older, ByState), Values(a, ByState));
      ghost var s1 := keys;
      Move(ByCreator, if older.Some? then Some(older.value.creator) else None, a.creator, a.id,
           OldValues(older, ByCreator), Values(a, ByCreator));
      ghost var s2 := keys;
      Move(ByType, if older.Some? then Some(older.value.kind) else None, a.kind, a.id,
           OldValues(older, ByType), Values(a, ByType));
      ghost var s3 := keys;
      Move(ByHeight, if older.Some? then Some(older.value.height) else None, a.height, a.id,
           OldValues(older, ByHeight), Values(a, ByHeight));
      ghost var s4 := keys;
      MoveSuperNodes(if older.Some? then older.value.superNodes else [], a.superNodes, a.id,
                     OldValues(older, BySuperNode), Values(a, BySuperNode));
      AllMoved(s0, s1, s2, s3, s4, keys, older, a);
    }

    /**
     `getActionsByIndexPrefix`: scans the range of the prefix and reads the identifier behind it; a key without
     an action is skipped.
     */
    method ActionsBy(index: Index, value: Bytes) returns (found: seq<Action>)
      ensures Finds(actions, keys, index, value, found)
    {
      hide Prefix, InRange, PrefixEnd;
      var prefix := ScanPrefix(index, value);
      var end := PrefixEnd(prefix);
      var todo := set k | k in keys && InRange(k, prefix, end);
      forall k ensures InRange(k, prefix, end) <==> prefix <= k { RangeIsPrefix(k, prefix); }
      found := [];
      while todo != {}
        invariant todo <= set k | k in keys && prefix <= k
        invariant forall a :: a in found ==>
          exists id :: MarkerKey(Marker(index, value, id)) in keys && id in actions && actions[id] == a
        invariant forall id :: MarkerKey(Marker(index, value, id)) in keys - todo && id in actions ==>
          actions[id] in found
        decreases todo
      {
        var k :| k in todo;
        var id := k[|prefix|..];
        assert k == MarkerKey(Marker(index, value, id));
        assert forall other :: MarkerKey(Marker(index, value, other)) == k ==> other == id by {
          assert forall other :: MarkerKey(Marker(index, value, other))[|prefix|..] == other;
        }
        todo := todo - {k};
        if id !in actions { continue; }
        found := found + [actions[id]];
      }
    }

    /** Notes the actions of a list that were not seen yet, in the order in which they are first met. */
    static method Collect(seen: Actions, order: seq<Id>, found: seq<Action>) returns (seen': Actions, order': seq<Id>)
      requires Elements(order) == seen.Keys && Distinct(order)
      ensures order' == order + FirstMet(order, found, |found|)
      ensures Elements(order') == seen'.Keys && Distinct(order')
      ensures forall id :: id in seen' <==> id in seen || exists a :: a in found && a.id == id
      ensures forall id :: id in seen' ==>
        (id in seen && seen'[id] == seen[id]) || (seen'[id] in found && seen'[id].id == id)
    {
      hide New, Distinct;
      seen', order' := seen, order;
      for i := 0 to |found|
        invariant order' == order + FirstMet(order, found, i)
        invariant seen' == Gathered(seen, found, i)
      {
        GatheredInOrder(seen, order, found, i);
        var a := found[i];
        if a.id !in seen' {
          seen' := seen'[a.id := a];
          order' := order' + [a.id];
        }
      }
      GatheredInOrder(seen, order, found, |found|);
      hide FirstMet, Gathered;
      forall id ensures id in seen' <==> id in seen || exists a :: a in found && a.id == id
        ensures id in seen' && id !in seen ==> seen'[id] in found && seen'[id].id == id
        ensures id in seen ==> seen'[id] == seen[id]
      {
        GatheredHolds(seen, found, |found|, id);
      }
    }

    /** Renames the address in one action. */
    static method RewriteAction(a: Action, legacy: Address, new_: Address) returns (r: Action)
      ensures r == Rewritten(a, legacy, new_) && MigratedTo(a, r, legacy, new_)
    {
      r := a;
      if r.creator == legacy { r := r.(creator := new_); }
      var nodes := a.superNodes;
      for i := 0 to |a.superNodes|
        invariant |nodes| == |a.superNodes|
        invariant forall k :: 0 <= k < |nodes| ==>
          nodes[k] == if k < i then Renamed(a.superNodes[k], legacy, new_) else a.superNodes[k]
      {
        if nodes[i] == legacy { nodes := nodes[i := new_]; }
      }
      r := r.(superNodes := nodes);
      assert nodes == Rewritten(a, legacy, new_).superNodes;
    }

    /** The actions that refer to an address, each once, as they are stored. */
    method FindAffected(legacy: Address) returns (seen: Actions, order: seq<Id>)
      requires Exact(actions, keys) && SLASH !in legacy
      ensures Distinct(order) && Elements(order) == seen.Keys == Affected(actions, legacy)
      ensures forall id :: id in seen ==> id in actions && seen[id] == actions[id]
    {
      hide Exact, Finds;
      var byCreator := ActionsBy(ByCreator, legacy);
      var bySuperNode := ActionsBy(BySuperNode, legacy);
      seen, order := Collect(map[], [], byCreator);
      ghost var first := seen;
      seen, order := Collect(seen, order, bySuperNode);
      assert forall id :: id in seen && id in first && seen[id] == first[id] ==>
        seen[id] in byCreator && seen[id].id == id;
      SeenIsAffected(actions, keys, legacy, byCreator, bySuperNode, seen);
    }

    /** The last loop of `MigrateActions`: rewrites each action that was found and writes it once. */
    method WriteBack(seen: Actions, order: seq<Id>, legacy: Address, new_: Address)
      requires Exact(actions, keys) && SLASH !in new_
      requires Distinct(order) && forall id :: id in order ==> id in seen && id in actions && seen[id] == actions[id]
      modifies this
      ensures Exact(actions, keys) && actions.Keys == old(actions).Keys && writes == old(writes) + order
      ensures forall id :: id in actions ==>
        actions[id] == if id in order then Rewritten(old(actions)[id], legacy, new_) else old(actions)[id]
    {
      hide Exact, Rewritten, Remarked, Plain;
      ghost var start := actions;
      for i := 0 to |order|
        invariant Exact(actions, keys) && actions.Keys == start.Keys
        invariant forall id :: id in start ==>
          actions[id] == if id in order[..i] then Rewritten(start[id], legacy, new_) else start[id]
        invariant writes == old(writes) + order[..i]
      {
        var id := order[i];
        assert order[..i + 1] == order[..i] + [id];
        KeyedById(start, old(keys), id);
        RewrittenPlain(start[id], legacy, new_);
        var a := RewriteAction(seen[id], legacy, new_);
        SetAction(a);
      }
      assert order[..|order|] == order;
    }

    /**
     `MigrateActions`: the store is the one a full scan would leave, every action that refers to the legacy
     address is written exactly once and no other is, and the indexes stay exact. When no action refers to
     it, nothing is written. Addresses are bech32 strings, which hold no slash.
     */
    method MigrateActions(legacy: Address, new_: Address)
      requires Exact(actions, keys) && SLASH !in legacy && SLASH !in new_
      modifies this
      ensures actions == FullScan(old(actions), legacy, new_)
      ensures actions.Keys == old(actions).Keys
      ensures forall id :: id in actions ==> MigratedTo(old(actions)[id], actions[id], legacy, new_)
      ensures Exact(actions, keys)
      ensures exists order ::
        writes == old(writes) + order && Distinct(order) && Elements(order) == Affected(old(actions), legacy)
      ensures Affected(old(actions), legacy) == {} ==> actions == old(actions) && writes == old(writes)
    {
      hide Exact, Rewritten, Distinct, Refers, MigratedTo;
      var seen, order := FindAffected(legacy);
      assert forall id :: id in order <==> id in Elements(order);
      assert order != [] ==> order[0] in order;
      WriteBack(seen, order, legacy, new_);
      forall id | id in actions && id !in order ensures Rewritten(old(actions)[id], legacy, new_) == old(actions)[id] {
        assert id !in Affected(old(actions), legacy);
        UntouchedIsSame(old(actions)[id], legacy, new_);
      }
      forall id | id in actions ensures MigratedTo(old(actions)[id], actions[id], legacy, new_) {
        RewrittenExactly(old(actions)[id], actions[id], legacy, new_);
      }
    }
  }

  lemma KeyedById(actions: Actions, keys: set<Bytes>, id: Id)
    requires Exact(actions, keys) && id in actions
    ensures actions[id].id == id && Plain(actions[id])
  {
  }

  lemma Appended(xs: seq<Id>, x: Id)
    requires Distinct(xs) && x !in Elements(xs)
    ensures Distinct(xs + [x]) && Elements(xs + [x]) == Elements(xs) + {x}
  {
  }

  lemma RewrittenPlain(a: Action, legacy: Address, new_: Address)
    requires Plain(a) && SLASH !in new_
    ensures Rewritten(a, legacy, new_).id == a.id && Plain(Rewritten(a, legacy, new_))
  {
    var r := Rewritten(a, legacy, new_);
    forall index, v | v in Values(r, index) ensures SLASH !in v {
      if index == BySuperNode {
        var i :| 0 <= i < |r.superNodes| && r.superNodes[i] == v;
        assert a.superNodes[i] in Values(a, BySuperNode);
      } else if index == ByCreator {
        assert a.creator in Values(a, ByCreator);
      } else {
        assert v in Values(a, index);
      }
    }
  }

  /** With exact indexes a lookup finds the marked actions under their own identifiers. */
  lemma FindsExactly(actions: Actions, keys: set<Bytes>, index: Index, value: Bytes, found: seq<Action>, id: Id)
    requires Exact(actions, keys) && Finds(actions, keys, index, value, found) && SLASH !in value
    ensures (exists a :: a in found && a.id == id) <==> MarkerKey(Marker(index, value, id)) in keys
    ensures forall a :: a in found && a.id == id ==> id in actions && actions[id] == a
  {
    hide MarkerKey, Plain;
    if MarkerKey(Marker(index, value, id)) in keys { MarkedExactly(actions, keys, Marker(index, value, id)); }
  }

  /** The two lookups together find every affected action, as it is stored. */
  lemma SeenIsAffected(actions: Actions, keys: set<Bytes>, legacy: Address,
                       byCreator: seq<Action>, bySuperNode: seq<Action>, seen: Actions)
    requires Exact(actions, keys) && SLASH !in legacy
    requires Finds(actions, keys, ByCreator, legacy, byCreator)
    requires Finds(actions, keys, BySuperNode, legacy, bySuperNode)
    requires forall id :: id in seen <==>
      (exists a :: a in byCreator && a.id == id) || (exists a :: a in bySuperNode && a.id == id)
    requires forall id :: id in seen ==> seen[id].id == id && (seen[id] in byCreator || seen[id] in bySuperNode)
    ensures seen.Keys == Affected(actions, legacy)
    ensures forall id :: id in seen ==> id in actions && seen[id] == actions[id]
  {
    hide Exact, Finds, MarkerKey, Refers;
    forall id ensures id in seen <==> id in Affected(actions, legacy)
      ensures id in seen ==> id in actions && seen[id] == actions[id]
    {
      IndexedIsAffected(actions, keys, legacy, id);
      FindsExactly(actions, keys, ByCreator, legacy, byCreator, id);
      FindsExactly(actions, keys, BySuperNode, legacy, bySuperNode, id);
    }
  }
}
