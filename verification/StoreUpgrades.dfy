/**
 Plans that bring the committed stores of a chain to the stores an application expects. A plan is a pair of
 sets and a list of renames; the code builds it with loops over unordered maps and hands it on as sorted lists.
 */
module StoreUpgrades {
  import opened Bytes
  import opened Lex

  type Name = Bytes

  const LEGACY: Name := Ascii("Consensus")
  const CONSENSUS: Name := Ascii("consensus")

  datatype Rename = Rename(oldKey: Name, newKey: Name)

  /** The store upgrades that a release declares, and that a loader hands to the store. */
  datatype Upgrades = Upgrades(added: seq<Name>, deleted: seq<Name>, renamed: seq<Rename>)

  datatype Plan = Plan(added: set<Name>, deleted: set<Name>, renamed: seq<Rename>)

  lemma NamesDiffer()
    ensures LEGACY != CONSENSUS
  {
    assert LEGACY[0] == 67 && CONSENSUS[0] == 99;
  }

  // ----- sorted enumerations -----

  predicate Sorted(names: seq<Name>)
  {
    forall i, j :: 0 <= i < j < |names| ==> Less(names[i], names[j])
  }

  /** The lists of an upgrade enumerate the sets of a plan, in order and without repetition. */
  ghost predicate Lists(u: Upgrades, p: Plan)
  {
    && Sorted(u.added) && Elements(u.added) == p.added
    && Sorted(u.deleted) && Elements(u.deleted) == p.deleted
    && u.renamed == p.renamed
  }

  lemma ElementsFirst(x: Name, rest: seq<Name>)
    ensures Elements([x] + rest) == {x} + Elements(rest)
  {
  }

  lemma ElementsLast(x: Name, before: seq<Name>)
    ensures Elements(before + [x]) == Elements(before) + {x}
  {
  }

  function Insert(names: seq<Name>, x: Name): seq<Name>
  {
    if names == [] then [x]
    else if Less(x, names[0]) then [x] + names
    else if x == names[0] then names
    else [names[0]] + Insert(names[1..], x)
  }

  lemma SortedParts(names: seq<Name>)
    requires Sorted(names) && names != []
    ensures Sorted(names[1..]) && forall y :: y in Elements(names[1..]) ==> Less(names[0], y)
  {
  }

  lemma {:induction false} Inserted(names: seq<Name>, x: Name)
    requires Sorted(names)
    ensures Elements(Insert(names, x)) == Elements(names) + {x}
    ensures Sorted(Insert(names, x))
  {
    hide Less, Elements;
    ElementsFirst(x, names);
    if names == [] {
      assert [x] + names == [x];
    } else {
      var first, rest := names[0], names[1..];
      LessTotal(x, first);
      SortedParts(names);
      assert names == [first] + rest;
      ElementsFirst(first, rest);
      if Less(x, first) {
        forall y | y in Elements(names) ensures Less(x, y) {
          if y != first { LessTrans(x, first, y); }
        }
        SortedFirst(x, names);
      } else if x != first {
        Inserted(rest, x);
        ElementsFirst(first, Insert(rest, x));
        SortedFirst(first, Insert(rest, x));
      }
    }
  }

  lemma SortedFirst(x: Name, rest: seq<Name>)
    requires Sorted(rest) && forall y :: y in Elements(rest) ==> Less(x, y)
    ensures Sorted([x] + rest)
  {
  }

  /** The head of a sorted list is its least element. */
  lemma LeastFirst(a: seq<Name>, x: Name)
    requires Sorted(a) && a != [] && x in a
    ensures x == a[0] || Less(a[0], x)
  {
  }

  /** A set has one sorted enumeration, so a plan does not depend on the order in which a map is visited. */
  lemma {:induction false} SortedUnique(a: seq<Name>, b: seq<Name>)
    requires Sorted(a) && Sorted(b) && Elements(a) == Elements(b)
    ensures a == b
  {
    hide Less;
    assert a != [] ==> a[0] in Elements(a);
    assert b != [] ==> b[0] in Elements(b);
    if a != [] && b != [] {
      assert a[0] in Elements(b) && b[0] in Elements(a);
      LeastFirst(a, b[0]);
      LeastFirst(b, a[0]);
      LessTotal(a[0], b[0]);
      TailElements(a);
      TailElements(b);
      SortedUnique(a[1..], b[1..]);
      assert a == [a[0]] + a[1..] && b == [b[0]] + b[1..];
    }
  }

  lemma TailElements(a: seq<Name>)
    requires Sorted(a) && a != []
    ensures Elements(a[1..]) == Elements(a) - {a[0]}
  {
    hide Less;
    LessIrreflexive(a[0]);
    forall x ensures x in a[1..] <==> x in a && x != a[0] {
      if x in a && x != a[0] {
        var k :| 0 <= k < |a| && a[k] == x;
        assert a[1..][k - 1] == x;
      }
    }
  }

  /** `sort.Strings` on distinct names. */
  method SortStrings(names: seq<Name>) returns (sorted: seq<Name>)
    ensures Sorted(sorted) && Elements(sorted) == Elements(names)
  {
    hide Less, Insert;
    sorted := [];
    for i := 0 to |names|
      invariant Sorted(sorted) && Elements(sorted) == Elements(names[..i])
    {
      Inserted(sorted, names[i]);
      sorted := Insert(sorted, names[i]);
      assert names[..i + 1] == names[..i] + [names[i]];
    }
    assert names[..|names|] == names;
  }

  method SortedKeys(names: set<Name>) returns (keys: seq<Name>)
    ensures Sorted(keys) && Elements(keys) == names
  {
    hide Less;
    keys := [];
    var todo := names;
    while todo != {}
      invariant todo <= names && Elements(keys) == names - todo
      decreases todo
    {
      var name :| name in todo;
      ElementsLast(name, keys);
      keys := keys + [name];
      todo := todo - {name};
    }
    keys := SortStrings(keys);
  }

  method UniqueSortedStores(names: seq<Name>) returns (out: seq<Name>)
    ensures Sorted(out) && Elements(out) == Elements(names)
  {
    hide Less;
    var unique: set<Name> := {};
    for i := 0 to |names|
      invariant unique == Elements(names[..i])
    {
      unique := unique + {names[i]};
      assert names[..i + 1] == names[..i] + [names[i]];
    }
    assert names[..|names|] == names;
    out := SortedKeys(unique);
  }

  // ----- what the base declares, and what a plan does -----

  ghost function BaseAdded(base: Option<Upgrades>): set<Name>
  {
    if base.None? then {} else Elements(base.value.added)
  }

  ghost function BaseDeleted(base: Option<Upgrades>): set<Name>
  {
    if base.None? then {} else Elements(base.value.deleted)
  }

  function BaseRenamed(base: Option<Upgrades>): seq<Rename>
  {
    if base.None? then [] else base.value.renamed
  }

  ghost function Olds(renames: seq<Rename>): set<Name>
  {
    set r | r in renames :: r.oldKey
  }

  ghost function News(renames: seq<Rename>): set<Name>
  {
    set r | r in renames :: r.newKey
  }

  /** The stores after a plan was applied to the committed ones. */
  ghost function Apply(existing: set<Name>, p: Plan): set<Name>
  {
    existing - p.deleted - Olds(p.renamed) + p.added + News(p.renamed)
  }

  const NO_CHANGE: Plan := Plan({}, {}, [])

  // ----- adding what is missing -----

  ghost function AddOnly(base: Option<Upgrades>, existing: set<Name>): Plan
  {
    Plan(BaseAdded(base) - existing, {}, [])
  }

  /** `computeAddOnlyStoreUpgrades`. */
  method ComputeAddOnly(base: Option<Upgrades>, existing: Option<set<Name>>) returns (u: Upgrades)
    ensures Lists(u, AddOnly(base, if existing.None? then {} else existing.value))
  {
    hide Less;
    if base.None? { return Upgrades([], [], []); }
    var there := if existing.None? then {} else existing.value;
    var names := base.value.added;
    var added: set<Name> := {};
    for i := 0 to |names|
      invariant added == Elements(names[..i]) - there
    {
      if names[i] !in there { added := added + {names[i]}; }
      assert names[..i + 1] == names[..i] + [names[i]];
    }
    assert names[..|names|] == names;
    var keys := SortedKeys(added);
    u := Upgrades(keys, [], []);
  }

  /** Adding only loses nothing, mounts all that is declared, and has nothing left to do. */
  lemma AddOnlyKeeps(base: Option<Upgrades>, existing: set<Name>)
    ensures Apply(existing, AddOnly(base, existing)) == existing + BaseAdded(base)
    ensures AddOnly(base, Apply(existing, AddOnly(base, existing))) == NO_CHANGE
  {
  }

  // ----- the adaptive plan -----

  /** The difference between expected and existing stores, merged with what the base declares. */
  ghost function Adaptive(base: Option<Upgrades>, expected: set<Name>, existing: set<Name>): Plan
  {
    Plan(BaseAdded(base) + expected - existing, BaseDeleted(base) * existing + (existing - expected), BaseRenamed(base))
  }

  method FromList(names: seq<Name>) returns (all: set<Name>)
    ensures all == Elements(names)
  {
    all := {};
    for i := 0 to |names|
      invariant all == Elements(names[..i])
    {
      all := all + {names[i]};
      assert names[..i + 1] == names[..i] + [names[i]];
    }
    assert names[..|names|] == names;
  }

  /** Visits `from` in no particular order and adds to `to` what is not in `known`. */
  method AddMissing(to: set<Name>, from: set<Name>, known: set<Name>) returns (all: set<Name>)
    ensures all == to + (from - known)
  {
    all := to;
    var todo := from;
    while todo != {}
      invariant todo <= from && all == to + (from - todo - known)
      decreases todo
    {
      var name :| name in todo;
      if name !in known { all := all + {name}; }
      todo := todo - {name};
    }
  }

  /** Visits a set in no particular order and deletes what is in `known`, or what is not. */
  method Prune(names: set<Name>, known: set<Name>, inKnown: bool) returns (left: set<Name>)
    ensures left == if inKnown then names - known else names * known
  {
    left := names;
    var todo := names;
    while todo != {}
      invariant todo <= left <= names
      invariant forall x :: x in left <==> x in names && (x in todo || (x in known) != inKnown)
      decreases todo
    {
      var name :| name in todo;
      if (name in known) == inKnown { left := left - {name}; }
      todo := todo - {name};
    }
  }

  /**
   `computeAdaptiveStoreUpgrades`. What it adds is new, what it deletes is there, and no store is in both
   lists: the last pass over the additions finds nothing to delete.
   */
  method ComputeAdaptive(base: Option<Upgrades>, expected: Option<set<Name>>, existing: Option<set<Name>>)
    returns (u: Upgrades)
    ensures Lists(u, Adaptive(base, if expected.None? then {} else expected.value,
      if existing.None? then {} else existing.value))
    ensures existing.Some? ==> Elements(u.added) !! existing.value && Elements(u.deleted) <= existing.value
    ensures Elements(u.added) !! Elements(u.deleted)
  {
    hide Less;
    var want := if expected.None? then {} else expected.value;
    var there := if existing.None? then {} else existing.value;
    var renamed: seq<Rename> := [];
    var added: set<Name> := {};
    var deleted: set<Name> := {};
    if base.Some? {
      renamed := base.value.renamed;
      added := FromList(base.value.added);
      deleted := FromList(base.value.deleted);
    }
    added := AddMissing(added, want, there);
    deleted := AddMissing(deleted, there, want);
    added := Prune(added, there, true);
    deleted := Prune(deleted, there, false);
    ghost var before := added;
    added := Prune(added, deleted, true);
    assert added == before;
    assert added == BaseAdded(base) + want - there;
    assert deleted == BaseDeleted(base) * there + (there - want);
    var adds := SortedKeys(added);
    var deletes := SortedKeys(deleted);
    u := Upgrades(adds, deletes, renamed);
  }

  /**
   The base and the renames ask for nothing that the application does not have, and take away nothing that it
   has unless a rename brings it back.
   */
  ghost predicate Agrees(base: Option<Upgrades>, expected: set<Name>, existing: set<Name>, renames: seq<Rename>)
  {
    && BaseAdded(base) - existing <= expected
    && News(renames) <= expected
    && (BaseDeleted(base) + Olds(renames)) * existing * expected <= News(renames)
  }

  /** The adaptive plan leads to the expected stores exactly when the base agrees with them. */
  lemma AdaptiveReaches(base: Option<Upgrades>, expected: set<Name>, existing: set<Name>)
    ensures Apply(existing, Adaptive(base, expected, existing)) == expected
       <==> Agrees(base, expected, existing, BaseRenamed(base))
  {
    hide Olds, News;
    var r := Apply(existing, Adaptive(base, expected, existing));
    var rs := BaseRenamed(base);
    assert forall x :: x in r <==>
      || (x in existing && x in expected && x !in BaseDeleted(base) && x !in Olds(rs))
      || (x !in existing && (x in BaseAdded(base) || x in expected))
      || x in News(rs);
    if r == expected {
      assert forall x :: x in BaseAdded(base) - existing ==> x in r;
      assert forall x :: x in News(rs) ==> x in r;
      assert forall x :: x in (BaseDeleted(base) + Olds(rs)) * existing * expected ==> x in r;
    }
    if Agrees(base, expected, existing, rs) {
      forall x ensures x in r <==> x in expected {
        assert x in existing && x in expected && (x in BaseDeleted(base) || x in Olds(rs)) ==>
          x in (BaseDeleted(base) + Olds(rs)) * existing * expected;
        assert x !in existing && x in BaseAdded(base) ==> x in BaseAdded(base) - existing;
      }
    }
  }

  // ----- the plan that renames the consensus store -----

  function Filter<T>(xs: seq<T>, keep: T -> bool): seq<T>
  {
    if xs == [] then []
    else Filter(xs[..|xs| - 1], keep) + if keep(xs[|xs| - 1]) then [xs[|xs| - 1]] else []
  }

  lemma {:induction false} Filtered<T>(xs: seq<T>, keep: T -> bool, x: T)
    ensures x in Filter(xs, keep) <==> x in xs && keep(x)
    ensures |Filter(xs, keep)| <= |xs|
  {
    if xs != [] {
      Filtered(xs[..|xs| - 1], keep, x);
      assert x in xs <==> x in xs[..|xs| - 1] || x == xs[|xs| - 1];
    }
  }

  function Possible(renames: seq<Rename>, existing: set<Name>): seq<Rename>
  {
    Filter(renames, (r: Rename) => r.oldKey in existing && r.newKey !in existing)
  }

  /** The plan before the consensus store is looked at. */
  ghost function Plain(base: Option<Upgrades>, expected: Option<set<Name>>, existing: set<Name>): Plan
  {
    if expected.Some? then
      Adaptive(base, expected.value, existing).(renamed := Possible(BaseRenamed(base), existing))
    else
      Plan(BaseAdded(base) - existing, BaseDeleted(base) * existing, Possible(BaseRenamed(base), existing))
  }

  /** `computeConsensusStoreUpgrades`, on sets. */
  ghost function Consensus(base: Option<Upgrades>, expected: Option<set<Name>>, existing: set<Name>): Plan
  {
    var p := Plain(base, expected, existing);
    if LEGACY in existing && CONSENSUS !in existing then
      Plan(p.added - {CONSENSUS}, p.deleted - {LEGACY}, p.renamed + [Rename(LEGACY, CONSENSUS)])
    else if LEGACY !in existing && CONSENSUS !in existing then
      if expected.None? then p.(added := p.added + {CONSENSUS}) else p
    else if LEGACY in existing then
      p.(deleted := p.deleted - {LEGACY})
    else
      p
  }

  method FilterStores(names: seq<Name>, existing: set<Name>, wanted: bool) returns (out: seq<Name>)
    ensures out == Filter(names, x => (x in existing) == wanted)
  {
    out := [];
    for i := 0 to |names|
      invariant out == Filter(names[..i], x => (x in existing) == wanted)
    {
      assert names[..i + 1][..i] == names[..i];
      if (names[i] in existing) == wanted { out := out + [names[i]]; }
    }
    assert names[..|names|] == names;
  }

  method FilterStoreRenames(renames: seq<Rename>, existing: set<Name>) returns (out: seq<Rename>)
    ensures out == Possible(renames, existing)
  {
    out := [];
    for i := 0 to |renames|
      invariant out == Possible(renames[..i], existing)
    {
      assert renames[..i + 1][..i] == renames[..i];
      if renames[i].oldKey in existing && renames[i].newKey !in existing { out := out + [renames[i]]; }
    }
    assert renames[..|renames|] == renames;
  }

  /**
   `removeStoreName`: the kept names move to the front of the array they are in; nothing behind them is
   written.
   */
  method RemoveStoreName(names: array<Name>, n: nat, target: Name) returns (kept: nat)
    requires n <= names.Length
    modifies names
    ensures kept <= n
    ensures names[..kept] == Filter(old(names[..n]), x => x != target)
    ensures names[kept..] == old(names[kept..])
  {
    kept := 0;
    ghost var was := names[..];
    assert was[..n] == names[..n];
    for i := 0 to n
      invariant kept <= i
      invariant names[..kept] == Filter(was[..i], x => x != target)
      invariant forall k :: kept <= k < names.Length ==> names[k] == was[k]
    {
      assert was[..i + 1][..i] == was[..i];
      if names[i] != target {
        ghost var front := names[..kept];
        names[kept] := names[i];
        kept := kept + 1;
        assert names[..kept] == front + [was[i]];
      }
    }
  }

  /** A list without a name, through the array that the slice stands for. */
  method Without(names: seq<Name>, target: Name) returns (out: seq<Name>)
    ensures Elements(out) == Elements(names) - {target}
  {
    var a := new Name[|names|](i requires 0 <= i < |names| => names[i]);
    assert a[..|names|] == names;
    var kept := RemoveStoreName(a, |names|, target);
    out := a[..kept];
    forall x ensures x in out <==> x in names && x != target { Filtered(names, y => y != target, x); }
  }

  method ComputePlain(base: Option<Upgrades>, expected: Option<set<Name>>, existing: set<Name>)
    returns (added: seq<Name>, deleted: seq<Name>, renamed: seq<Rename>)
    ensures Plan(Elements(added), Elements(deleted), renamed) == Plain(base, expected, existing)
  {
    hide Less, Filter;
    if expected.Some? {
      var u := ComputeAdaptive(base, expected, Some(existing));
      added, deleted := u.added, u.deleted;
      renamed := FilterStoreRenames(u.renamed, existing);
    } else {
      var b := if base.None? then Upgrades([], [], []) else base.value;
      added := FilterStores(b.added, existing, false);
      deleted := FilterStores(b.deleted, existing, true);
      renamed := FilterStoreRenames(b.renamed, existing);
      forall x ensures x in added <==> x in BaseAdded(base) - existing {
        Filtered(b.added, y => (y in existing) == false, x);
      }
      forall x ensures x in deleted <==> x in BaseDeleted(base) * existing {
        Filtered(b.deleted, y => (y in existing) == true, x);
      }
    }
  }

  method ComputeConsensus(base: Option<Upgrades>, expected: Option<set<Name>>, existing: set<Name>)
    returns (u: Upgrades)
    ensures Lists(u, Consensus(base, expected, existing))
  {
    hide Less, Plain, Ascii;
    var added, deleted, renamed := ComputePlain(base, expected, existing);
    var hasLegacy, hasNew := LEGACY in existing, CONSENSUS in existing;
    if hasLegacy && !hasNew {
      added := Without(added, CONSENSUS);
      deleted := Without(deleted, LEGACY);
      renamed := renamed + [Rename(LEGACY, CONSENSUS)];
    } else if !hasLegacy && !hasNew {
      if expected.None? { added := added + [CONSENSUS]; }
    } else if hasLegacy && hasNew {
      deleted := Without(deleted, LEGACY);
    }
    var adds := UniqueSortedStores(added);
    var deletes := UniqueSortedStores(deleted);
    u := Upgrades(adds, deletes, renamed);
  }

  /** The legacy consensus store is never deleted, whatever the base, the application and the disk hold. */
  lemma LegacySurvives(base: Option<Upgrades>, expected: Option<set<Name>>, existing: set<Name>)
    ensures var p := Consensus(base, expected, existing);
      LEGACY !in p.deleted && p.deleted <= existing && (p.added !! existing)
  {
  }

  /** What the consensus plan is meant to leave: the expected stores, and a legacy store that was not renamed. */
  ghost function Goal(expected: set<Name>, existing: set<Name>): set<Name>
  {
    if LEGACY in existing && CONSENSUS in existing then expected + {LEGACY} else expected
  }

  lemma PossibleKeys(renames: seq<Rename>, existing: set<Name>)
    ensures Olds(Possible(renames, existing)) <= existing && News(Possible(renames, existing)) !! existing
  {
    var keep := (r: Rename) => r.oldKey in existing && r.newKey !in existing;
    hide Filter;
    forall r | r in Possible(renames, existing) ensures r.oldKey in existing && r.newKey !in existing {
      Filtered(renames, keep, r);
    }
  }

  lemma RenamedLast(renames: seq<Rename>, r: Rename)
    ensures Olds(renames + [r]) == Olds(renames) + {r.oldKey} && News(renames + [r]) == News(renames) + {r.newKey}
  {
    var all := renames + [r];
    assert forall x :: x in all <==> x in renames || x == r;
    assert r in all;
    forall x ensures x in Olds(all) <==> x in Olds(renames) + {r.oldKey} {
      if x in Olds(renames) { var y :| y in renames && y.oldKey == x; assert y in all; }
    }
    forall x ensures x in News(all) <==> x in News(renames) + {r.newKey} {
      if x in News(renames) { var y :| y in renames && y.newKey == x; assert y in all; }
    }
  }

  /** Which stores the consensus plan leaves, for an application that knows the new store and not the legacy one. */
  lemma ConsensusResult(base: Option<Upgrades>, expected: set<Name>, existing: set<Name>, x: Name)
    requires CONSENSUS in expected && LEGACY !in expected
    ensures var rs := Possible(BaseRenamed(base), existing);
      x in Apply(existing, Consensus(base, Some(expected), existing)) <==>
        || (x in existing && x !in Olds(rs) &&
            ((x in expected && x !in BaseDeleted(base)) || (x == LEGACY && CONSENSUS in existing)))
        || (x !in existing && (x in BaseAdded(base) || x in expected))
        || x in News(rs)
  {
    NamesDiffer();
    var rs := Possible(BaseRenamed(base), existing);
    PossibleKeys(BaseRenamed(base), existing);
    RenamedLast(rs, Rename(LEGACY, CONSENSUS));
    hide Ascii, Olds, News, Possible;
  }

  /**
   The plan reaches its goal exactly when the base agrees with what the application expects, and renames no
   legacy store that is to stay.
   */
  lemma ConsensusReaches(base: Option<Upgrades>, expected: set<Name>, existing: set<Name>)
    requires CONSENSUS in expected && LEGACY !in expected
    ensures var rs := Possible(BaseRenamed(base), existing);
      Apply(existing, Consensus(base, Some(expected), existing)) == Goal(expected, existing) <==>
        Agrees(base, expected, existing, rs) && (CONSENSUS in existing ==> LEGACY !in Olds(rs))
  {
    hide Ascii, Apply, Consensus, Olds, News, Possible;
    var rs := Possible(BaseRenamed(base), existing);
    var r, goal := Apply(existing, Consensus(base, Some(expected), existing)), Goal(expected, existing);
    PossibleKeys(BaseRenamed(base), existing);
    forall x ensures x in r <==>
      || (x in existing && x !in Olds(rs) &&
          ((x in expected && x !in BaseDeleted(base)) || (x == LEGACY && CONSENSUS in existing)))
      || (x !in existing && (x in BaseAdded(base) || x in expected))
      || x in News(rs)
    {
      ConsensusResult(base, expected, existing, x);
    }
    if r == goal {
      assert forall x :: x in BaseAdded(base) - existing ==> x in r;
      assert forall x :: x in News(rs) ==> x in r;
      assert forall x :: x in (BaseDeleted(base) + Olds(rs)) * existing * expected ==> x in r;
    }
    if Agrees(base, expected, existing, rs) && (CONSENSUS in existing ==> LEGACY !in Olds(rs)) {
      forall x ensures x in r <==> x in goal {
        assert x in existing && x in expected && (x in BaseDeleted(base) || x in Olds(rs)) ==>
          x in (BaseDeleted(base) + Olds(rs)) * existing * expected;
        assert x !in existing && x in BaseAdded(base) ==> x in BaseAdded(base) - existing;
      }
    }
  }

  /** The base has nothing to do on these stores: no addition outside, no deletion or possible rename inside. */
  ghost predicate Settled(base: Option<Upgrades>, stores: set<Name>)
  {
    && BaseAdded(base) <= stores
    && BaseDeleted(base) * stores <= {LEGACY}
    && Possible(BaseRenamed(base), stores) == []
  }

  lemma NothingOutside(a: set<Name>, b: set<Name>)
    ensures a - b == {} <==> a <= b
  {
    if a - b == {} {
      forall x | x in a ensures x in b { assert x !in a - b; }
    }
  }

  /** After a plan that reached its goal, planning again finds nothing to do exactly when the base is settled. */
  lemma ReplanIsEmpty(base: Option<Upgrades>, expected: set<Name>, existing: set<Name>)
    requires CONSENSUS in expected && LEGACY !in expected
    requires Apply(existing, Consensus(base, Some(expected), existing)) == Goal(expected, existing)
    ensures Consensus(base, Some(expected), Goal(expected, existing)) == NO_CHANGE
       <==> Settled(base, Goal(expected, existing))
  {
    NamesDiffer();
    hide Ascii, Apply, Possible;
    var goal := Goal(expected, existing);
    var again := Consensus(base, Some(expected), goal);
    NothingOutside(BaseAdded(base), goal);
    NothingOutside(BaseDeleted(base) * goal, {LEGACY});
    assert again.added == BaseAdded(base) - goal;
    assert again.deleted == BaseDeleted(base) * goal - {LEGACY};
    assert again.renamed == Possible(BaseRenamed(base), goal);
  }

  /**
   Without an expected set, whatever the base: the declared changes that are possible, and the consensus store
   under its new name. It is missing afterwards only when the base takes it away, and planning again finds
   nothing to do exactly when it is there and the base is settled.
   */
  lemma ConsensusUnaided(base: Option<Upgrades>, existing: set<Name>)
    ensures var rs := Possible(BaseRenamed(base), existing);
      var r := Apply(existing, Consensus(base, None, existing));
      && r == existing - (BaseDeleted(base) - {LEGACY}) - Olds(rs) - (if CONSENSUS in existing then {} else {LEGACY})
              + (BaseAdded(base) - existing) + News(rs) + (if CONSENSUS in existing then {} else {CONSENSUS})
      && (CONSENSUS !in r <==> CONSENSUS in existing && (CONSENSUS in BaseDeleted(base) || CONSENSUS in Olds(rs)))
      && (Consensus(base, None, r) == NO_CHANGE <==> CONSENSUS in r && Settled(base, r))
  {
    NamesDiffer();
    var rs := Possible(BaseRenamed(base), existing);
    PossibleKeys(BaseRenamed(base), existing);
    RenamedLast(rs, Rename(LEGACY, CONSENSUS));
    hide Ascii, Olds, News, Possible;
    var r := Apply(existing, Consensus(base, None, existing));
    assert forall x :: x in r <==>
      || (x in existing && x !in Olds(rs) &&
          (x !in BaseDeleted(base) || x == LEGACY) && (x == LEGACY ==> CONSENSUS in existing))
      || (x !in existing && x in BaseAdded(base))
      || x in News(rs)
      || (x == CONSENSUS && CONSENSUS !in existing);
    ReplanUnaided(base, r);
  }

  lemma ReplanUnaided(base: Option<Upgrades>, stores: set<Name>)
    ensures Consensus(base, None, stores) == NO_CHANGE <==> CONSENSUS in stores && Settled(base, stores)
  {
    NamesDiffer();
    hide Ascii, Possible;
    var again := Consensus(base, None, stores);
    if CONSENSUS in stores {
      NothingOutside(BaseAdded(base), stores);
      NothingOutside(BaseDeleted(base) * stores, {LEGACY});
      assert again.added == BaseAdded(base) - stores;
      assert again.deleted == BaseDeleted(base) * stores - {LEGACY};
    } else if LEGACY in stores {
      assert again.renamed[|again.renamed| - 1] == Rename(LEGACY, CONSENSUS);
    } else {
      assert CONSENSUS in again.added;
    }
  }
}
