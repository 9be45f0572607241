/**
 The EVM bring-up. Release v1.20.0 mounts the EVM stores and initialises the modules; v1.20.1 does the same
 on a chain that skipped v1.20.0 and only migrates on one that did not.
 */
module BringUp {
  import opened Bytes
  import opened StoreUpgrades
  import RegistrationPolicy

  const EVM: Name := Ascii("evm")
  const FEEMARKET: Name := Ascii("feemarket")
  const PRECISEBANK: Name := Ascii("precisebank")
  const ERC20: Name := Ascii("erc20")
  const EVMIGRATION: Name := Ascii("evmigration")

  const EVM_MODULES: seq<Name> := [EVM, FEEMARKET, PRECISEBANK, ERC20]

  const DECLARED: Upgrades := Upgrades([FEEMARKET, PRECISEBANK, EVM, ERC20, EVMIGRATION], [], [])

  type VersionMap = map<Name, nat>

  /** The parameters of a module: those of its default genesis, those of Lumera, or what governance made of them. */
  datatype Setting = Default | Lumera | Governed(id: nat)

  /** Parameters by module, the end of the migration period (0 for none), and the store with the registration policy. */
  datatype Settings = Settings(params: map<Name, Setting>, deadline: int, policy: RegistrationPolicy.Store)

  /**
   What the upgrades touch: the mounted stores, the stored module versions, how often the bring-up ran, the
   modules that a migration initialised from default genesis, and the settings.
   */
  datatype State = State(
    stores: set<Name>,
    versions: VersionMap,
    bringUps: nat,
    initialised: multiset<Name>,
    settings: Settings)

  /** A release: its modules with their versions, and whether its keepers are wired and its migrations succeed. */
  datatype Release = Release(modules: VersionMap, ready: bool)

  /** The end of the migration period that a network sets for an upgrade at a time, if any. */
  type Network = int -> Option<int>

  datatype UpgradeError = StoreExists | StoresUnknown | PartialState | NotReady

  /** Default genesis of the given modules. */
  function Initialise(s: Settings, modules: set<Name>): Settings
  {
    s.(params := s.params + map n | n in modules :: Default,
       deadline := if EVMIGRATION in modules then 0 else s.deadline)
  }

  /** `RunMigrations`: initialises the modules that are not in the given versions, and reports its own. */
  function Migrated(r: Release, s: State, from: VersionMap): State
  {
    var uninitialised := r.modules.Keys - from.Keys;
    s.(versions := s.versions + r.modules, initialised := s.initialised + multiset(uninitialised),
       settings := Initialise(s.settings, uninitialised))
  }

  /** The versions with the EVM modules entered, so that a migration does not initialise them. */
  function WithEvm(from: VersionMap): VersionMap
  {
    from[EVM := 1][FEEMARKET := 1][PRECISEBANK := 1][ERC20 := 1]
  }

  /** What the bring-up sets after the migrations: parameters of Lumera, the policy, the end of the migration period. */
  function Finalised(net: Network, s: Settings, now: int): Settings
  {
    Settings(s.params[EVM := Lumera][FEEMARKET := Lumera][ERC20 := Lumera],
             if net(now).Some? then net(now).value else s.deadline,
             RegistrationPolicy.Seeded(s.policy))
  }

  /** The handler of v1.20.0. */
  function BroughtUp(net: Network, r: Release, s: State, now: int): Result<State, UpgradeError>
  {
    if !r.ready then Err(NotReady)
    else
      var t := Migrated(r, s, WithEvm(s.versions));
      Ok(t.(bringUps := s.bringUps + 1, settings := Finalised(net, t.settings, now)))
  }

  ghost function Declared(): set<Name>
  {
    Elements(DECLARED.added)
  }

  /** v1.20.0: the store refuses to add what it has. */
  ghost function First(net: Network, r: Release, s: State, now: int): Result<State, UpgradeError>
  {
    if Declared() * s.stores != {} then Err(StoreExists)
    else BroughtUp(net, r, s.(stores := s.stores + Declared()), now)
  }

  ghost predicate NonePresent(versions: VersionMap) { forall n :: n in EVM_MODULES ==> n !in versions }

  ghost predicate AllPresent(versions: VersionMap) { forall n :: n in EVM_MODULES ==> n in versions }

  /** The handler of v1.20.1 decides by the modules it finds. */
  ghost function Handled(net: Network, r: Release, s: State, now: int): Result<State, UpgradeError>
  {
    if NonePresent(s.versions) then BroughtUp(net, r, s, now)
    else if !AllPresent(s.versions) then Err(PartialState)
    else if r.ready then Ok(Migrated(r, s, s.versions))
    else Err(NotReady)
  }

  /** v1.20.1: adds the stores that are missing, then runs its handler; none when the stores cannot be read. */
  ghost function Second(net: Network, r: Release, s: State, now: int): Result<State, UpgradeError>
  {
    Handled(net, r, s.(stores := Apply(s.stores, AddOnly(Some(DECLARED), s.stores))), now)
  }

  // ----- the two paths -----

  predicate HasEvm(r: Release)
  {
    && EVM in r.modules && FEEMARKET in r.modules && PRECISEBANK in r.modules && ERC20 in r.modules
    && EVMIGRATION in r.modules
  }

  lemma EvmMembers(n: Name)
    ensures n in EVM_MODULES <==> n == EVM || n == FEEMARKET || n == PRECISEBANK || n == ERC20
  {
  }

  /** A chain without the EVM: neither its modules nor its stores. */
  ghost predicate PreEvm(s: State)
  {
    NonePresent(s.versions) && Declared() !! s.stores
  }

  lemma EvmEntered(r: Release, versions: VersionMap)
    requires HasEvm(r)
    ensures AllPresent(versions + r.modules) && !NonePresent(versions + r.modules)
  {
    hide Ascii;
    forall n | n in EVM_MODULES ensures n in r.modules { EvmMembers(n); }
    EvmMembers(EVM);
  }

  lemma Missing(s: State)
    ensures Apply(s.stores, AddOnly(Some(DECLARED), s.stores)) == s.stores + Declared()
  {
  }

  /** The modules that two migrations initialise are those that the second would initialise alone. */
  lemma SameInitialised(r0: Release, r1: Release, s: State, from: VersionMap)
    requires HasEvm(r0) && r0.modules.Keys <= r1.modules.Keys && NonePresent(from)
    ensures var first, second, alone := r0.modules.Keys - WithEvm(from).Keys,
        r1.modules.Keys - (from + r0.modules).Keys, r1.modules.Keys - WithEvm(from).Keys;
      && first + second == alone && first !! second
      && s.initialised + multiset(first) + multiset(second) == s.initialised + multiset(alone)
      && EVM !in alone && FEEMARKET !in alone && PRECISEBANK !in alone && ERC20 !in alone
  {
    hide Ascii;
    var x := {EVM, FEEMARKET, PRECISEBANK, ERC20};
    forall n | n in x ensures n !in from && n in r0.modules { EvmMembers(n); }
    hide NonePresent;
    assert WithEvm(from).Keys == from.Keys + x;
    assert (from + r0.modules).Keys == from.Keys + r0.modules.Keys;
  }

  /**
   From any chain without the EVM, v1.20.0 at a time followed by v1.20.1 at any other ends in the state of v1.20.1
   alone at the first time: the same stores, versions, policy, parameters, end of the migration period and
   initialised modules, after one bring-up.
   */
  lemma PathsAgree(net: Network, r0: Release, r1: Release, s: State, t0: int, t1: int)
    requires HasEvm(r0) && HasEvm(r1) && r0.ready && r1.ready && r0.modules.Keys <= r1.modules.Keys
    requires PreEvm(s)
    ensures First(net, r0, s, t0).Ok? && Second(net, r1, First(net, r0, s, t0).value, t1).Ok?
    ensures Second(net, r1, First(net, r0, s, t0).value, t1) == Second(net, r1, s, t0)
    ensures Second(net, r1, s, t0).value.bringUps == s.bringUps + 1
    ensures Second(net, r1, s, t0).value.stores == s.stores + Declared()
  {
    hide RegistrationPolicy.Seeded, Ascii, Apply, AddOnly, Declared, WithEvm, NonePresent,
      AllPresent, HasEvm, Finalised, Initialise;
    var mid := First(net, r0, s, t0).value;
    EvmEntered(r0, s.versions);
    EvmApart(s.versions);
    Missing(s);
    Missing(mid);
    MigratedAgain(net, r0, r1, s.(stores := s.stores + Declared()), t0);
    hide Migrated;
    assert s.stores + Declared() + Declared() == s.stores + Declared();
    assert mid.(stores := mid.stores + Declared()) == mid;
  }

  /** A bring-up and a migration make the state of the later bring-up. */
  lemma MigratedAgain(net: Network, r0: Release, r1: Release, s: State, now: int)
    requires HasEvm(r0) && r0.modules.Keys <= r1.modules.Keys && NonePresent(s.versions)
    requires r0.ready && r1.ready
    ensures var mid := BroughtUp(net, r0, s, now).value;
      Ok(Migrated(r1, mid, mid.versions)) == BroughtUp(net, r1, s, now)
  {
    SameInitialised(r0, r1, s, s.versions);
    SettingsAgain(net, s.settings, r0.modules.Keys - WithEvm(s.versions).Keys,
      r1.modules.Keys - (s.versions + r0.modules).Keys, now);
    hide RegistrationPolicy.Seeded, Ascii, WithEvm, NonePresent, HasEvm, Finalised, Initialise;
    assert s.versions + r0.modules + r1.modules == s.versions + r1.modules;
  }

  /** Later default genesis of other modules leaves what the bring-up set. */
  lemma SettingsAgain(net: Network, s: Settings, first: set<Name>, second: set<Name>, now: int)
    requires EVM !in second && FEEMARKET !in second && ERC20 !in second && EVMIGRATION !in second
    ensures Initialise(Finalised(net, Initialise(s, first), now), second) ==
      Finalised(net, Initialise(s, first + second), now)
  {
    ParamsAgain(s.params, first, second, EVM, FEEMARKET, ERC20);
    hide RegistrationPolicy.Seeded, Ascii;
  }

  lemma ParamsAgain(p: map<Name, Setting>, first: set<Name>, second: set<Name>, x: Name, y: Name, z: Name)
    requires x !in second && y !in second && z !in second
    ensures (p + map n | n in first :: Default)[x := Lumera][y := Lumera][z := Lumera]
      + (map n | n in second :: Default)
         == (p + map n | n in first + second :: Default)[x := Lumera][y := Lumera][z := Lumera]
  {
  }

  /** A bring-up gives three modules the parameters of Lumera, and none of the four its default genesis. */
  lemma BringUpSets(net: Network, r: Release, s: State, now: int, n: Name)
    requires r.ready && n in EVM_MODULES
    ensures BroughtUp(net, r, s, now).value.initialised[n] == s.initialised[n]
    ensures n != PRECISEBANK ==> n in BroughtUp(net, r, s, now).value.settings.params
    ensures n != PRECISEBANK ==> BroughtUp(net, r, s, now).value.settings.params[n] == Lumera
  {
    EvmMembers(n);
    hide RegistrationPolicy.Seeded, Ascii, EVM_MODULES;
    assert n in WithEvm(s.versions);
  }

  /**
   The other modules that are new get their default genesis, once. The end of the migration period is what the
   network sets for the time of the upgrade, or else that of the default genesis or the one before; the policy
   is seeded, the versions are those of the release, and the stores stay.
   */
  lemma BringUpLeaves(net: Network, r: Release, s: State, now: int, n: Name)
    requires r.ready && n !in EVM_MODULES
    ensures var t := BroughtUp(net, r, s, now).value;
      && t.initialised[n] == s.initialised[n] + (if n in r.modules && n !in s.versions then 1 else 0)
      && (n in r.modules && n !in s.versions ==> n in t.settings.params && t.settings.params[n] == Default)
      && t.settings.deadline == (
           if net(now).Some? then net(now).value
           else if EVMIGRATION in r.modules && EVMIGRATION !in s.versions then 0 else s.settings.deadline)
      && t.settings.policy == RegistrationPolicy.Seeded(s.settings.policy)
      && (forall m :: m in t.versions <==> m in s.versions || m in r.modules)
      && (forall m :: m in r.modules ==> t.versions[m] == r.modules[m])
      && t.stores == s.stores && t.bringUps == s.bringUps + 1
  {
    EvmMembers(n);
    EvmMembers(EVMIGRATION);
    assert EVMIGRATION !in EVM_MODULES by { NamesApart(); }
    hide RegistrationPolicy.Seeded, Ascii, EVM_MODULES;
    assert forall m :: m in WithEvm(s.versions) <==>
      m in s.versions || m == EVM || m == FEEMARKET || m == PRECISEBANK || m == ERC20;
    var x := r.modules.Keys - WithEvm(s.versions).Keys;
    assert n in x <==> n in r.modules && n !in s.versions;
    assert multiset(x)[n] == if n in x then 1 else 0;
  }

  lemma NamesApart()
    ensures EVMIGRATION != EVM && EVMIGRATION != FEEMARKET && EVMIGRATION != PRECISEBANK && EVMIGRATION != ERC20
  {
    assert |EVMIGRATION| == 11 && |EVM| == 3 && |FEEMARKET| == 9 && |ERC20| == 5;
    assert EVMIGRATION[0] == 101 && PRECISEBANK[0] == 112;
  }

  /** Some EVM modules without the others: v1.20.1 refuses, whatever the stores and the release. */
  lemma PartialRefused(net: Network, r: Release, s: State, now: int)
    requires !NonePresent(s.versions) && !AllPresent(s.versions)
    ensures Second(net, r, s, now) == Err(PartialState)
  {
  }

  // ----- runs -----

  /** Releases and, between them, blocks that change the settings. */
  datatype Step = Hop0(release: Release, time: int) | Hop1(release: Release, time: int) | Blocks(settings: Settings)

  ghost function Next(net: Network, s: State, step: Step): State
  {
    match step
    case Hop0(r, now) => var o := First(net, r, s, now); if o.Ok? then o.value else s
    case Hop1(r, now) => var o := Second(net, r, s, now); if o.Ok? then o.value else s
    case Blocks(settings) => s.(settings := settings)
  }

  ghost function Run(net: Network, s: State, steps: seq<Step>): State
  {
    if steps == [] then s else Next(net, Run(net, s, steps[..|steps| - 1]), steps[|steps| - 1])
  }

  predicate Usable(step: Step)
  {
    step.Blocks? || HasEvm(step.release)
  }

  /** Before the bring-up no module is there; after it all are, with their stores. */
  ghost predicate Inv(s: State)
  {
    || (s.bringUps == 0 && NonePresent(s.versions))
    || (s.bringUps == 1 && AllPresent(s.versions) && EVMIGRATION in s.versions && Declared() <= s.stores)
  }

  lemma InvFirst(net: Network, r: Release, s: State, now: int)
    requires Inv(s) && HasEvm(r) && First(net, r, s, now).Ok?
    ensures Inv(First(net, r, s, now).value) && s.stores <= First(net, r, s, now).value.stores && s.bringUps == 0
  {
    hide Ascii;
    assert EVM in Declared() by { assert DECLARED.added[2] == EVM; }
    assert s.bringUps == 1 ==> EVM in Declared() * s.stores;
    EvmEntered(r, s.versions);
    assert EVMIGRATION in s.versions + r.modules;
    hide RegistrationPolicy.Seeded, Declared, WithEvm, NonePresent, AllPresent, HasEvm, Finalised, Initialise;
  }

  lemma InvSecond(net: Network, r: Release, s: State, now: int)
    requires Inv(s) && HasEvm(r) && Second(net, r, s, now).Ok?
    ensures Inv(Second(net, r, s, now).value) && s.stores <= Second(net, r, s, now).value.stores
  {
    Missing(s);
    EvmApart(s.versions);
    EvmEntered(r, s.versions);
    assert EVMIGRATION in s.versions + r.modules;
    hide Ascii, RegistrationPolicy.Seeded, Apply, AddOnly, Declared, WithEvm, NonePresent,
      AllPresent, HasEvm, Finalised, Initialise;
  }

  /** The settings of the EVM modules, the end of the migration period and the policy. */
  ghost predicate SameSettings(s: Settings, t: Settings)
  {
    && t.policy == s.policy && t.deadline == s.deadline
    && forall n :: n in EVM_MODULES ==>
        (n in t.params <==> n in s.params) && (n in s.params ==> t.params[n] == s.params[n])
  }

  /** After the bring-up v1.20.1 only migrates. */
  lemma HotfixKeeps(net: Network, r: Release, s: State, now: int)
    requires Inv(s) && s.bringUps == 1 && Second(net, r, s, now).Ok?
    ensures SameSettings(s.settings, Second(net, r, s, now).value.settings)
  {
    EvmApart(s.versions);
    hide Ascii, BroughtUp, Apply, AddOnly, Declared, RegistrationPolicy.Seeded, EVM_MODULES;
    assert forall n :: n in EVM_MODULES ==> n !in r.modules.Keys - s.versions.Keys;
  }

  /** Each step keeps the invariant and every store; once the bring-up ran, releases leave the settings alone. */
  lemma InvStep(net: Network, s: State, step: Step)
    requires Inv(s) && Usable(step)
    ensures Inv(Next(net, s, step)) && s.stores <= Next(net, s, step).stores
    ensures s.bringUps == 1 && !step.Blocks? ==> SameSettings(s.settings, Next(net, s, step).settings)
  {
    hide First, Second, Declared, NonePresent, AllPresent, HasEvm;
    match step
    case Hop0(r, now) => if First(net, r, s, now).Ok? { InvFirst(net, r, s, now); }
    case Hop1(r, now) =>
      if Second(net, r, s, now).Ok? {
        InvSecond(net, r, s, now);
        if s.bringUps == 1 { HotfixKeeps(net, r, s, now); }
      }
    case Blocks(_) =>
  }

  lemma EvmApart(versions: VersionMap)
    ensures !(NonePresent(versions) && AllPresent(versions))
  {
    hide Ascii;
    EvmMembers(EVM);
  }

  /** However often and in whatever order the releases are applied, the bring-up runs at most once and
     no store is lost. */
  lemma {:induction false} BringUpOnce(net: Network, s: State, steps: seq<Step>)
    requires Inv(s) && forall x :: x in steps ==> Usable(x)
    ensures Inv(Run(net, s, steps)) && Run(net, s, steps).bringUps <= 1
    ensures s.stores <= Run(net, s, steps).stores
  {
    hide Next, Usable, Declared, NonePresent, AllPresent;
    if steps != [] {
      BringUpOnce(net, s, steps[..|steps| - 1]);
      InvStep(net, Run(net, s, steps[..|steps| - 1]), steps[|steps| - 1]);
    }
  }

  // ----- the code -----

  /** `evmModuleState`. */
  method EvmModuleState(from: VersionMap) returns (present: seq<Name>, absent: seq<Name>)
    ensures present == Filter(EVM_MODULES, (n: Name) => n in from)
    ensures absent == Filter(EVM_MODULES, (n: Name) => n !in from)
  {
    hide Ascii;
    present, absent := [], [];
    for i := 0 to |EVM_MODULES|
      invariant present == Filter(EVM_MODULES[..i], (n: Name) => n in from)
      invariant absent == Filter(EVM_MODULES[..i], (n: Name) => n !in from)
    {
      assert EVM_MODULES[..i + 1][..i] == EVM_MODULES[..i];
      if EVM_MODULES[i] in from {
        present := present + [EVM_MODULES[i]];
      } else {
        absent := absent + [EVM_MODULES[i]];
      }
    }
    assert EVM_MODULES[..|EVM_MODULES|] == EVM_MODULES;
  }

  lemma EmptyFilter(xs: seq<Name>, keep: Name -> bool)
    ensures Filter(xs, keep) == [] <==> forall n :: n in xs ==> !keep(n)
  {
  }

  class Node {
    var stores: set<Name>
    var versions: VersionMap
    var bringUps: nat
    var initialised: multiset<Name>
    var settings: Settings

    constructor (s: State)
      ensures Abs() == s
    {
      stores, versions, bringUps, initialised, settings := s.stores, s.versions, s.bringUps, s.initialised, s.settings;
    }

    ghost function Abs(): State
      reads this
    {
      State(stores, versions, bringUps, initialised, settings)
    }

    method RunMigrations(r: Release, from: VersionMap)
      modifies this
      ensures Abs() == Migrated(r, old(Abs()), from)
    {
      var uninitialised := r.modules.Keys - from.Keys;
      initialised := initialised + multiset(uninitialised);
      settings := Initialise(settings, uninitialised);
      versions := versions + r.modules;
    }

    /** The end of the bring-up: parameters, policy, end of the migration period. */
    method Finalise(net: Network, now: int)
      modifies this`settings
      ensures settings == Finalised(net, old(settings), now)
    {
      hide Ascii, RegistrationPolicy.Seeded;
      var params := settings.params;
      params := params[EVM := Lumera];
      params := params[FEEMARKET := Lumera];
      params := params[ERC20 := Lumera];
      var policy := RegistrationPolicy.Seeded(settings.policy);
      settings := settings.(params := params, policy := policy);
      var endTime := net(now);
      if endTime.Some? { settings := settings.(deadline := endTime.value); }
    }

    /** The bring-up; the versions it got are entered in place before the migrations run. */
    method BringUpHandler(net: Network, r: Release, given: VersionMap, now: int) returns (err: Option<UpgradeError>)
      requires given == versions
      modifies this
      ensures Ends(BroughtUp(net, r, old(Abs()), now), old(Abs()), Abs(), err)
    {
      hide Ascii, Finalised, Initialise;
      if !r.ready { return Some(NotReady); }
      var from := given;
      from := from[EVM := 1];
      from := from[FEEMARKET := 1];
      from := from[PRECISEBANK := 1];
      from := from[ERC20 := 1];
      RunMigrations(r, from);
      Finalise(net, now);
      bringUps := bringUps + 1;
      return None;
    }

    /** The handler of v1.20.1; when it refuses it has changed nothing. */
    method SecondHandler(net: Network, r: Release, now: int) returns (err: Option<UpgradeError>)
      modifies this
      ensures Ends(Handled(net, r, old(Abs()), now), old(Abs()), Abs(), err)
    {
      hide Ascii, RegistrationPolicy.Seeded, Filter, BroughtUp;
      var from := versions;
      var present, absent := EvmModuleState(from);
      EmptyFilter(EVM_MODULES, (n: Name) => n in from);
      EmptyFilter(EVM_MODULES, (n: Name) => n !in from);
      assert |present| == 0 <==> NonePresent(from);
      assert |absent| == 0 <==> AllPresent(from);
      hide NonePresent, AllPresent;
      if |present| == 0 {
        err := BringUpHandler(net, r, from, now);
        return err;
      }
      if |absent| > 0 { return Some(PartialState); }
      if !r.ready { return Some(NotReady); }
      RunMigrations(r, from);
      return None;
    }

    /**
     Starting v1.20.1: the add-only loader, which fails when it cannot read the committed stores, then the
     handler; an error leaves the committed state.
     */
    method StartSecond(net: Network, r: Release, storesKnown: bool, now: int) returns (err: Option<UpgradeError>)
      modifies this
      ensures Ends(if storesKnown then Second(net, r, old(Abs()), now) else Err(StoresUnknown), old(Abs()), Abs(), err)
    {
      hide Ascii, Sorted, Handled, Apply;
      if !storesKnown { return Some(StoresUnknown); }
      var committed := stores;
      var u := ComputeAddOnly(Some(DECLARED), Some(stores));
      var added := FromList(u.added);
      Missing(Abs());
      assert added == Declared() - stores;
      hide Declared, AddOnly, Lists;
      stores := stores + added;
      assert stores == committed + Declared();
      err := SecondHandler(net, r, now);
      if err.Some? { stores := committed; }
    }
  }

  /** The state after an upgrade, and what its caller is told: a failed one changes nothing. */
  ghost predicate Ends(spec: Result<State, UpgradeError>, before: State, now: State, err: Option<UpgradeError>)
  {
    match spec
    case Ok(t) => err.None? && now == t
    case Err(e) => err == Some(e) && now == before
  }
}
