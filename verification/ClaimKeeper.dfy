/** The keeper's own code: stores that are read and written step by step, against the functions of `Claim`. */
module ClaimKeeper {
  import opened Bytes
  import opened Varint
  import opened ClaimCodec
  import opened Claim
  import ClaimRuns

  /** The state after a message, and what the caller is told: a failed message changes nothing. */
  ghost predicate Outcome(spec: Result<State, ClaimError>, before: State, now: State, r: Result<Bytes, ClaimError>)
  {
    match spec
    case Ok(t) => r.Ok? && now == t
    case Err(e) => r == Err(e) && now == before
  }

  class Keeper {
    const world: World
    var params: Params
    var records: map<Bytes, ClaimRecord>
    var count: uint64
    var bank: Balances
    var accounts: map<Bytes, Account>
    var blockTime: int
    var blockClaims: uint64
    ghost var blockLimit: uint64
    ghost var blockStart: nat
    ghost var log: seq<Event>

    ghost function Abs(): State
      reads this
    {
      State(params, records, count, bank, accounts, blockTime, blockClaims, blockLimit, blockStart, log)
    }

    constructor (world: World, params: Params, accounts: map<Bytes, Account>, time: int)
      ensures this.world == world && Abs() == EmptyState(params, accounts, time)
    {
      this.world, this.params, this.accounts, this.blockTime := world, params, accounts, time;
      records, count, bank, blockClaims := map[], 0, map[], 0;
      blockLimit, blockStart, log := params.maxClaimsPerBlock, 0, [];
    }

    method SetClaimRecord(r: ClaimRecord)
      modifies this`records, this`count
      ensures Abs() == SetRecord(old(Abs()), r)
    {
      var isNew := r.oldAddress !in records;
      records := records[r.oldAddress := r];
      if isNew { count := (count + 1) % TWO_64; }
    }

    /** `loadClaimRecordsFromCSV` up to its checks: whether the denomination and the amount of every row make a coin. */
    method CheckRows(rows: seq<Row>, denom: Bytes) returns (ok: bool)
      ensures ok <==> rows != [] && CoinDenom(denom) && forall r :: r in rows ==> RowOk(r)
    {
      if |rows| == 0 || !CoinDenom(denom) { return false; }
      for i := 0 to |rows|
        invariant forall r :: r in rows[..i] ==> RowOk(r)
      {
        if rows[i].amount.None? || rows[i].amount.value < 0 {
          assert !RowOk(rows[i]);
          return false;
        }
        assert rows[..i + 1] == rows[..i] + [rows[i]];
      }
      assert rows[..|rows|] == rows;
      return true;
    }

    /** `InitGenesis` on an empty module; it panics exactly when it returns false. */
    method Genesis(g: Genesis) returns (ok: bool)
      requires Abs() == EmptyState(g.params, accounts, blockTime)
      modifies this
      ensures ok == InitGenesis(g, old(accounts), old(blockTime)).Some?
      ensures ok ==> Abs() == InitGenesis(g, old(accounts), old(blockTime)).value
      ensures ok ==> ClaimRuns.Inv(Abs())
      ensures ok <==> ClaimRuns.GenesisValid(g)
      ensures ok ==> ClaimRuns.Loaded(g, Abs())
    {
      hide ClaimRuns.Inv, ClaimRuns.GenesisValid, ClaimRuns.Loaded;
      ghost var start, time := accounts, blockTime;
      ok := Load(g);
      ClaimRuns.GenesisAccepted(g, start, time);
      if ok {
        ClaimRuns.GenesisInv(g, start, time);
        ClaimRuns.GenesisLoads(g, start, time);
      }
    }

    method Load(g: Genesis) returns (ok: bool)
      requires Abs() == EmptyState(g.params, accounts, blockTime)
      modifies this
      ensures ok == InitGenesis(g, old(accounts), old(blockTime)).Some?
      ensures ok ==> Abs() == InitGenesis(g, old(accounts), old(blockTime)).value
    {
      if g.params.maxClaimsPerBlock < 1 || g.params.claimEndTime < 1 { return false; }
      if g.skipClaims { return true; }
      if g.total == 0 { return true; }
      var valid := CheckRows(g.rows, g.denom);
      if !valid { return false; }
      hide RecordOf, Credit;
      var totalCoins := 0;
      for i := 0 to |g.rows|
        invariant Abs() == LoadRows(old(Abs()), g.rows[..i], g.denom)
        invariant totalCoins == RowTotal(g.rows[..i])
      {
        var row := g.rows[i];
        assert RowOk(row);
        assert g.rows[..i + 1][..i] == g.rows[..i];
        SetClaimRecord(RecordOf(row, g.denom));
        totalCoins := totalCoins + row.amount.value;
      }
      assert g.rows[..|g.rows|] == g.rows;
      if totalCoins <= 0 { return true; }
      if totalCoins >= TWO_64 || totalCoins != g.total { return false; }
      var coins := [Coin(g.denom, totalCoins)];
      bank := Credit(bank, coins);
      log := log + [Minted(coins)];
      return true;
    }

    method CreateBaseAccount(dest: Bytes)
      modifies this`accounts
      ensures accounts == old(accounts)[dest := if dest in old(accounts) then old(accounts)[dest] else BaseAccount]
    {
      if dest !in accounts { accounts := accounts[dest := BaseAccount]; }
    }

    method CreateDelayedAccount(dest: Bytes, coins: seq<Coin>, tier: uint32) returns (ok: bool)
      modifies this`accounts
      ensures ok == PrepareAccount(world, old(Abs()), dest, coins, Delayed(tier)).Some?
      ensures ok ==>
        accounts == old(accounts)[dest := PrepareAccount(world, old(Abs()), dest, coins, Delayed(tier)).value]
      ensures !ok ==> accounts == old(accounts)
    {
      if dest in accounts && !accounts[dest].BaseAccount? { return false; }
      var delayMonth := (tier * 6) % TWO_32;
      var endTime := world.addMonths(blockTime, delayMonth);
      if !world.vestingValid(coins, endTime) { return false; }
      accounts := accounts[dest := VestingAccount(coins, endTime)];
      return true;
    }

    /** The checks before anything is written: what they let through is signed for by the owner of the address. */
    method Check(msg: Msg) returns (r: Result<Bytes, ClaimError>)
      ensures r == CheckClaim(world, Abs(), msg)
      ensures r.Ok? <==> ClaimRuns.Claimable(world, Abs(), msg)
      ensures r.Ok? ==> world.bech32(msg.newAddress) == Some(r.value)
    {
      assert DOT == [46];
      if !params.enableClaims { return Err(ClaimDisabled); }
      if blockTime > params.claimEndTime * NANOS { return Err(PeriodExpired); }
      if blockClaims >= params.maxClaimsPerBlock { return Err(TooManyClaims); }
      if msg.oldAddress !in records { return Err(NotFound); }
      if records[msg.oldAddress].claimed { return Err(AlreadyClaimed); }
      var rebuilt := world.addressOf(msg.pubKey);
      if rebuilt.None? { return Err(InvalidPubKey); }
      if rebuilt.value != msg.oldAddress { return Err(MismatchedAddress); }
      var text := msg.oldAddress + DOT + msg.pubKey + DOT + msg.newAddress;
      if !world.verifies(msg.pubKey, text, msg.signature) { return Err(InvalidSignature); }
      var dest := world.bech32(msg.newAddress);
      if dest.None? { return Err(InvalidDestination); }
      return Ok(dest.value);
    }

    /** The account function that `Claim` or `DelayedClaim` passes in. */
    method CreateAccount(dest: Bytes, coins: seq<Coin>, kind: Kind) returns (ok: bool)
      modifies this`accounts
      ensures ok == PrepareAccount(world, old(Abs()), dest, coins, kind).Some?
      ensures accounts == if ok then old(accounts)[dest := PrepareAccount(world, old(Abs()), dest, coins, kind).value]
        else old(accounts)
    {
      match kind
      case Immediate =>
        CreateBaseAccount(dest);
        return true;
      case Delayed(tier) =>
        ok := CreateDelayedAccount(dest, coins, tier);
    }

    /** `SendCoinsFromModuleToAccount`. */
    method Pay(oldAddress: Bytes, dest: Bytes, coins: seq<Coin>) returns (r: Result<Bytes, ClaimError>)
      modifies this`bank, this`log
      ensures r == if world.blocked(dest) then Err(BlockedDestination)
                   else if Debit(old(bank), coins).None? then Err(InsufficientFunds) else Ok(dest)
      ensures r.Err? ==> bank == old(bank) && log == old(log)
      ensures r.Ok? ==> bank == if dest == world.moduleAddress then old(bank) else Debit(old(bank), coins).value
      ensures r.Ok? ==> log == old(log) + [Paid(oldAddress, dest, coins, blockTime)] +
                               (if dest == world.moduleAddress then [Deposited(coins)] else [])
    {
      if world.blocked(dest) { return Err(BlockedDestination); }
      var paid := Debit(bank, coins);
      if paid.None? { return Err(InsufficientFunds); }
      log := log + [Paid(oldAddress, dest, coins, blockTime)];
      if dest == world.moduleAddress {
        log := log + [Deposited(coins)];
      } else {
        bank := paid.value;
      }
      return Ok(dest);
    }

    /**
     Counter, account and transfer are written in turn; when a later one fails, what the earlier ones wrote
     is dropped with the transaction.
     */
    method Move(oldAddress: Bytes, coins: seq<Coin>, kind: Kind, dest: Bytes) returns (r: Result<Bytes, ClaimError>)
      modifies this`blockClaims, this`accounts, this`bank, this`log
      ensures Outcome(Transfer(world, old(Abs()), oldAddress, coins, kind, dest), old(Abs()), Abs(), r)
    {
      var counter, before := blockClaims, accounts;
      blockClaims := (blockClaims + 1) % TWO_64;
      SameAccount(world, old(Abs()), Abs(), dest, coins, kind);
      hide Debit, PrepareAccount;
      var ok := CreateAccount(dest, coins, kind);
      if !ok {
        blockClaims := counter;
        return Err(BadAccount);
      }
      r := Pay(oldAddress, dest, coins);
      if r.Err? { blockClaims, accounts := counter, before; }
    }

    /** Marks the claim as processed. */
    method MarkClaimed(msg: Msg, kind: Kind)
      requires msg.oldAddress in records
      modifies this`records, this`count
      ensures Abs() == SetRecord(old(Abs()), ClaimedRecord(old(Abs()), old(records)[msg.oldAddress], msg, kind))
    {
      var record := records[msg.oldAddress];
      record := record.(claimed := true);
      record := record.(claimTime := Seconds(blockTime));
      record := record.(destAddress := msg.newAddress);
      record := record.(vestedTier := if kind.Delayed? then kind.tier else 0);
      assert record == ClaimedRecord(Abs(), records[msg.oldAddress], msg, kind);
      hide ClaimedRecord, Seconds;
      SetClaimRecord(record);
    }

    /**
     `Claim` and `DelayedClaim`. The invariant of the module is kept, and before the burn the payment does not
     fail for lack of funds.
     */
    method Process(msg: Msg, kind: Kind) returns (r: Result<Bytes, ClaimError>)
      modifies this
      ensures Outcome(ProcessClaim(world, old(Abs()), msg, kind), old(Abs()), Abs(), r)
      ensures ClaimRuns.Inv(old(Abs())) ==> ClaimRuns.Inv(Abs())
      ensures ClaimRuns.Inv(old(Abs())) && !ClaimRuns.Burnt(old(Abs())) ==> r != Err(InsufficientFunds)
      ensures r.Ok? <==> ClaimRuns.Claimable(world, old(Abs()), msg) && ClaimRuns.Payable(world, old(Abs()), msg, kind)
      ensures ClaimRuns.Inv(old(Abs())) && r.Ok? ==> ClaimRuns.ClaimDone(world, old(Abs()), Abs(), msg, kind)
    {
      hide ClaimRuns.Inv, ProcessClaim, ClaimRuns.Burnt;
      ghost var s := Abs();
      r := Perform(msg, kind);
      ClaimRuns.ClaimAccepted(world, s, msg, kind);
      hide ClaimRuns.Claimable, ClaimRuns.Payable, ClaimRuns.ClaimDone, ClaimRuns.Stored;
      if ClaimRuns.Inv(s) {
        ClaimRuns.InvStored(s);
        if ProcessClaim(world, s, msg, kind).Ok? {
          ClaimRuns.ClaimInv(world, s, msg, kind);
          ClaimRuns.ClaimDoes(world, s, msg, kind);
        }
        if !ClaimRuns.Burnt(s) { ClaimRuns.ClaimIsFunded(world, s, msg, kind); }
      }
    }

    method Perform(msg: Msg, kind: Kind) returns (r: Result<Bytes, ClaimError>)
      modifies this
      ensures Outcome(ProcessClaim(world, old(Abs()), msg, kind), old(Abs()), Abs(), r)
    {
      var dest := Check(msg);
      if dest.Err? { return Err(dest.error); }
      assert msg.oldAddress in records;
      hide CheckClaim, Transfer, ClaimedRecord;
      r := Move(msg.oldAddress, records[msg.oldAddress].balance, kind, dest.value);
      if r.Ok? { MarkClaimed(msg, kind); }
    }

    /** The invariant is kept, and past the deadline claims are off and no ulume is left. */
    method EndBlocker()
      modifies this
      ensures Abs() == EndBlock(old(Abs()))
      ensures ClaimRuns.Inv(old(Abs())) ==> ClaimRuns.Inv(Abs())
      ensures if old(params.enableClaims) && blockTime > old(params.claimEndTime) * NANOS + 1 then
          params == old(params).(enableClaims := false) && Balance(bank, ULUME) == 0
        else Abs() == old(Abs())
      ensures records == old(records) && forall d :: d != ULUME ==> Balance(bank, d) == Balance(old(bank), d)
    {
      hide ClaimRuns.Inv, Ascii;
      if ClaimRuns.Inv(Abs()) { ClaimRuns.InvStep(world, Abs(), ClaimRuns.Ends); }
      if !params.enableClaims { return; }
      if !(blockTime > params.claimEndTime * NANOS + 1) { return; }
      var left := Balance(bank, ULUME);
      if left != 0 {
        bank := bank[ULUME := 0];
        log := log + [Burned([Coin(ULUME, left)], blockTime)];
      }
      params := params.(enableClaims := false);
    }
  }

  /** The destination account does not depend on the claim counter. */
  lemma SameAccount(w: World, s: State, t: State, dest: Bytes, coins: seq<Coin>, kind: Kind)
    requires t == s.(blockClaims := t.blockClaims)
    ensures PrepareAccount(w, t, dest, coins, kind) == PrepareAccount(w, s, dest, coins, kind)
  {
  }
}
