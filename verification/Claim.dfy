/**
 The claim module: the records loaded and the coins minted at genesis, claims and delayed claims against
 them, parameter updates, and the burn at the end of the claim period.
 */
module Claim {
  import opened Bytes
  import opened Varint
  import opened Sums
  import opened ClaimCodec

  const ULUME: Bytes := Ascii("ulume")
  const DOT: Bytes := Ascii(".")
  const NANOS: int := 1_000_000_000

  // ----- coins and the balance of the module account -----

  type Balances = map<Bytes, nat>

  function AmountIn(denom: Bytes): Coin -> nat
  {
    (c: Coin) => if c.denom == denom then c.amount else 0
  }

  ghost function AmountOf(coins: seq<Coin>, denom: Bytes): nat
  {
    Sum(coins, AmountIn(denom))
  }

  function Balance(bank: Balances, denom: Bytes): nat
  {
    if denom in bank then bank[denom] else 0
  }

  function Credit(bank: Balances, coins: seq<Coin>): Balances
    decreases coins
  {
    if coins == [] then bank
    else Credit(bank[coins[0].denom := Balance(bank, coins[0].denom) + coins[0].amount], coins[1..])
  }

  /** Takes the coins out one by one; none when one of them is not covered. */
  function Debit(bank: Balances, coins: seq<Coin>): Option<Balances>
    decreases coins
  {
    if coins == [] then Some(bank)
    else if coins[0].amount > Balance(bank, coins[0].denom) then None
    else Debit(bank[coins[0].denom := Balance(bank, coins[0].denom) - coins[0].amount], coins[1..])
  }

  lemma {:induction false} CreditBalance(bank: Balances, coins: seq<Coin>, d: Bytes)
    ensures Balance(Credit(bank, coins), d) == Balance(bank, d) + AmountOf(coins, d)
    decreases coins
  {
    if coins != [] {
      CreditBalance(bank[coins[0].denom := Balance(bank, coins[0].denom) + coins[0].amount], coins[1..], d);
    }
  }

  lemma {:induction false} DebitBalance(bank: Balances, coins: seq<Coin>, d: Bytes)
    requires Debit(bank, coins).Some?
    ensures Balance(Debit(bank, coins).value, d) == Balance(bank, d) - AmountOf(coins, d)
    ensures Balance(bank, d) >= AmountOf(coins, d)
    decreases coins
  {
    if coins != [] {
      DebitBalance(bank[coins[0].denom := Balance(bank, coins[0].denom) - coins[0].amount], coins[1..], d);
    }
  }

  /** Enough of every denomination is enough for the whole payment. */
  lemma {:induction false} DebitSucceeds(bank: Balances, coins: seq<Coin>)
    requires forall d :: AmountOf(coins, d) <= Balance(bank, d)
    ensures Debit(bank, coins).Some?
    decreases coins
  {
    if coins != [] {
      var c := coins[0];
      assert AmountOf(coins, c.denom) <= Balance(bank, c.denom);
      var bank' := bank[c.denom := Balance(bank, c.denom) - c.amount];
      forall d ensures AmountOf(coins[1..], d) <= Balance(bank', d) {
        assert AmountOf(coins, d) <= Balance(bank, d);
      }
      DebitSucceeds(bank', coins[1..]);
    }
  }

  // ----- state -----

  datatype Account = BaseAccount | VestingAccount(original: seq<Coin>, endTime: int) | OtherAccount

  /** What the module has done to coins, in order. */
  datatype Event =
    | Minted(coins: seq<Coin>)
    | Deposited(coins: seq<Coin>)
    | Paid(oldAddress: Bytes, dest: Bytes, coins: seq<Coin>, time: int)
    | Burned(coins: seq<Coin>, time: int)

  /** The stores of the module, the balance of its account, the block, and the history of the coins. */
  datatype State = State(
    params: Params,
    records: map<Bytes, ClaimRecord>,
    count: uint64,
    bank: Balances,
    accounts: map<Bytes, Account>,
    blockTime: int,       // nanoseconds
    blockClaims: uint64,  // transient, reset by every block
    blockLimit: uint64,   // the largest limit in force in this block so far
    blockStart: nat,      // how many events were logged before this block
    log: seq<Event>)

  /** What lies outside the module: keys, signatures, addresses and the calendar. */
  datatype World = World(
    moduleAddress: Bytes,
    addressOf: Bytes -> Option<Bytes>,             // address rebuilt from a public key
    verifies: (Bytes, Bytes, Bytes) -> bool,       // key, message, signature
    bech32: Bytes -> Option<Bytes>,
    blocked: Bytes -> bool,                        // accounts that may not receive
    vestingValid: (seq<Coin>, int) -> bool,
    addMonths: (int, nat) -> int)

  datatype Msg = Msg(oldAddress: Bytes, newAddress: Bytes, pubKey: Bytes, signature: Bytes)

  datatype Kind = Immediate | Delayed(tier: uint32)

  datatype ClaimError =
    | ClaimDisabled | PeriodExpired | TooManyClaims | NotFound | AlreadyClaimed | InvalidPubKey
    | MismatchedAddress | InvalidSignature | InvalidDestination | BadAccount | BlockedDestination | InsufficientFunds

  // ----- records -----

  /** `SetClaimRecord`: stores by the record's own address, and counts new keys. */
  function SetRecord(s: State, r: ClaimRecord): State
  {
    s.(records := s.records[r.oldAddress := r],
       count := if r.oldAddress in s.records then s.count else (s.count + 1) % TWO_64)
  }

  // ----- genesis -----

  /** A row of the claims file: its amount is missing when the row is short or not a number. */
  datatype Row = Row(address: Bytes, amount: Option<int>)

  datatype Genesis = Genesis(params: Params, skipClaims: bool, denom: Bytes, total: uint64, rows: seq<Row>)

  function NewCoins(c: Coin): seq<Coin>
  {
    if c.amount == 0 then [] else [c]
  }

  ghost predicate RowOk(r: Row)
  {
    r.amount.Some? && r.amount.value >= 0
  }

  /** The denominations that a coin may have: three to 128 letters, digits and / : . _ -, a letter first. */
  predicate CoinDenom(denom: Bytes)
  {
    && 3 <= |denom| <= 128
    && (65 <= denom[0] <= 90 || 97 <= denom[0] <= 122)
    && forall b :: b in denom ==> 65 <= b <= 90 || 97 <= b <= 122 || 45 <= b <= 58 || b == 95
  }

  function RecordOf(r: Row, denom: Bytes): ClaimRecord
  {
    ClaimRecord(r.address,
                if r.amount.Some? && r.amount.value >= 0 then NewCoins(Coin(denom, r.amount.value)) else [],
                false, 0, [], 0)
  }

  /** The records set one after the other: a repeated address keeps its last row. */
  function LoadRows(s: State, rows: seq<Row>, denom: Bytes): State
  {
    if rows == [] then s
    else SetRecord(LoadRows(s, rows[..|rows| - 1], denom), RecordOf(rows[|rows| - 1], denom))
  }

  /** The total over all rows, repeated addresses included. */
  function RowTotal(rows: seq<Row>): int
  {
    if rows == [] then 0
    else RowTotal(rows[..|rows| - 1]) + (if rows[|rows| - 1].amount.Some? then rows[|rows| - 1].amount.value else 0)
  }

  function EmptyState(params: Params, accounts: map<Bytes, Account>, time: int): State
  {
    State(params, map[], 0, map[], accounts, time, 0, params.maxClaimsPerBlock, 0, [])
  }

  /** `InitGenesis`; no state where it panics. */
  ghost function InitGenesis(g: Genesis, accounts: map<Bytes, Account>, time: int): Option<State>
  {
    var s := EmptyState(g.params, accounts, time);
    if g.params.maxClaimsPerBlock < 1 || g.params.claimEndTime < 1 then None
    else if g.skipClaims || g.total == 0 then Some(s)
    else if g.rows == [] || !CoinDenom(g.denom) || exists r :: r in g.rows && !RowOk(r) then None
    else
      var loaded := LoadRows(s, g.rows, g.denom);
      var sum := RowTotal(g.rows);
      if sum <= 0 then Some(loaded)
      else if sum >= TWO_64 || sum != g.total then None
      else
        var coins := [Coin(g.denom, sum)];
        Some(loaded.(bank := Credit(loaded.bank, coins), log := loaded.log + [Minted(coins)]))
  }

  // ----- claims -----

  function Months(tier: uint32): nat
  {
    (tier * 6) % TWO_32
  }

  /** The account a payment goes to, after `CreateBaseAccount` or `CreateDelayedAccount`. */
  function PrepareAccount(w: World, s: State, dest: Bytes, coins: seq<Coin>, kind: Kind): Option<Account>
  {
    match kind
    case Immediate => Some(if dest in s.accounts then s.accounts[dest] else BaseAccount)
    case Delayed(tier) =>
      var endTime := w.addMonths(s.blockTime, Months(tier));
      if dest in s.accounts && !s.accounts[dest].BaseAccount? then None
      else if !w.vestingValid(coins, endTime) then None
      else Some(VestingAccount(coins, endTime))
  }

  /** The checks of `processClaim`, in their order, up to the first store that is written. */
  function CheckClaim(w: World, s: State, msg: Msg): Result<Bytes, ClaimError>
  {
    if !s.params.enableClaims then Err(ClaimDisabled)
    else if s.blockTime > s.params.claimEndTime * NANOS then Err(PeriodExpired)
    else if s.blockClaims >= s.params.maxClaimsPerBlock then Err(TooManyClaims)
    else if msg.oldAddress !in s.records then Err(NotFound)
    else if s.records[msg.oldAddress].claimed then Err(AlreadyClaimed)
    else if w.addressOf(msg.pubKey).None? then Err(InvalidPubKey)
    else if w.addressOf(msg.pubKey).value != msg.oldAddress then Err(MismatchedAddress)
    else if !w.verifies(msg.pubKey, msg.oldAddress + DOT + msg.pubKey + DOT + msg.newAddress, msg.signature)
        then Err(InvalidSignature)
    else if w.bech32(msg.newAddress).None? then Err(InvalidDestination)
    else Ok(w.bech32(msg.newAddress).value)
  }

  function Seconds(nanos: int): int64
  {
    Int64(nanos / NANOS)
  }

  function ClaimedRecord(s: State, r: ClaimRecord, msg: Msg, kind: Kind): ClaimRecord
  {
    r.(claimed := true, claimTime := Seconds(s.blockTime), destAddress := msg.newAddress,
       vestedTier := if kind.Delayed? then kind.tier else 0)
  }

  /** The first writes of `processClaim`: the counter, the account, the transfer. */
  function Transfer(w: World, s: State, oldAddress: Bytes, coins: seq<Coin>, kind: Kind, dest: Bytes)
    : Result<State, ClaimError>
  {
    var account := PrepareAccount(w, s, dest, coins, kind);
    if account.None? then Err(BadAccount)
    else if w.blocked(dest) then Err(BlockedDestination)
    else
      var paid := Debit(s.bank, coins);
      if paid.None? then Err(InsufficientFunds)
      else
        var back := dest == w.moduleAddress;
        Ok(s.(blockClaims := (s.blockClaims + 1) % TWO_64,
              accounts := s.accounts[dest := account.value],
              bank := if back then s.bank else paid.value,
              log := s.log + [Paid(oldAddress, dest, coins, s.blockTime)] + (if back then [Deposited(coins)] else [])))
  }

  /** `processClaim`; a failed message leaves the state as it was. */
  function ProcessClaim(w: World, s: State, msg: Msg, kind: Kind): Result<State, ClaimError>
  {
    var dest :- CheckClaim(w, s, msg);
    var r := s.records[msg.oldAddress];
    var t :- Transfer(w, s, msg.oldAddress, r.balance, kind, dest);
    Ok(SetRecord(t, ClaimedRecord(t, r, msg, kind)))
  }

  // ----- the end of a block, and what happens between claims -----

  /** `EndBlocker`: once the period is over, burns what is left and disables claims. */
  function EndBlock(s: State): State
  {
    if !s.params.enableClaims || s.blockTime <= s.params.claimEndTime * NANOS + 1 then s
    else
      var left := Balance(s.bank, ULUME);
      var off := s.params.(enableClaims := false);
      if left == 0 then s.(params := off)
      else s.(params := off, bank := s.bank[ULUME := 0], log := s.log + [Burned([Coin(ULUME, left)], s.blockTime)])
  }

  function NextBlock(s: State, time: int): State
  {
    s.(blockTime := time, blockClaims := 0, blockLimit := s.params.maxClaimsPerBlock, blockStart := |s.log|)
  }

  function UpdateParams(s: State, p: Params): State
  {
    s.(params := p, blockLimit := if p.maxClaimsPerBlock > s.blockLimit then p.maxClaimsPerBlock else s.blockLimit)
  }

  function Deposit(s: State, coins: seq<Coin>): State
  {
    s.(bank := Credit(s.bank, coins), log := s.log + [Deposited(coins)])
  }
}
