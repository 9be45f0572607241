/** What holds of the claim module over whole runs, from genesis on. */
module ClaimRuns {
  import opened Bytes
  import opened Varint
  import opened Sums
  import opened ClaimCodec
  import opened Claim

  // ----- measures -----

  ghost function Income(d: Bytes): Event -> nat
  {
    (e: Event) => if e.Minted? || e.Deposited? then AmountOf(e.coins, d) else 0
  }

  ghost function Outgo(d: Bytes): Event -> nat
  {
    (e: Event) => if e.Paid? || e.Burned? then AmountOf(e.coins, d) else 0
  }

  ghost function PaidAmount(d: Bytes): Event -> nat
  {
    (e: Event) => if e.Paid? then AmountOf(e.coins, d) else 0
  }

  ghost function PaidTo(a: Bytes): Event -> nat
  {
    (e: Event) => Bit(e.Paid? && e.oldAddress == a)
  }

  ghost function IsPaid(): Event -> nat
  {
    (e: Event) => Bit(e.Paid?)
  }

  ghost function IsBurned(): Event -> nat
  {
    (e: Event) => Bit(e.Burned?)
  }

  ghost function Unclaimed(d: Bytes): ClaimRecord -> nat
  {
    (r: ClaimRecord) => if r.claimed then 0 else AmountOf(r.balance, d)
  }

  ghost function Claimed(d: Bytes): ClaimRecord -> nat
  {
    (r: ClaimRecord) => if r.claimed then AmountOf(r.balance, d) else 0
  }

  // ----- the invariant -----

  /** What came in is what went out and what is left, in every denomination. */
  ghost predicate Conserved(s: State)
  {
    forall d :: Sum(s.log, Income(d)) == Sum(s.log, Outgo(d)) + Balance(s.bank, d)
  }

  /** The module account covers every record that can still be claimed. */
  ghost predicate Solvent(s: State)
  {
    forall d :: MapSum(s.records, Unclaimed(d)) <= Balance(s.bank, d)
  }

  /** Each old address was paid once if its record is claimed, and never otherwise. */
  ghost predicate PaidOnce(s: State)
  {
    forall a :: Sum(s.log, PaidTo(a)) == Bit(a in s.records && s.records[a].claimed)
  }

  /** The payments are the balances of the claimed records. */
  ghost predicate PaidInFull(s: State)
  {
    forall d :: Sum(s.log, PaidAmount(d)) == MapSum(s.records, Claimed(d))
  }

  /** Records are stored by their address, and counted. */
  ghost predicate Stored(s: State)
  {
    && (forall a :: a in s.records ==> s.records[a].oldAddress == a)
    && s.count == |s.records| % TWO_64
  }

  /** The claims of this block are counted, and within a limit that was in force in it. */
  ghost predicate Limited(s: State)
  {
    && s.blockStart <= |s.log|
    && s.blockClaims == Sum(s.log[s.blockStart..], IsPaid())
    && s.blockClaims <= s.blockLimit
    && s.params.maxClaimsPerBlock <= s.blockLimit
  }

  ghost predicate Burnt(s: State)
  {
    Sum(s.log, IsBurned()) > 0
  }

  ghost predicate Inv(s: State)
  {
    && Conserved(s) && PaidOnce(s) && PaidInFull(s) && Stored(s) && Limited(s)
    && (!Burnt(s) ==> Solvent(s))
  }

  // ----- genesis -----

  lemma SizeSet<K, V>(m: map<K, V>, k: K, v: V)
    ensures |m[k := v]| == if k in m then |m| else |m| + 1
  {
  }

  lemma CountStep(n: nat)
    ensures (n % TWO_64 + 1) % TWO_64 == (n + 1) % TWO_64
  {
  }

  lemma SetRecordStored(s: State, r: ClaimRecord)
    requires Stored(s)
    ensures Stored(SetRecord(s, r))
  {
    SizeSet(s.records, r.oldAddress, r);
    CountStep(|s.records|);
  }

  lemma {:induction false} RowsLoaded(s: State, rows: seq<Row>, denom: Bytes)
    requires s.records == map[] && s.count == 0
    ensures Stored(LoadRows(s, rows, denom))
    ensures forall a :: a in LoadRows(s, rows, denom).records ==> !LoadRows(s, rows, denom).records[a].claimed
    ensures LoadRows(s, rows, denom).(records := s.records, count := s.count) == s
  {
    if rows != [] {
      var t, r := LoadRows(s, rows[..|rows| - 1], denom), RecordOf(rows[|rows| - 1], denom);
      RowsLoaded(s, rows[..|rows| - 1], denom);
      hide Stored;
      SetRecordStored(t, r);
    }
  }

  lemma NewCoinsAmount(denom: Bytes, amount: nat, d: Bytes)
    ensures AmountOf(NewCoins(Coin(denom, amount)), d) == if d == denom then amount else 0
  {
    var coins := NewCoins(Coin(denom, amount));
    if coins != [] { assert Sum(coins[1..], AmountIn(d)) == 0; }
  }

  /** What the stored records are worth is at most the total of all rows, however often addresses repeat. */
  lemma {:induction false} RowsCovered(s: State, rows: seq<Row>, denom: Bytes, d: Bytes)
    requires s.records == map[] && forall r :: r in rows ==> RowOk(r)
    ensures MapSum(LoadRows(s, rows, denom).records, Unclaimed(d)) <= if d == denom then RowTotal(rows) else 0
    ensures RowTotal(rows) >= 0
  {
    hide AmountOf;
    if rows != [] {
      var last := rows[|rows| - 1];
      var t, r := LoadRows(s, rows[..|rows| - 1], denom), RecordOf(last, denom);
      assert RowOk(last);
      RowsCovered(s, rows[..|rows| - 1], denom, d);
      MapSumSet(t.records, Unclaimed(d), r.oldAddress, r);
      NewCoinsAmount(denom, last.amount.value, d);
    }
  }

  lemma {:induction false} NothingClaimed(m: map<Bytes, ClaimRecord>, d: Bytes)
    requires forall a :: a in m ==> !m[a].claimed
    ensures MapSum(m, Claimed(d)) == 0
    decreases |m|
  {
    if m != map[] {
      var a :| a in m;
      MapSumRemove(m, Claimed(d), a);
      NothingClaimed(m - {a}, d);
    }
  }

  lemma OneCoin(denom: Bytes, amount: nat, d: Bytes)
    ensures AmountOf([Coin(denom, amount)], d) == if d == denom then amount else 0
  {
    SumOne(Coin(denom, amount), AmountIn(d));
  }

  ghost function RowAmount(): Row -> nat
  {
    (r: Row) => if r.amount.Some? && r.amount.value >= 0 then r.amount.value else 0
  }

  /** What `InitGenesis` accepts. */
  ghost predicate GenesisValid(g: Genesis)
  {
    && g.params.maxClaimsPerBlock >= 1 && g.params.claimEndTime >= 1
    && (g.skipClaims || g.total == 0 ||
        (&& g.rows != [] && CoinDenom(g.denom)
         && (forall r :: r in g.rows ==> r.amount.Some? && r.amount.value >= 0)
         && (Sum(g.rows, RowAmount()) == 0 || Sum(g.rows, RowAmount()) == g.total)))
  }

  lemma {:induction false} RowTotalIsSum(rows: seq<Row>)
    requires forall r :: r in rows ==> RowOk(r)
    ensures RowTotal(rows) == Sum(rows, RowAmount())
  {
    if rows != [] {
      var before, last := rows[..|rows| - 1], rows[|rows| - 1];
      RowTotalIsSum(before);
      assert RowOk(last);
      assert rows == before + [last];
      hide Sum;
      SumAppend(before, last, RowAmount());
    }
  }

  lemma GenesisAccepted(g: Genesis, accounts: map<Bytes, Account>, time: int)
    ensures InitGenesis(g, accounts, time).Some? <==> GenesisValid(g)
  {
    hide CoinDenom, LoadRows, RowTotal, Credit, Sum;
    if forall r :: r in g.rows ==> RowOk(r) { RowTotalIsSum(g.rows); }
  }

  /** The row is the last one with its address. */
  ghost predicate LastRow(rows: seq<Row>, i: nat)
  {
    i < |rows| && forall j :: i < j < |rows| ==> rows[j].address != rows[i].address
  }

  /** The record is that of a row: unclaimed, with its address and its whole amount. */
  ghost predicate RecordFor(rec: ClaimRecord, r: Row, denom: Bytes)
  {
    && rec.oldAddress == r.address && !rec.claimed && rec.claimTime == 0 && rec.destAddress == [] && rec.vestedTier == 0
    && forall d :: AmountOf(rec.balance, d) == if d == denom then RowAmount()(r) else 0
  }

  /** The records are those of the last row of each address. */
  ghost predicate RecordsLoaded(records: map<Bytes, ClaimRecord>, rows: seq<Row>, denom: Bytes)
  {
    && (forall a :: a in records <==> exists i :: 0 <= i < |rows| && rows[i].address == a)
    && (forall i: nat :: LastRow(rows, i) ==>
         rows[i].address in records && RecordFor(records[rows[i].address], rows[i], denom))
  }

  /** What genesis leaves: those records, and the total of all rows minted. */
  ghost predicate Loaded(g: Genesis, s: State)
  {
    && s.params == g.params
    && (g.skipClaims || g.total == 0 ==> s.records == map[] && s.bank == map[] && s.log == [])
    && (!g.skipClaims && g.total != 0 ==> RecordsLoaded(s.records, g.rows, g.denom))
    && (!g.skipClaims && g.total != 0 ==>
         forall d :: Balance(s.bank, d) == if d == g.denom then Sum(g.rows, RowAmount()) else 0)
  }

  lemma {:induction false} LastRowLoaded(s: State, rows: seq<Row>, denom: Bytes, i: nat)
    requires LastRow(rows, i) && RowOk(rows[i])
    ensures rows[i].address in LoadRows(s, rows, denom).records
    ensures RecordFor(LoadRows(s, rows, denom).records[rows[i].address], rows[i], denom)
  {
    hide AmountOf;
    if i == |rows| - 1 {
      forall d { NewCoinsAmount(denom, rows[i].amount.value, d); }
    } else {
      LastRowLoaded(s, rows[..|rows| - 1], denom, i);
    }
  }

  lemma {:induction false} RowsKeyed(s: State, rows: seq<Row>, denom: Bytes, a: Bytes)
    requires s.records == map[]
    ensures a in LoadRows(s, rows, denom).records <==> exists i :: 0 <= i < |rows| && rows[i].address == a
  {
    if rows != [] { RowsKeyed(s, rows[..|rows| - 1], denom, a); }
  }

  lemma RowsGiveRecords(s: State, rows: seq<Row>, denom: Bytes)
    requires s.records == map[] && forall r :: r in rows ==> RowOk(r)
    ensures RecordsLoaded(LoadRows(s, rows, denom).records, rows, denom)
  {
    hide LoadRows, RecordFor;
    var records := LoadRows(s, rows, denom).records;
    forall a ensures a in records <==> exists i :: 0 <= i < |rows| && rows[i].address == a {
      RowsKeyed(s, rows, denom, a);
    }
    forall i: nat | LastRow(rows, i)
      ensures rows[i].address in records && RecordFor(records[rows[i].address], rows[i], denom)
    {
      assert rows[i] in rows;
      LastRowLoaded(s, rows, denom, i);
    }
  }

  /** The parts of the genesis state, when rows are loaded. */
  lemma GenesisParts(g: Genesis, accounts: map<Bytes, Account>, time: int)
    requires InitGenesis(g, accounts, time).Some? && !g.skipClaims && g.total != 0
    ensures forall r :: r in g.rows ==> RowOk(r)
    ensures var s, total := InitGenesis(g, accounts, time).value, RowTotal(g.rows);
      && s.records == LoadRows(EmptyState(g.params, accounts, time), g.rows, g.denom).records
      && s.params == g.params && total >= 0
      && s.bank == (if total == 0 then map[] else Credit(map[], [Coin(g.denom, total)]))
      && s.log == (if total == 0 then [] else [Minted([Coin(g.denom, total)])])
  {
    RowsLoaded(EmptyState(g.params, accounts, time), g.rows, g.denom);
    hide CoinDenom, LoadRows, RowTotal, Credit, Stored;
    RowTotalIsSum(g.rows);
  }

  lemma GenesisLoads(g: Genesis, accounts: map<Bytes, Account>, time: int)
    requires InitGenesis(g, accounts, time).Some?
    ensures Loaded(g, InitGenesis(g, accounts, time).value)
  {
    if !g.skipClaims && g.total != 0 {
      hide InitGenesis, LoadRows, RowTotal, Credit, Sum, RecordsLoaded, AmountOf;
      GenesisParts(g, accounts, time);
      RowsGiveRecords(EmptyState(g.params, accounts, time), g.rows, g.denom);
      RowTotalIsSum(g.rows);
      var s, total := InitGenesis(g, accounts, time).value, Sum(g.rows, RowAmount());
      forall d ensures Balance(s.bank, d) == if d == g.denom then total else 0 {
        CreditBalance(map[], [Coin(g.denom, total)], d);
        OneCoin(g.denom, total, d);
      }
    }
  }

  /** With distinct addresses the records are worth exactly the total of the rows. */
  lemma {:induction false} DistinctRowsWorth(s: State, rows: seq<Row>, denom: Bytes)
    requires s.records == map[] && forall r :: r in rows ==> RowOk(r)
    requires forall i, j :: 0 <= i < j < |rows| ==> rows[i].address != rows[j].address
    ensures MapSum(LoadRows(s, rows, denom).records, Unclaimed(denom)) == Sum(rows, RowAmount())
  {
    hide AmountOf;
    if rows != [] {
      var before, last := rows[..|rows| - 1], rows[|rows| - 1];
      var t, r := LoadRows(s, before, denom), RecordOf(last, denom);
      assert RowOk(last) && rows == before + [last];
      DistinctRowsWorth(s, before, denom);
      RowsKeyed(s, before, denom, last.address);
      hide Sum, MapSum;
      SumAppend(before, last, RowAmount());
      MapSumSet(t.records, Unclaimed(denom), r.oldAddress, r);
      NewCoinsAmount(denom, last.amount.value, denom);
    }
  }

  /** Hence genesis with distinct addresses mints exactly what the records are worth, which is the declared total. */
  lemma GenesisWorth(g: Genesis, accounts: map<Bytes, Account>, time: int)
    requires InitGenesis(g, accounts, time).Some? && !g.skipClaims && g.total != 0
    requires forall i, j :: 0 <= i < j < |g.rows| ==> g.rows[i].address != g.rows[j].address
    ensures var s := InitGenesis(g, accounts, time).value;
      && MapSum(s.records, Unclaimed(g.denom)) == Sum(g.rows, RowAmount()) == Balance(s.bank, g.denom)
      && (Sum(g.rows, RowAmount()) > 0 ==> Sum(g.rows, RowAmount()) == g.total)
  {
    hide InitGenesis, LoadRows, RowTotal, Credit, Sum, MapSum, RecordsLoaded, CoinDenom;
    GenesisLoads(g, accounts, time);
    GenesisAccepted(g, accounts, time);
    GenesisParts(g, accounts, time);
    DistinctRowsWorth(EmptyState(g.params, accounts, time), g.rows, g.denom);
  }

  /** Genesis mints enough for every record, also when the file repeats addresses. */
  lemma GenesisInv(g: Genesis, accounts: map<Bytes, Account>, time: int)
    requires InitGenesis(g, accounts, time).Some?
    ensures Inv(InitGenesis(g, accounts, time).value)
    ensures !Burnt(InitGenesis(g, accounts, time).value)
  {
    var s0 := EmptyState(g.params, accounts, time);
    var s := InitGenesis(g, accounts, time).value;
    if g.skipClaims || g.total == 0 {
      EmptyInv(s);
    } else {
      var loaded, total := LoadRows(s0, g.rows, g.denom), RowTotal(g.rows);
      RowsLoaded(s0, g.rows, g.denom);
      hide LoadRows, AmountOf, MapSum, Credit, RowTotal, Stored;
      forall d ensures MapSum(s.records, Unclaimed(d)) <= if d == g.denom then total else 0 {
        RowsCovered(s0, g.rows, g.denom, d);
      }
      RowsCovered(s0, g.rows, g.denom, g.denom);
      assert Stored(s) by { StoredByRecords(loaded, s); }
      if total == 0 { EmptyLogInv(s); } else { MintedInv(s, g.denom, total); }
    }
  }

  lemma StoredByRecords(s: State, t: State)
    requires Stored(s) && t.records == s.records && t.count == s.count
    ensures Stored(t)
  {
  }

  lemma EmptyInv(s: State)
    requires s.records == map[] && s.count == 0 && s.bank == map[] && s.log == [] && s.blockStart == 0
    requires s.blockClaims == 0 && s.params.maxClaimsPerBlock <= s.blockLimit
    ensures Inv(s) && !Burnt(s)
  {
  }

  lemma EmptyLogInv(s: State)
    requires Stored(s) && forall a :: a in s.records ==> !s.records[a].claimed
    requires s.log == [] && s.bank == map[] && s.blockStart == 0
    requires s.blockClaims == 0 && s.params.maxClaimsPerBlock <= s.blockLimit
    requires forall d :: MapSum(s.records, Unclaimed(d)) <= 0
    ensures Inv(s) && !Burnt(s)
  {
    hide AmountOf, MapSum, Stored;
    forall d ensures MapSum(s.records, Claimed(d)) == 0 { NothingClaimed(s.records, d); }
  }

  lemma MintedInv(s: State, denom: Bytes, total: nat)
    requires Stored(s) && forall a :: a in s.records ==> !s.records[a].claimed
    requires s.log == [Minted([Coin(denom, total)])] && s.blockStart == 0
    requires s.bank == Credit(map[], [Coin(denom, total)])
    requires s.blockClaims == 0 && s.params.maxClaimsPerBlock <= s.blockLimit
    requires forall d :: MapSum(s.records, Unclaimed(d)) <= if d == denom then total else 0
    ensures Inv(s) && !Burnt(s)
  {
    MintLogged(s, denom, total);
    hide AmountOf, MapSum, Stored, Credit, Conserved, Sum;
    assert s.log[0..] == s.log;
    forall d ensures MapSum(s.records, Claimed(d)) == 0 { NothingClaimed(s.records, d); }
    forall d ensures MapSum(s.records, Unclaimed(d)) <= Balance(s.bank, d) {
      CreditBalance(map[], [Coin(denom, total)], d);
      OneCoin(denom, total, d);
    }
  }

  lemma MintLogged(s: State, denom: Bytes, amount: nat)
    requires s.log == [Minted([Coin(denom, amount)])] && s.bank == Credit(map[], [Coin(denom, amount)])
    ensures Conserved(s) && !Burnt(s)
    ensures forall a :: Sum(s.log, PaidTo(a)) == 0
    ensures forall d :: Sum(s.log, PaidAmount(d)) == 0
    ensures Sum(s.log, IsPaid()) == 0
  {
    hide AmountOf, Credit, Sum;
    var e := s.log[0];
    SumOne(e, IsBurned());
    SumOne(e, IsPaid());
    forall a ensures Sum(s.log, PaidTo(a)) == 0 { SumOne(e, PaidTo(a)); }
    forall d ensures Sum(s.log, PaidAmount(d)) == 0 { SumOne(e, PaidAmount(d)); }
    forall d ensures Sum(s.log, Income(d)) == Sum(s.log, Outgo(d)) + Balance(s.bank, d) {
      SumOne(e, Income(d));
      SumOne(e, Outgo(d));
      CreditBalance(map[], [Coin(denom, amount)], d);
    }
  }

  // ----- a claim -----

  /** The address that the message names as its destination. */
  ghost function Dest(w: World, msg: Msg): Bytes
  {
    if w.bech32(msg.newAddress).Some? then w.bech32(msg.newAddress).value else []
  }

  /** The message is signed, with the key of the old address, for its destination. */
  ghost predicate Signed(w: World, msg: Msg)
  {
    && w.addressOf(msg.pubKey) == Some(msg.oldAddress)
    && w.verifies(msg.pubKey, msg.oldAddress + [46] + msg.pubKey + [46] + msg.newAddress, msg.signature)
    && w.bech32(msg.newAddress).Some?
  }

  /** Claims are open, the record is there and not claimed, and the message is signed. */
  ghost predicate Claimable(w: World, s: State, msg: Msg)
  {
    && s.params.enableClaims && s.blockTime <= s.params.claimEndTime * NANOS
    && s.blockClaims < s.params.maxClaimsPerBlock
    && msg.oldAddress in s.records && !s.records[msg.oldAddress].claimed
    && Signed(w, msg)
  }

  /** The destination can take the payment, and the module can make it. */
  ghost predicate Payable(w: World, s: State, msg: Msg, kind: Kind)
    requires msg.oldAddress in s.records
  {
    var coins, dest := s.records[msg.oldAddress].balance, Dest(w, msg);
    && (kind.Delayed? ==>
         && (dest in s.accounts ==> s.accounts[dest].BaseAccount?)
         && w.vestingValid(coins, w.addMonths(s.blockTime, (kind.tier * 6) % TWO_32)))
    && !w.blocked(dest)
    && forall d :: AmountOf(coins, d) <= Balance(s.bank, d)
  }

  /** Exactly which claims are accepted. */
  lemma ClaimAccepted(w: World, s: State, msg: Msg, kind: Kind)
    ensures ProcessClaim(w, s, msg, kind).Ok? <==> Claimable(w, s, msg) && Payable(w, s, msg, kind)
  {
    assert DOT == [46];
    hide AmountOf, Debit, Ascii, DOT;
    if CheckClaim(w, s, msg).Ok? {
      var coins := s.records[msg.oldAddress].balance;
      if Debit(s.bank, coins).Some? {
        forall d ensures AmountOf(coins, d) <= Balance(s.bank, d) { DebitBalance(s.bank, coins, d); }
      }
      if forall d :: AmountOf(coins, d) <= Balance(s.bank, d) { DebitSucceeds(s.bank, coins); }
    }
  }

  /** What an accepted claim does: to the record, the account of the destination, the coins, and nothing else. */
  ghost predicate ClaimDone(w: World, s: State, t: State, msg: Msg, kind: Kind)
  {
    && msg.oldAddress in s.records
    && var r, dest := s.records[msg.oldAddress], Dest(w, msg);
    && t.records == s.records[msg.oldAddress := ClaimRecord(msg.oldAddress, r.balance, true, Int64(s.blockTime / NANOS),
         msg.newAddress, if kind.Delayed? then kind.tier else 0)]
    && t.accounts == s.accounts[dest :=
         if kind.Delayed? then VestingAccount(r.balance, w.addMonths(s.blockTime, (kind.tier * 6) % TWO_32))
         else if dest in s.accounts then s.accounts[dest] else BaseAccount]
    && (forall d ::
         Balance(t.bank, d) == Balance(s.bank, d) - if dest == w.moduleAddress then 0 else AmountOf(r.balance, d))
    && t.log == s.log + [Paid(msg.oldAddress, dest, r.balance, s.blockTime)] +
         (if dest == w.moduleAddress then [Deposited(r.balance)] else [])
    && t.params == s.params && t.count == s.count && t.blockTime == s.blockTime
  }

  lemma ClaimDoes(w: World, s: State, msg: Msg, kind: Kind)
    requires Stored(s) && ProcessClaim(w, s, msg, kind).Ok?
    ensures ClaimDone(w, s, ProcessClaim(w, s, msg, kind).value, msg, kind)
  {
    hide AmountOf, Debit, Ascii, Int64;
    var r, t := s.records[msg.oldAddress], ProcessClaim(w, s, msg, kind).value;
    forall d ensures
      Balance(t.bank, d) == Balance(s.bank, d) - if Dest(w, msg) == w.moduleAddress then 0 else AmountOf(r.balance, d)
    {
      DebitBalance(s.bank, r.balance, d);
    }
  }

  /** What a claim adds to the log. */
  ghost function Receipt(w: World, s: State, msg: Msg, r: ClaimRecord): seq<Event>
  {
    [Paid(msg.oldAddress, Dest(w, msg), r.balance, s.blockTime)] +
    (if w.bech32(msg.newAddress) == Some(w.moduleAddress) then [Deposited(r.balance)] else [])
  }

  /** The receipt counted by any measure. */
  lemma ReceiptSum(w: World, s: State, msg: Msg, r: ClaimRecord, f: Event -> nat)
    ensures Sum(Receipt(w, s, msg, r), f) == f(Paid(msg.oldAddress, Dest(w, msg), r.balance, s.blockTime)) +
      (if w.bech32(msg.newAddress) == Some(w.moduleAddress) then f(Deposited(r.balance)) else 0)
  {
    var p, d := Paid(msg.oldAddress, Dest(w, msg), r.balance, s.blockTime), Deposited(r.balance);
    hide Sum;
    SumOne(p, f);
    if w.bech32(msg.newAddress) == Some(w.moduleAddress) {
      SumAppend([p], d, f);
    } else {
      assert Receipt(w, s, msg, r) == [p];
    }
  }

  /** What an accepted claim changes, in the terms of the invariant. */
  ghost predicate ClaimEffect(w: World, s: State, t: State, msg: Msg, r: ClaimRecord)
  {
    && msg.oldAddress in s.records && s.records[msg.oldAddress] == r && !r.claimed
    && msg.oldAddress in t.records && t.records[msg.oldAddress].claimed
    && t.records[msg.oldAddress].balance == r.balance
    && t.records == s.records[msg.oldAddress := t.records[msg.oldAddress]]
    && t.log == s.log + Receipt(w, s, msg, r)
    && (forall d :: AmountOf(r.balance, d) <= Balance(s.bank, d))
    && (forall d :: Balance(t.bank, d) ==
         if w.bech32(msg.newAddress) == Some(w.moduleAddress) then Balance(s.bank, d)
           else Balance(s.bank, d) - AmountOf(r.balance, d))
  }

  lemma ClaimChanges(w: World, s: State, msg: Msg, kind: Kind)
    requires Stored(s) && ProcessClaim(w, s, msg, kind).Ok?
    ensures ClaimEffect(w, s, ProcessClaim(w, s, msg, kind).value, msg, s.records[msg.oldAddress])
  {
    hide AmountOf, Debit;
    var r := s.records[msg.oldAddress];
    var t := ProcessClaim(w, s, msg, kind).value;
    assert t.log == s.log + Receipt(w, s, msg, r);
    forall d
      ensures AmountOf(r.balance, d) <= Balance(s.bank, d)
      ensures Balance(t.bank, d) == if w.bech32(msg.newAddress) == Some(w.moduleAddress) then Balance(s.bank, d)
        else Balance(s.bank, d) - AmountOf(r.balance, d)
    {
      DebitBalance(s.bank, r.balance, d);
    }
  }

  lemma ClaimConserves(w: World, s: State, t: State, msg: Msg, r: ClaimRecord)
    requires ClaimEffect(w, s, t, msg, r) && Conserved(s)
    ensures Conserved(t)
  {
    hide AmountOf, Sum, Receipt;
    forall d ensures Sum(t.log, Income(d)) == Sum(t.log, Outgo(d)) + Balance(t.bank, d) {
      assert Sum(s.log, Income(d)) == Sum(s.log, Outgo(d)) + Balance(s.bank, d);
      SumConcat(s.log, Receipt(w, s, msg, r), Income(d));
      SumConcat(s.log, Receipt(w, s, msg, r), Outgo(d));
      ReceiptSum(w, s, msg, r, Income(d));
      ReceiptSum(w, s, msg, r, Outgo(d));
    }
  }

  lemma ClaimPays(w: World, s: State, t: State, msg: Msg, r: ClaimRecord)
    requires ClaimEffect(w, s, t, msg, r) && PaidOnce(s) && PaidInFull(s)
    ensures PaidOnce(t) && PaidInFull(t)
  {
    hide AmountOf, Sum, Receipt, MapSum;
    forall a ensures Sum(t.log, PaidTo(a)) == Bit(a in t.records && t.records[a].claimed) {
      assert Sum(s.log, PaidTo(a)) == Bit(a in s.records && s.records[a].claimed);
      SumConcat(s.log, Receipt(w, s, msg, r), PaidTo(a));
      ReceiptSum(w, s, msg, r, PaidTo(a));
    }
    forall d ensures Sum(t.log, PaidAmount(d)) == MapSum(t.records, Claimed(d)) {
      assert Sum(s.log, PaidAmount(d)) == MapSum(s.records, Claimed(d));
      SumConcat(s.log, Receipt(w, s, msg, r), PaidAmount(d));
      ReceiptSum(w, s, msg, r, PaidAmount(d));
      MapSumSet(s.records, Claimed(d), msg.oldAddress, t.records[msg.oldAddress]);
    }
  }

  lemma ClaimStaysSolvent(w: World, s: State, t: State, msg: Msg, r: ClaimRecord)
    requires ClaimEffect(w, s, t, msg, r)
    ensures Burnt(t) <==> Burnt(s)
    ensures Solvent(s) ==> Solvent(t)
  {
    hide AmountOf, Sum, Receipt, MapSum;
    SumConcat(s.log, Receipt(w, s, msg, r), IsBurned());
    ReceiptSum(w, s, msg, r, IsBurned());
    if Solvent(s) {
      forall d ensures MapSum(t.records, Unclaimed(d)) <= Balance(t.bank, d) {
        assert MapSum(s.records, Unclaimed(d)) <= Balance(s.bank, d);
        MapSumSet(s.records, Unclaimed(d), msg.oldAddress, t.records[msg.oldAddress]);
      }
    }
  }

  lemma ClaimCounts(w: World, s: State, msg: Msg, kind: Kind)
    requires ProcessClaim(w, s, msg, kind).Ok?
    ensures var t := ProcessClaim(w, s, msg, kind).value;
      && t.params == s.params && t.blockLimit == s.blockLimit && t.blockStart == s.blockStart
      && t.blockClaims == s.blockClaims + 1 <= s.params.maxClaimsPerBlock
  {
    hide Debit, PrepareAccount;
  }

  lemma ClaimStaysLimited(w: World, s: State, t: State, msg: Msg, r: ClaimRecord)
    requires ClaimEffect(w, s, t, msg, r) && Limited(s)
    requires t.params == s.params && t.blockLimit == s.blockLimit && t.blockStart == s.blockStart
    requires t.blockClaims == s.blockClaims + 1 <= s.params.maxClaimsPerBlock
    ensures Limited(t)
  {
    hide Sum, Receipt, AmountOf;
    assert t.log[s.blockStart..] == s.log[s.blockStart..] + Receipt(w, s, msg, r);
    SumConcat(s.log[s.blockStart..], Receipt(w, s, msg, r), IsPaid());
    ReceiptSum(w, s, msg, r, IsPaid());
  }

  lemma ClaimStaysStored(w: World, s: State, msg: Msg, kind: Kind)
    requires Stored(s) && ProcessClaim(w, s, msg, kind).Ok?
    ensures Stored(ProcessClaim(w, s, msg, kind).value)
  {
    var r := s.records[msg.oldAddress];
    var t := Transfer(w, s, msg.oldAddress, r.balance, kind, CheckClaim(w, s, msg).value).value;
    StoredByRecords(s, t);
    hide Stored, Transfer, CheckClaim, ClaimedRecord;
    SetRecordStored(t, ClaimedRecord(t, r, msg, kind));
  }

  lemma ClaimInv(w: World, s: State, msg: Msg, kind: Kind)
    requires Inv(s) && ProcessClaim(w, s, msg, kind).Ok?
    ensures Inv(ProcessClaim(w, s, msg, kind).value)
  {
    assert msg.oldAddress in s.records;
    hide ProcessClaim, ClaimEffect, Stored;
    var r, t := s.records[msg.oldAddress], ProcessClaim(w, s, msg, kind).value;
    ClaimChanges(w, s, msg, kind);
    ClaimCounts(w, s, msg, kind);
    ClaimStaysStored(w, s, msg, kind);
    hide Conserved, PaidOnce, PaidInFull, Solvent, Limited, Burnt;
    ClaimConserves(w, s, t, msg, r);
    ClaimPays(w, s, t, msg, r);
    ClaimStaysLimited(w, s, t, msg, r);
    ClaimStaysSolvent(w, s, t, msg, r);
  }

  /** Before the burn no claim fails for lack of funds. */
  lemma ClaimIsFunded(w: World, s: State, msg: Msg, kind: Kind)
    requires Inv(s) && !Burnt(s)
    ensures ProcessClaim(w, s, msg, kind) != Err(InsufficientFunds)
  {
    if CheckClaim(w, s, msg).Ok? {
      hide AmountOf, MapSum, Debit;
      var r := s.records[msg.oldAddress];
      forall d ensures AmountOf(r.balance, d) <= Balance(s.bank, d) {
        MapSumRemove(s.records, Unclaimed(d), msg.oldAddress);
        assert MapSum(s.records, Unclaimed(d)) <= Balance(s.bank, d);
      }
      DebitSucceeds(s.bank, r.balance);
    }
  }

  // ----- the other steps -----

  lemma DepositInv(s: State, coins: seq<Coin>)
    requires Inv(s)
    ensures Inv(Deposit(s, coins))
  {
    hide AmountOf, MapSum, Sum, Credit, Stored;
    var t, e := Deposit(s, coins), Deposited(coins);
    assert t.log[s.blockStart..] == s.log[s.blockStart..] + [e];
    SumAppend(s.log[s.blockStart..], e, IsPaid());
    SumAppend(s.log, e, IsBurned());
    assert Stored(t) by { StoredByRecords(s, t); }
    forall a ensures Sum(t.log, PaidTo(a)) == Bit(a in t.records && t.records[a].claimed) {
      SumAppend(s.log, e, PaidTo(a));
      assert Sum(s.log, PaidTo(a)) == Bit(a in s.records && s.records[a].claimed);
    }
    forall d ensures Sum(t.log, PaidAmount(d)) == MapSum(t.records, Claimed(d)) {
      SumAppend(s.log, e, PaidAmount(d));
      assert Sum(s.log, PaidAmount(d)) == MapSum(s.records, Claimed(d));
    }
    forall d ensures Sum(t.log, Income(d)) == Sum(t.log, Outgo(d)) + Balance(t.bank, d) {
      assert Sum(s.log, Income(d)) == Sum(s.log, Outgo(d)) + Balance(s.bank, d);
      SumAppend(s.log, e, Income(d));
      SumAppend(s.log, e, Outgo(d));
      CreditBalance(s.bank, coins, d);
    }
    if Solvent(s) {
      forall d ensures MapSum(t.records, Unclaimed(d)) <= Balance(t.bank, d) {
        assert MapSum(s.records, Unclaimed(d)) <= Balance(s.bank, d);
        CreditBalance(s.bank, coins, d);
      }
    }
  }

  lemma BurnInv(s: State)
    requires Inv(s) && EndBlock(s).log != s.log
    ensures Inv(EndBlock(s)) && Burnt(EndBlock(s))
    ensures Balance(EndBlock(s).bank, ULUME) == 0
  {
    hide AmountOf, MapSum, Sum, Stored, Ascii;
    var t, left := EndBlock(s), Balance(s.bank, ULUME);
    var e := Burned([Coin(ULUME, left)], s.blockTime);
    assert t.log[s.blockStart..] == s.log[s.blockStart..] + [e];
    SumAppend(s.log[s.blockStart..], e, IsPaid());
    SumAppend(s.log, e, IsBurned());
    assert Stored(t) by { StoredByRecords(s, t); }
    forall a ensures Sum(t.log, PaidTo(a)) == Bit(a in t.records && t.records[a].claimed) {
      SumAppend(s.log, e, PaidTo(a));
      assert Sum(s.log, PaidTo(a)) == Bit(a in s.records && s.records[a].claimed);
    }
    forall d ensures Sum(t.log, PaidAmount(d)) == MapSum(t.records, Claimed(d)) {
      SumAppend(s.log, e, PaidAmount(d));
      assert Sum(s.log, PaidAmount(d)) == MapSum(s.records, Claimed(d));
    }
    forall d ensures Sum(t.log, Income(d)) == Sum(t.log, Outgo(d)) + Balance(t.bank, d) {
      assert Sum(s.log, Income(d)) == Sum(s.log, Outgo(d)) + Balance(s.bank, d);
      SumAppend(s.log, e, Income(d));
      SumAppend(s.log, e, Outgo(d));
      OneCoin(ULUME, left, d);
    }
  }

  /** A step that leaves records, coins and log alone. */
  lemma QuietInv(s: State, t: State)
    requires Inv(s) && t.records == s.records && t.count == s.count && t.bank == s.bank && t.log == s.log
    requires Limited(t)
    ensures Inv(t)
  {
    hide AmountOf, MapSum, Sum, Stored, Limited;
    assert Stored(t) by { StoredByRecords(s, t); }
    forall a ensures Sum(t.log, PaidTo(a)) == Bit(a in t.records && t.records[a].claimed) {
      assert Sum(s.log, PaidTo(a)) == Bit(a in s.records && s.records[a].claimed);
    }
    forall d ensures Sum(t.log, PaidAmount(d)) == MapSum(t.records, Claimed(d)) {
      assert Sum(s.log, PaidAmount(d)) == MapSum(s.records, Claimed(d));
    }
    forall d ensures Sum(t.log, Income(d)) == Sum(t.log, Outgo(d)) + Balance(t.bank, d) {
      assert Sum(s.log, Income(d)) == Sum(s.log, Outgo(d)) + Balance(s.bank, d);
    }
    if Solvent(s) {
      forall d ensures MapSum(t.records, Unclaimed(d)) <= Balance(t.bank, d) {
        assert MapSum(s.records, Unclaimed(d)) <= Balance(s.bank, d);
      }
    }
  }

  /** A burn leaves the module able to pay what it still owes exactly when it owes no ulume. */
  lemma BurnAndSolvency(s: State)
    requires Inv(s) && Solvent(s) && EndBlock(s).log != s.log
    ensures Solvent(EndBlock(s)) <==> MapSum(s.records, Unclaimed(ULUME)) == 0
  {
    hide AmountOf, MapSum, Sum, Stored, Ascii;
    var t := EndBlock(s);
    assert Balance(t.bank, ULUME) == 0;
    if MapSum(s.records, Unclaimed(ULUME)) == 0 {
      forall d ensures MapSum(t.records, Unclaimed(d)) <= Balance(t.bank, d) {
        assert MapSum(s.records, Unclaimed(d)) <= Balance(s.bank, d);
      }
    } else {
      assert !(MapSum(t.records, Unclaimed(ULUME)) <= Balance(t.bank, ULUME));
    }
  }

  // ----- runs -----

  datatype Step =
    | Claims(msg: Msg, kind: Kind)
    | Updates(params: Params)
    | Gives(coins: seq<Coin>)
    | Ends
    | Blocks(time: int)

  function Next(w: World, s: State, step: Step): State
  {
    match step
    case Claims(msg, kind) => (match ProcessClaim(w, s, msg, kind) case Ok(t) => t case Err(_) => s)
    case Updates(p) => UpdateParams(s, p)
    case Gives(coins) => Deposit(s, coins)
    case Ends => EndBlock(s)
    case Blocks(time) => NextBlock(s, time)
  }

  lemma InvStep(w: World, s: State, step: Step)
    requires Inv(s)
    ensures Inv(Next(w, s, step))
  {
    match step
    case Claims(msg, kind) =>
      hide Inv, ProcessClaim;
      if ProcessClaim(w, s, msg, kind).Ok? { ClaimInv(w, s, msg, kind); }
    case Updates(p) =>
      hide Conserved, PaidOnce, PaidInFull, Solvent, Stored, Burnt, Sum;
      QuietInv(s, UpdateParams(s, p));
    case Gives(coins) =>
      hide Inv;
      DepositInv(s, coins);
    case Ends =>
      hide Conserved, PaidOnce, PaidInFull, Solvent, Stored, Burnt, Sum;
      if EndBlock(s).log != s.log { BurnInv(s); } else { QuietInv(s, EndBlock(s)); }
    case Blocks(time) =>
      assert s.log[|s.log|..] == [];
      hide Conserved, PaidOnce, PaidInFull, Solvent, Stored, Burnt;
      QuietInv(s, NextBlock(s, time));
  }

  ghost predicate Run(w: World, g: Genesis, accounts: map<Bytes, Account>, time: int,
        states: seq<State>, steps: seq<Step>)
  {
    && |states| == |steps| + 1
    && InitGenesis(g, accounts, time) == Some(states[0])
    && forall k :: 0 <= k < |steps| ==> states[k + 1] == Next(w, states[k], steps[k])
  }

  /** Conservation, at-most-once payment, payment in full, record counts, block limits: in every state of every run. */
  lemma {:induction false} InvRun(w: World, g: Genesis, accounts: map<Bytes, Account>, time: int,
        states: seq<State>, steps: seq<Step>, k: nat)
    requires Run(w, g, accounts, time, states, steps) && k < |states|
    ensures Inv(states[k])
  {
    hide Inv, Next, InitGenesis;
    if k == 0 {
      GenesisInv(g, accounts, time);
    } else {
      InvRun(w, g, accounts, time, states, steps, k - 1);
      assert states[k - 1 + 1] == Next(w, states[k - 1], steps[k - 1]);
      InvStep(w, states[k - 1], steps[k - 1]);
    }
  }

  /** The event is the payment of a signed message for the record that was stored when it was accepted. */
  ghost predicate PaysFor(w: World, s: State, step: Step, e: Event)
  {
    && e.Paid? && step.Claims? && Claimable(w, s, step.msg)
    && step.msg.oldAddress == e.oldAddress && w.bech32(step.msg.newAddress) == Some(e.dest)
    && s.records[e.oldAddress].balance == e.coins && s.blockTime == e.time
  }

  lemma PaidByStep(w: World, s: State, step: Step, i: nat)
    requires Stored(s) && |s.log| <= i < |Next(w, s, step).log| && Next(w, s, step).log[i].Paid?
    ensures PaysFor(w, s, step, Next(w, s, step).log[i])
  {
    hide Claimable, Payable, ProcessClaim, Credit, Ascii, Stored, AmountOf;
    if step.Claims? && ProcessClaim(w, s, step.msg, step.kind).Ok? {
      ClaimAccepted(w, s, step.msg, step.kind);
      ClaimDoes(w, s, step.msg, step.kind);
      assert Signed(w, step.msg) by { SignedWhenClaimable(w, s, step.msg); }
    }
  }

  lemma SignedWhenClaimable(w: World, s: State, msg: Msg)
    requires Claimable(w, s, msg)
    ensures Signed(w, msg)
  {
  }

  lemma LogGrows(w: World, s: State, step: Step)
    requires Stored(s)
    ensures s.log <= Next(w, s, step).log
  {
    hide ProcessClaim, Credit, Ascii, Stored, AmountOf;
    if step.Claims? && ProcessClaim(w, s, step.msg, step.kind).Ok? { ClaimDoes(w, s, step.msg, step.kind); }
  }

  lemma GenesisPaysNothing(g: Genesis, accounts: map<Bytes, Account>, time: int, i: nat)
    requires InitGenesis(g, accounts, time).Some? && i < |InitGenesis(g, accounts, time).value.log|
    ensures !InitGenesis(g, accounts, time).value.log[i].Paid?
  {
    if !g.skipClaims && g.total != 0 {
      hide LoadRows, RowTotal, Credit, InitGenesis;
      GenesisParts(g, accounts, time);
    }
  }

  /** Over every run, every payment comes from a step whose message is signed for that address and destination. */
  lemma {:induction false} PaidWasSigned(w: World, g: Genesis, accounts: map<Bytes, Account>, time: int,
        states: seq<State>, steps: seq<Step>, k: nat, i: nat)
    requires Run(w, g, accounts, time, states, steps) && k < |states|
    requires i < |states[k].log| && states[k].log[i].Paid?
    ensures exists j :: 0 <= j < k && PaysFor(w, states[j], steps[j], states[k].log[i])
  {
    hide Next, InitGenesis, Inv, PaysFor;
    if k == 0 {
      GenesisPaysNothing(g, accounts, time, i);
    } else {
      var s := states[k - 1];
      InvRun(w, g, accounts, time, states, steps, k - 1);
      InvStored(s);
      assert states[k - 1 + 1] == Next(w, s, steps[k - 1]);
      LogGrows(w, s, steps[k - 1]);
      if i < |s.log| {
        PaidWasSigned(w, g, accounts, time, states, steps, k - 1, i);
      } else {
        PaidByStep(w, s, steps[k - 1], i);
      }
    }
  }

  /** A record never disappears, its balance never changes, and once it is claimed nothing in it does. */
  lemma RecordsFrozen(w: World, s: State, step: Step, a: Bytes)
    requires Stored(s) && a in s.records
    ensures a in Next(w, s, step).records
    ensures Next(w, s, step).records[a].balance == s.records[a].balance
    ensures s.records[a].claimed ==> Next(w, s, step).records[a] == s.records[a]
  {
    hide Debit, PrepareAccount, Credit;
  }

  lemma {:induction false} ClaimedForGood(w: World, g: Genesis, accounts: map<Bytes, Account>, time: int,
        states: seq<State>, steps: seq<Step>, j: nat, k: nat, a: Bytes)
    requires Run(w, g, accounts, time, states, steps) && j <= k < |states|
    requires a in states[j].records
    ensures a in states[k].records && states[k].records[a].balance == states[j].records[a].balance
    ensures states[j].records[a].claimed ==> states[k].records[a] == states[j].records[a]
  {
    hide Next, InitGenesis, Inv;
    if j < k {
      ClaimedForGood(w, g, accounts, time, states, steps, j, k - 1, a);
      InvRun(w, g, accounts, time, states, steps, k - 1);
      assert states[k - 1 + 1] == Next(w, states[k - 1], steps[k - 1]);
      assert Stored(states[k - 1]) by { InvStored(states[k - 1]); }
      RecordsFrozen(w, states[k - 1], steps[k - 1], a);
    }
  }

  lemma InvStored(s: State)
    requires Inv(s)
    ensures Stored(s)
  {
  }

  // ----- the deadline -----

  /** Block times do not go back, the end of the period stays, and disabled claims stay disabled. */
  ghost predicate Steady(s: State, step: Step)
  {
    match step
    case Updates(p) => p.claimEndTime == s.params.claimEndTime && (p.enableClaims ==> s.params.enableClaims)
    case Blocks(time) => time >= s.blockTime
    case _ => true
  }

  /** After a burn there is neither a payment nor another burn. */
  ghost predicate BurnIsLast(log: seq<Event>)
  {
    forall i, j :: 0 <= i < j < |log| && log[i].Burned? ==> !log[j].Paid? && !log[j].Burned?
  }

  /** Payments happen up to the end of the period, the burn after it. */
  ghost predicate InTime(log: seq<Event>, end: int)
  {
    forall i :: 0 <= i < |log| ==>
      && (log[i].Paid? ==> log[i].time <= end * NANOS)
      && (log[i].Burned? ==> log[i].time > end * NANOS + 1)
  }

  ghost predicate BurnDisables(s: State)
  {
    forall i :: 0 <= i < |s.log| && s.log[i].Burned? ==> !s.params.enableClaims
  }

  ghost predicate DeadlineInv(s: State, end: int)
  {
    s.params.claimEndTime == end && BurnIsLast(s.log) && InTime(s.log, end) && BurnDisables(s)
  }

  lemma DeadlineStep(w: World, s: State, step: Step, end: int)
    requires DeadlineInv(s, end) && Steady(s, step)
    ensures DeadlineInv(Next(w, s, step), end)
  {
    hide Debit, PrepareAccount, Credit, Ascii;
  }

  lemma DeadlineGenesis(g: Genesis, accounts: map<Bytes, Account>, time: int)
    requires InitGenesis(g, accounts, time).Some?
    ensures DeadlineInv(InitGenesis(g, accounts, time).value, g.params.claimEndTime)
  {
    RowsLoaded(EmptyState(g.params, accounts, time), g.rows, g.denom);
    hide LoadRows, RowTotal, Credit;
  }

  /**
   In a run with steady parameters every accepted claim precedes the burn, which happens at most once; no
   claim succeeds after it.
   */
  lemma {:induction false} DeadlineRun(w: World, g: Genesis, accounts: map<Bytes, Account>, time: int,
        states: seq<State>, steps: seq<Step>, k: nat)
    requires Run(w, g, accounts, time, states, steps) && k < |states|
    requires forall i :: 0 <= i < |steps| ==> Steady(states[i], steps[i])
    ensures DeadlineInv(states[k], g.params.claimEndTime)
  {
    hide Next, InitGenesis, DeadlineInv, Steady;
    if k == 0 {
      DeadlineGenesis(g, accounts, time);
    } else {
      DeadlineRun(w, g, accounts, time, states, steps, k - 1);
      assert states[k - 1 + 1] == Next(w, states[k - 1], steps[k - 1]) && Steady(states[k - 1], steps[k - 1]);
      DeadlineStep(w, states[k - 1], steps[k - 1], g.params.claimEndTime);
    }
  }

  /** Nothing is paid and nothing is burned between two histories. */
  ghost predicate Untouched(before: seq<Event>, after: seq<Event>)
  {
    before <= after && forall i :: |before| <= i < |after| ==> !after[i].Paid? && !after[i].Burned?
  }

  lemma OffStep(w: World, s: State, step: Step)
    requires Steady(s, step) && !s.params.enableClaims
    ensures !Next(w, s, step).params.enableClaims && Untouched(s.log, Next(w, s, step).log)
  {
    hide Debit, PrepareAccount, Credit, Ascii;
  }

  /** Once claims are off, by whatever step, steady steps pay and burn nothing any more. */
  lemma {:induction false} ClosedForGood(w: World, g: Genesis, accounts: map<Bytes, Account>, time: int,
        states: seq<State>, steps: seq<Step>, j: nat, k: nat)
    requires Run(w, g, accounts, time, states, steps) && j <= k < |states|
    requires forall i :: j <= i < |steps| ==> Steady(states[i], steps[i])
    requires !states[j].params.enableClaims
    ensures !states[k].params.enableClaims && Untouched(states[j].log, states[k].log)
  {
    hide Next, InitGenesis, Steady;
    if j < k {
      ClosedForGood(w, g, accounts, time, states, steps, j, k - 1);
      assert states[k - 1 + 1] == Next(w, states[k - 1], steps[k - 1]) && Steady(states[k - 1], steps[k - 1]);
      OffStep(w, states[k - 1], steps[k - 1]);
    }
  }

  /** The first end of a block past the deadline is the last word, whether or not it finds anything to burn. */
  lemma ExpiryIsFinal(w: World, g: Genesis, accounts: map<Bytes, Account>, time: int,
        states: seq<State>, steps: seq<Step>, j: nat, k: nat)
    requires Run(w, g, accounts, time, states, steps) && j < k < |states|
    requires forall i :: j <= i < |steps| ==> Steady(states[i], steps[i])
    requires steps[j].Ends? && states[j].blockTime > states[j].params.claimEndTime * NANOS + 1
    ensures !states[k].params.enableClaims && Untouched(states[j + 1].log, states[k].log)
  {
    assert states[j + 1] == Next(w, states[j], steps[j]);
    assert !states[j + 1].params.enableClaims;
    hide Next, InitGenesis, Steady, Run;
    ClosedForGood(w, g, accounts, time, states, steps, j + 1, k);
  }
}
