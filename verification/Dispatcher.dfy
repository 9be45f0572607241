/**
 The broadcast dispatcher: any number of callers reserve transaction hashes under a lock, then try to send
 without it and roll back when the queue is full, while one worker takes batches off the queue.
 */
module Dispatcher {
  import opened Bytes
  import opened Sums

  /** Transaction hashes, of which only equality matters. */
  type Hash = nat

  datatype Tx = Tx(hash: Hash, body: nat)

  type Batch = seq<Tx>

  // ----- hashes of a batch -----

  function HashSet(txs: Batch): set<Hash>
  {
    set i | 0 <= i < |txs| :: txs[i].hash
  }

  /** How often the hash `h` occurs in a batch. */
  ghost function Times(txs: Batch, h: Hash): nat
  {
    if txs == [] then 0 else Times(txs[..|txs| - 1], h) + (if txs[|txs| - 1].hash == h then 1 else 0)
  }

  lemma {:induction false} TimesSupport(txs: Batch, h: Hash)
    ensures h in HashSet(txs) <==> Times(txs, h) > 0
  {
    if txs != [] {
      HashSetLast(txs);
      TimesSupport(txs[..|txs| - 1], h);
    }
  }

  lemma HashSetLast(txs: Batch)
    requires txs != []
    ensures HashSet(txs) == HashSet(txs[..|txs| - 1]) + {txs[|txs| - 1].hash}
  {
  }

  // ----- the critical section of enqueue -----

  datatype Filtering = Filtering(pending: set<Hash>, kept: Batch, deduped: nat)

  /** What one submitted transaction does; a nil one counts as a duplicate. */
  function Admit(f: Filtering, tx: Option<Tx>): Filtering
  {
    if tx.None? || tx.value.hash in f.pending then f.(deduped := f.deduped + 1)
    else f.(pending := f.pending + {tx.value.hash}, kept := f.kept + [tx.value])
  }

  /** The loop under the lock. */
  function Filter(pending: set<Hash>, txs: seq<Option<Tx>>): Filtering
  {
    if txs == [] then Filtering(pending, [], 0)
    else Admit(Filter(pending, txs[..|txs| - 1]), txs[|txs| - 1])
  }

  /** The transactions that are not nil, not pending already, and the first with their hash. */
  ghost predicate First(pending: set<Hash>, txs: seq<Option<Tx>>, i: nat)
    requires i < |txs|
  {
    && txs[i].Some?
    && txs[i].value.hash !in pending
    && forall j :: 0 <= j < i && txs[j].Some? ==> txs[j].value.hash != txs[i].value.hash
  }

  /** Those transactions among the first `n`, in order. */
  ghost function Firsts(pending: set<Hash>, txs: seq<Option<Tx>>, n: nat): Batch
    requires n <= |txs|
  {
    if n == 0 then []
    else if First(pending, txs, n - 1) then Firsts(pending, txs, n - 1) + [txs[n - 1].value]
    else Firsts(pending, txs, n - 1)
  }

  ghost predicate Submitted(txs: seq<Option<Tx>>, h: Hash)
  {
    exists j :: 0 <= j < |txs| && txs[j].Some? && txs[j].value.hash == h
  }

  lemma SubmittedLast(txs: seq<Option<Tx>>, h: Hash)
    requires txs != []
    ensures Submitted(txs, h) <==>
      Submitted(txs[..|txs| - 1], h) || (txs[|txs| - 1].Some? && txs[|txs| - 1].value.hash == h)
  {
  }

  /** The hashes reserved afterwards are the old ones and the submitted ones. */
  lemma {:induction false} FilterReserves(pending: set<Hash>, txs: seq<Option<Tx>>, h: Hash)
    ensures h in Filter(pending, txs).pending <==> h in pending || Submitted(txs, h)
  {
    hide Submitted;
    if txs == [] {
      assert !Submitted(txs, h) by { NoneSubmitted(h); }
    } else {
      SubmittedLast(txs, h);
      FilterReserves(pending, txs[..|txs| - 1], h);
    }
  }

  lemma NoneSubmitted(h: Hash)
    ensures !Submitted([], h)
  {
  }

  /** Each kept transaction reserves its own hash, which nobody had; all others are counted. */
  lemma {:induction false} FilterTimes(pending: set<Hash>, txs: seq<Option<Tx>>, h: Hash)
    ensures Bit(h in Filter(pending, txs).pending) == Bit(h in pending) + Times(Filter(pending, txs).kept, h)
    ensures |Filter(pending, txs).kept| + Filter(pending, txs).deduped == |txs|
  {
    if txs != [] {
      var f, tx := Filter(pending, txs[..|txs| - 1]), txs[|txs| - 1];
      FilterTimes(pending, txs[..|txs| - 1], h);
      if tx.Some? && tx.value.hash !in f.pending {
        assert (f.kept + [tx.value])[..|f.kept|] == f.kept;
      }
    }
  }

  /** The filter keeps exactly the first occurrence of every hash that was not pending, in order. */
  lemma {:induction false} FilterKeeps(pending: set<Hash>, txs: seq<Option<Tx>>)
    ensures Filter(pending, txs).kept == Firsts(pending, txs, |txs|)
  {
    if txs != [] {
      var n := |txs| - 1;
      FilterKeeps(pending, txs[..n]);
      FirstsPrefix(pending, txs, n);
      if txs[n].Some? {
        FilterReserves(pending, txs[..n], txs[n].value.hash);
        assert Submitted(txs[..n], txs[n].value.hash) <==>
          exists j :: 0 <= j < n && txs[j].Some? && txs[j].value.hash == txs[n].value.hash;
      }
    }
  }

  lemma {:induction false} FirstsPrefix(pending: set<Hash>, txs: seq<Option<Tx>>, n: nat)
    requires n <= |txs|
    ensures Firsts(pending, txs[..n], n) == Firsts(pending, txs, n)
  {
    FirstsLonger(pending, txs, n, n);
  }

  lemma {:induction false} FirstsLonger(pending: set<Hash>, txs: seq<Option<Tx>>, m: nat, n: nat)
    requires m <= n <= |txs|
    ensures Firsts(pending, txs[..n], m) == Firsts(pending, txs, m)
  {
    if m > 0 {
      FirstsLonger(pending, txs, m - 1, n);
      assert First(pending, txs[..n], m - 1) <==> First(pending, txs, m - 1);
    }
  }

  lemma ReleaseUndoes(pending: set<Hash>, txs: seq<Option<Tx>>)
    ensures Filter(pending, txs).pending - HashSet(Filter(pending, txs).kept) == pending
  {
    hide Filter, HashSet, Times;
    var f := Filter(pending, txs);
    forall h ensures h in f.pending - HashSet(f.kept) <==> h in pending {
      FilterTimes(pending, txs, h);
      TimesSupport(f.kept, h);
    }
  }

  lemma KeptNothing(pending: set<Hash>, txs: seq<Option<Tx>>)
    requires Filter(pending, txs).kept == []
    ensures Filter(pending, txs).pending == pending
  {
  }

  // ----- the dispatcher's own code -----

  /** The shared fields: the dedupe set, and the channel with its capacity. */
  class Shared {
    var pending: set<Hash>
    var queue: seq<Batch>
    const capacity: nat

    constructor (capacity: nat)
      ensures pending == {} && queue == [] && this.capacity == capacity
    {
      this.capacity := capacity;
      pending, queue := {}, [];
    }

    /** The part of `enqueue` between lock and unlock. */
    method Reserve(txs: seq<Option<Tx>>) returns (filtered: Batch, deduped: nat)
      modifies this`pending
      ensures Filtering(pending, filtered, deduped) == Filter(old(pending), txs)
    {
      filtered, deduped := [], 0;
      for i := 0 to |txs|
        invariant Filtering(pending, filtered, deduped) == Filter(old(pending), txs[..i])
      {
        assert txs[..i + 1][..i] == txs[..i];
        var tx := txs[i];
        if tx.None? {
          deduped := deduped + 1;
        } else if tx.value.hash in pending {
          deduped := deduped + 1;
        } else {
          pending := pending + {tx.value.hash};
          filtered := filtered + [tx.value];
        }
      }
      assert txs[..|txs|] == txs;
    }

    /** The non-blocking send. */
    method TrySend(batch: Batch) returns (ok: bool)
      modifies this`queue
      ensures ok == (|old(queue)| < capacity)
      ensures queue == if ok then old(queue) + [batch] else old(queue)
    {
      ok := |queue| < capacity;
      if ok { queue := queue + [batch]; }
    }

    /**
     One call of `enqueue` that nothing interrupts. On a full queue the rollback leaves the dedupe set as it
     was found.
     */
    method Enqueue(txs: seq<Option<Tx>>) returns (accepted: nat, deduped: nat, queueFull: bool)
      modifies this`pending, this`queue
      ensures deduped == Filter(old(pending), txs).deduped
      ensures queueFull == (Filter(old(pending), txs).kept != [] && |old(queue)| >= capacity)
      ensures accepted == if queueFull then 0 else |Filter(old(pending), txs).kept|
      ensures pending == if queueFull then old(pending) else Filter(old(pending), txs).pending
      ensures queue == if accepted == 0 then old(queue) else old(queue) + [Filter(old(pending), txs).kept]
    {
      if |txs| == 0 { return 0, 0, false; }
      var filtered, n := Reserve(txs);
      if |filtered| == 0 {
        KeptNothing(old(pending), txs);
        return 0, n, false;
      }
      var ok := TrySend(filtered);
      if ok { return |filtered|, n, false; }
      ReleasePending(filtered);
      ReleaseUndoes(old(pending), txs);
      return 0, n, true;
    }

    /** `releasePending`. */
    method ReleasePending(txs: Batch)
      modifies this`pending
      ensures pending == old(pending) - HashSet(txs)
    {
      for i := 0 to |txs|
        invariant pending == old(pending) - HashSet(txs[..i])
      {
        HashSetLast(txs[..i + 1]);
        assert txs[..i + 1][..i] == txs[..i];
        pending := pending - {txs[i].hash};
      }
      assert txs[..|txs|] == txs;
    }
  }
}

/**
 Every interleaving of the dispatcher's atomic steps: the critical section and the rollback of a caller,
 its send, and the worker's moves. Nothing else touches the shared fields.
 */
module DispatcherRuns {
  import opened Bytes
  import opened Sums
  import opened Dispatcher

  /** A call of `enqueue`, between its atomic steps. */
  datatype Call =
    | Holding(txs: seq<Option<Tx>>, filtered: Batch, deduped: nat)
    | Refused(txs: seq<Option<Tx>>, filtered: Batch, deduped: nat)
    | Returned(txs: seq<Option<Tx>>, accepted: nat, deduped: nat, queueFull: bool)

  datatype Worker = Idle | Processing(batch: Batch) | Exited(panicked: bool)

  /** The shared fields, the callers, the worker, and the history of batches sent and taken. */
  datatype State = State(
    capacity: nat,
    pending: set<Hash>,
    queue: seq<Batch>,
    worker: Worker,
    stopping: bool,
    calls: seq<Call>,
    sent: seq<Batch>,
    taken: seq<Batch>)

  datatype Step =
    | Begin(txs: seq<Option<Tx>>)  // a call: filter under the lock
    | Send(i: nat)                 // the channel has room
    | Full(i: nat)                 // it has none
    | Rollback(i: nat)             // the refused caller gives its hashes back
    | Take                         // the worker receives a batch
    | Finish(panicked: bool)       // the batch is processed, or panics; its hashes are released either way
    | Stop                         // the stop channel is closed
    | Exit                         // the idle worker sees it

  predicate Init(s: State)
  {
    s.pending == {} && s.queue == [] && s.worker == Idle && !s.stopping
      && s.calls == [] && s.sent == [] && s.taken == []
  }

  predicate Enabled(s: State, step: Step)
  {
    match step
    case Begin(_) => true
    case Send(i) => i < |s.calls| && s.calls[i].Holding? && |s.queue| < s.capacity
    case Full(i) => i < |s.calls| && s.calls[i].Holding? && |s.queue| >= s.capacity
    case Rollback(i) => i < |s.calls| && s.calls[i].Refused?
    case Take => s.worker.Idle? && s.queue != []
    case Finish(_) => s.worker.Processing?
    case Stop => true
    case Exit => s.worker.Idle? && s.stopping
  }

  function Apply(s: State, step: Step): State
    requires Enabled(s, step)
  {
    match step
    case Begin(txs) =>
      if txs == [] then s.(calls := s.calls + [Returned(txs, 0, 0, false)])
      else
        var f := Filter(s.pending, txs);
        var call := if f.kept == [] then Returned(txs, 0, f.deduped, false) else Holding(txs, f.kept, f.deduped);
        s.(pending := f.pending, calls := s.calls + [call])
    case Send(i) =>
      var c := s.calls[i];
      s.(queue := s.queue + [c.filtered], sent := s.sent + [c.filtered],
         calls := s.calls[i := Returned(c.txs, |c.filtered|, c.deduped, false)])
    case Full(i) =>
      var c := s.calls[i];
      s.(calls := s.calls[i := Refused(c.txs, c.filtered, c.deduped)])
    case Rollback(i) =>
      var c := s.calls[i];
      s.(pending := s.pending - HashSet(c.filtered), calls := s.calls[i := Returned(c.txs, 0, c.deduped, true)])
    case Take =>
      var b := s.queue[0];
      s.(queue := s.queue[1..], taken := s.taken + [b], worker := if b == [] then Idle else Processing(b))
    case Finish(panicked) =>
      s.(pending := s.pending - HashSet(s.worker.batch), worker := if panicked then Exited(true) else Idle)
    case Stop => s.(stopping := true)
    case Exit => s.(worker := Exited(false))
  }

  // ----- who owns which hash -----

  /** How often a caller that has not returned holds `h`. */
  ghost function HeldBy(h: Hash): Call -> nat
  {
    (c: Call) => if c.Returned? then 0 else Times(c.filtered, h)
  }

  ghost function InBatch(h: Hash): Batch -> nat
  {
    (b: Batch) => Times(b, h)
  }

  /** How many times `h` is in somebody's hands: a caller's, a queued batch's, or the worker's. */
  ghost function Owners(s: State, h: Hash): nat
  {
    Sum(s.calls, HeldBy(h)) + Sum(s.queue, InBatch(h)) + (if s.worker.Processing? then Times(s.worker.batch, h) else 0)
  }

  // ----- counting -----

  function SizeOf(b: Batch): nat { |b| }

  function SubmittedBy(c: Call): nat { |c.txs| }

  function DedupedBy(c: Call): nat { c.deduped }

  function AcceptedBy(c: Call): nat { if c.Returned? then c.accepted else 0 }

  /** What the caller of `enqueue` adds to the rejection metric: all but the duplicates, on a full queue. */
  function RejectedBy(c: Call): nat
  {
    if c.Returned? && c.queueFull && c.deduped <= |c.txs| then |c.txs| - c.deduped else 0
  }

  /** Transactions filtered but neither sent nor given back yet. */
  function InFlightBy(c: Call): nat { if c.Returned? then 0 else |c.filtered| }

  // ----- the invariant -----

  ghost predicate CallOk(c: Call)
  {
    match c
    case Returned(txs, accepted, deduped, queueFull) =>
      if queueFull then accepted == 0 && deduped < |txs| else accepted + deduped == |txs|
    case _ => c.filtered != [] && |c.filtered| + c.deduped == |c.txs|
  }

  /** A hash is reserved exactly when it is in somebody's hands, and then in those of one owner, once. */
  ghost predicate Exclusive(s: State)
  {
    forall h :: Owners(s, h) == Bit(h in s.pending)
  }

  ghost predicate Inv(s: State)
  {
    && Exclusive(s)
    && |s.queue| <= s.capacity
    && s.sent == s.taken + s.queue
    && (forall b :: b in s.queue ==> b != [])
    && (s.worker.Processing? ==> s.taken != [] && s.taken[|s.taken| - 1] == s.worker.batch)
    && (forall c :: c in s.calls ==> CallOk(c))
    && Sum(s.calls, AcceptedBy) == Sum(s.sent, SizeOf)
  }

  lemma InvInit(s: State)
    requires Init(s)
    ensures Inv(s)
  {
  }

  lemma InvBegin(s: State, txs: seq<Option<Tx>>)
    requires Inv(s)
    ensures Inv(Apply(s, Begin(txs)))
  {
    hide Times, HashSet, Filter, Sum;
    var s' := Apply(s, Begin(txs));
    var c := s'.calls[|s.calls|];
    FilterTimes(s.pending, txs, 0);
    SumAppend(s.calls, c, AcceptedBy);
    forall h ensures Owners(s', h) == Bit(h in s'.pending) {
      assert Owners(s, h) == Bit(h in s.pending);
      SumAppend(s.calls, c, HeldBy(h));
      FilterTimes(s.pending, txs, h);
      NoTimes(h);
    }
  }

  lemma NoTimes(h: Hash)
    ensures Times([], h) == 0
  {
  }

  lemma InvSend(s: State, i: nat)
    requires Inv(s) && Enabled(s, Send(i))
    ensures Inv(Apply(s, Send(i)))
  {
    hide Times, Sum;
    var s' := Apply(s, Send(i));
    assert CallOk(s.calls[i]) && CallOk(s'.calls[i]) by { assert s.calls[i] in s.calls; }
    var c, c' := s.calls[i], s'.calls[i];
    assert s'.sent == s'.taken + s'.queue;
    SumUpdate(s.calls, i, c', AcceptedBy);
    SumAppend(s.sent, c.filtered, SizeOf);
    forall h ensures Owners(s', h) == Bit(h in s'.pending) {
      assert Owners(s, h) == Bit(h in s.pending);
      SumUpdate(s.calls, i, c', HeldBy(h));
      SumAppend(s.queue, c.filtered, InBatch(h));
    }
  }

  lemma InvFull(s: State, i: nat)
    requires Inv(s) && Enabled(s, Full(i))
    ensures Inv(Apply(s, Full(i)))
  {
    hide Times, Sum;
    var s' := Apply(s, Full(i));
    assert CallOk(s.calls[i]) && CallOk(s'.calls[i]) by { assert s.calls[i] in s.calls; }
    var c' := s'.calls[i];
    SumUpdate(s.calls, i, c', AcceptedBy);
    forall h ensures Owners(s', h) == Bit(h in s'.pending) {
      assert Owners(s, h) == Bit(h in s.pending);
      SumUpdate(s.calls, i, c', HeldBy(h));
    }
  }

  /** Rolling back releases the hashes of this caller and of nobody else. */
  lemma RollbackReleasesOwn(s: State, i: nat, h: Hash)
    requires Inv(s) && Enabled(s, Rollback(i))
    ensures Owners(Apply(s, Rollback(i)), h) == Owners(s, h) - Times(s.calls[i].filtered, h)
    ensures Owners(Apply(s, Rollback(i)), h) == Bit(h in Apply(s, Rollback(i)).pending)
  {
    hide Times, HashSet, Sum;
    var c, c' := s.calls[i], Apply(s, Rollback(i)).calls[i];
    assert Owners(s, h) == Bit(h in s.pending);
    SumUpdate(s.calls, i, c', HeldBy(h));
    TimesSupport(c.filtered, h);
  }

  lemma InvRollback(s: State, i: nat)
    requires Inv(s) && Enabled(s, Rollback(i))
    ensures Inv(Apply(s, Rollback(i)))
  {
    hide Times, HashSet, Sum, Owners;
    var c' := Apply(s, Rollback(i)).calls[i];
    assert CallOk(s.calls[i]) && CallOk(c') by { assert s.calls[i] in s.calls; }
    SumUpdate(s.calls, i, c', AcceptedBy);
    forall h ensures Owners(Apply(s, Rollback(i)), h) == Bit(h in Apply(s, Rollback(i)).pending) {
      RollbackReleasesOwn(s, i, h);
    }
  }

  lemma InvTake(s: State)
    requires Inv(s) && Enabled(s, Take)
    ensures Inv(Apply(s, Take))
  {
    hide Times;
    var s' := Apply(s, Take);
    assert s.queue[0] != [] by { assert s.queue[0] in s.queue; }
    assert forall b :: b in s'.queue ==> b in s.queue;
    assert s'.sent == s'.taken + s'.queue;
    forall h ensures Owners(s', h) == Bit(h in s'.pending) {
      assert Owners(s, h) == Bit(h in s.pending);
      assert Sum(s.queue, InBatch(h)) == Times(s.queue[0], h) + Sum(s.queue[1..], InBatch(h));
    }
  }

  lemma InvFinish(s: State, panicked: bool)
    requires Inv(s) && Enabled(s, Finish(panicked))
    ensures Inv(Apply(s, Finish(panicked)))
  {
    hide Times, HashSet, Sum;
    var s' := Apply(s, Finish(panicked));
    forall h ensures Owners(s', h) == Bit(h in s'.pending) {
      assert Owners(s, h) == Bit(h in s.pending);
      TimesSupport(s.worker.batch, h);
    }
  }

  lemma InvStop(s: State, step: Step)
    requires Inv(s) && Enabled(s, step) && (step.Stop? || step.Exit?)
    ensures Inv(Apply(s, step))
  {
  }

  /** Every step keeps the invariant. */
  lemma InvStep(s: State, step: Step)
    requires Inv(s) && Enabled(s, step)
    ensures Inv(Apply(s, step))
  {
    hide Inv, Apply;
    match step
    case Begin(txs) => InvBegin(s, txs);
    case Send(i) => InvSend(s, i);
    case Full(i) => InvFull(s, i);
    case Rollback(i) => InvRollback(s, i);
    case Take => InvTake(s);
    case Finish(panicked) => InvFinish(s, panicked);
    case _ => InvStop(s, step);
  }

  // ----- runs -----

  /** The states of a run, each reached from the one before by an enabled step. */
  ghost predicate Run(states: seq<State>, steps: seq<Step>)
  {
    && |states| == |steps| + 1
    && Init(states[0])
    && forall k :: 0 <= k < |steps| ==> Enabled(states[k], steps[k]) && states[k + 1] == Apply(states[k], steps[k])
  }

  /**
   In every interleaving, the pending set is exactly the disjoint union of the hashes held by callers
   between unlock and send, by queued batches and by the batch in process.
   */
  lemma {:induction false} InvRun(states: seq<State>, steps: seq<Step>, k: nat)
    requires Run(states, steps) && k < |states|
    ensures Inv(states[k])
  {
    hide Inv, Apply, Enabled;
    if k == 0 {
      InvInit(states[0]);
    } else {
      InvRun(states, steps, k - 1);
      assert Enabled(states[k - 1], steps[k - 1]) && states[k - 1 + 1] == Apply(states[k - 1], steps[k - 1]);
      InvStep(states[k - 1], steps[k - 1]);
    }
  }

  /** No hash is in two hands, or in one batch twice: queued batches, the batch in process, batches of callers. */
  lemma NeverTwice(s: State, a: nat, b: nat, h: Hash)
    requires Inv(s)
    ensures a < |s.queue| ==> Times(s.queue[a], h) <= 1
    ensures a < b < |s.queue| ==> Times(s.queue[a], h) + Times(s.queue[b], h) <= 1
    ensures a < |s.queue| && s.worker.Processing? ==> Times(s.queue[a], h) + Times(s.worker.batch, h) <= 1
    ensures a < |s.queue| && b < |s.calls| && !s.calls[b].Returned? ==>
      Times(s.queue[a], h) + Times(s.calls[b].filtered, h) <= 1
    ensures a < b < |s.calls| && !s.calls[a].Returned? && !s.calls[b].Returned? ==>
      Times(s.calls[a].filtered, h) + Times(s.calls[b].filtered, h) <= 1
    ensures b < |s.calls| && !s.calls[b].Returned? && s.worker.Processing? ==>
      Times(s.calls[b].filtered, h) + Times(s.worker.batch, h) <= 1
  {
    hide Times, Sum;
    assert Owners(s, h) == Bit(h in s.pending) <= 1;
    if a < |s.queue| { SumAtLeast(s.queue, a, InBatch(h)); }
    if a < b < |s.queue| { SumAtLeastTwo(s.queue, a, b, InBatch(h)); }
    if b < |s.calls| { SumAtLeast(s.calls, b, HeldBy(h)); }
    if a < b < |s.calls| { SumAtLeastTwo(s.calls, a, b, HeldBy(h)); }
  }

  /** When all calls have returned and the worker is not processing,
     the hashes pending are those of the queued batches. */
  lemma ReservedAtRest(s: State, h: Hash)
    requires Inv(s) && !s.worker.Processing?
    requires forall c :: c in s.calls ==> c.Returned?
    ensures h in s.pending <==> exists q :: 0 <= q < |s.queue| && Times(s.queue[q], h) > 0
  {
    hide Times, Sum;
    assert Owners(s, h) == Bit(h in s.pending);
    NobodyHolds(s.calls, h);
    if h in s.pending {
      var q := SumSupport(s.queue, InBatch(h));
      assert Times(s.queue[q], h) > 0;
    }
    forall q | 0 <= q < |s.queue| && Times(s.queue[q], h) > 0 ensures h in s.pending {
      SumAtLeast(s.queue, q, InBatch(h));
    }
  }

  /** Hence nothing is pending once the queue is drained too. */
  lemma NothingLeaks(s: State)
    requires Inv(s) && s.queue == [] && !s.worker.Processing?
    requires forall c :: c in s.calls ==> c.Returned?
    ensures s.pending == {}
  {
    hide Inv;
    forall h ensures h !in s.pending { ReservedAtRest(s, h); }
  }

  lemma {:induction false} NobodyHolds(calls: seq<Call>, h: Hash)
    requires forall c :: c in calls ==> c.Returned?
    ensures Sum(calls, HeldBy(h)) == 0
  {
    if calls != [] {
      assert calls[0] in calls;
      NobodyHolds(calls[1..], h);
    }
  }

  // ----- accounting -----

  /** The batches whose processing is over, by return or by panic. */
  function Completed(s: State): seq<Batch>
  {
    if s.worker.Processing? && s.taken != [] then s.taken[..|s.taken| - 1] else s.taken
  }

  lemma {:induction false} CallsBalance(calls: seq<Call>)
    requires forall c :: c in calls ==> CallOk(c)
    ensures Sum(calls, SubmittedBy) ==
      Sum(calls, AcceptedBy) + Sum(calls, DedupedBy) + Sum(calls, RejectedBy) + Sum(calls, InFlightBy)
  {
    if calls != [] {
      assert CallOk(calls[0]);
      CallsBalance(calls[1..]);
    }
  }

  /**
   Every submitted transaction is accepted, a duplicate, counted by the rejection metric, or still with its
   caller; every accepted one is completed, in process or queued, whether or not processing panics and
   whether or not the worker was stopped. Batches are completed in the order they were sent.
   */
  lemma Accounting(s: State)
    requires Inv(s)
    ensures Sum(s.calls, SubmittedBy) ==
      Sum(s.calls, AcceptedBy) + Sum(s.calls, DedupedBy) + Sum(s.calls, RejectedBy) + Sum(s.calls, InFlightBy)
    ensures Sum(s.calls, AcceptedBy) ==
      Sum(Completed(s), SizeOf) + (if s.worker.Processing? then |s.worker.batch| else 0) + Sum(s.queue, SizeOf)
    ensures Completed(s) <= s.taken <= s.sent
  {
    hide Sum, Exclusive;
    CallsBalance(s.calls);
    SumConcat(s.taken, s.queue, SizeOf);
    if s.worker.Processing? {
      assert s.taken == Completed(s) + [s.worker.batch];
      SumAppend(Completed(s), s.worker.batch, SizeOf);
    }
  }

  /** What was sent, taken and completed only ever grows at its end. */
  lemma HistoryGrows(s: State, step: Step)
    requires Inv(s) && Enabled(s, step)
    ensures s.sent <= Apply(s, step).sent && Completed(s) <= Completed(Apply(s, step))
  {
    hide Sum, Exclusive, Filter;
  }

  // ----- after the worker is gone -----

  /**
   Once the worker has exited, by panic or by stop, batches still queued keep their hashes reserved for
   good: every later submission of such a transaction is dropped as a duplicate.
   */
  lemma {:induction false} StuckAfterExit(states: seq<State>, steps: seq<Step>, j: nat, k: nat, h: Hash, q: nat)
    requires Run(states, steps) && j <= k < |states|
    requires states[j].worker.Exited? && q < |states[j].queue| && Times(states[j].queue[q], h) > 0
    ensures states[k].worker.Exited? && states[j].queue <= states[k].queue
    ensures h in states[k].pending
    ensures forall tx: Tx :: tx.hash == h ==> Filter(states[k].pending, [Some(tx)]).kept == []
  {
    ExitIsFinal(states, steps, j, k);
    InvRun(states, steps, k);
    hide Times, Sum, Apply, Enabled, Run;
    var s := states[k];
    assert s.queue[q] == states[j].queue[q];
    SumAtLeast(s.queue, q, InBatch(h));
    assert Owners(s, h) == Bit(h in s.pending);
    forall tx: Tx | tx.hash == h ensures Filter(s.pending, [Some(tx)]).kept == [] {
      assert [Some(tx)][..0] == [];
    }
  }

  lemma {:induction false} ExitIsFinal(states: seq<State>, steps: seq<Step>, j: nat, k: nat)
    requires Run(states, steps) && j <= k < |states| && states[j].worker.Exited?
    ensures states[k].worker.Exited? && states[j].queue <= states[k].queue
  {
    hide Filter;
    if j < k {
      ExitIsFinal(states, steps, j, k - 1);
      assert Enabled(states[k - 1], steps[k - 1]) && states[k - 1 + 1] == Apply(states[k - 1], steps[k - 1]);
    }
  }

  // ----- runs that strand a batch -----

  lemma RunLonger(states: seq<State>, steps: seq<Step>, step: Step)
    requires Run(states, steps) && Enabled(states[|steps|], step)
    ensures Run(states + [Apply(states[|steps|], step)], steps + [step])
  {
    hide Apply, Enabled, Init;
    var states', steps' := states + [Apply(states[|steps|], step)], steps + [step];
    forall k | 0 <= k < |steps'|
      ensures Enabled(states'[k], steps'[k]) && states'[k + 1] == Apply(states'[k], steps'[k]) {
      if k < |steps| { assert states'[k] == states[k] && states'[k + 1] == states[k + 1] && steps'[k] == steps[k]; }
    }
  }

  /** One transaction is submitted and queued. */
  lemma QueueOne(states: seq<State>, steps: seq<Step>, tx: Tx) returns (states': seq<State>, steps': seq<Step>)
    requires Run(states, steps)
    requires tx.hash !in states[|steps|].pending && |states[|steps|].queue| < states[|steps|].capacity
    ensures Run(states', steps')
    ensures var s, t := states[|steps|], states'[|steps'|];
      t.queue == s.queue + [[tx]] && t.pending == s.pending + {tx.hash} && t.worker == s.worker
      && t.capacity == s.capacity && t.stopping == s.stopping
  {
    var s := states[|steps|];
    assert [Some(tx)][..0] == [];
    assert Filter(s.pending, [Some(tx)]) == Filtering(s.pending + {tx.hash}, [tx], 0);
    hide Filter, Run;
    var begun := Apply(s, Begin([Some(tx)]));
    RunLonger(states, steps, Begin([Some(tx)]));
    RunLonger(states + [begun], steps + [Begin([Some(tx)])], Send(|s.calls|));
    states' := states + [begun] + [Apply(begun, Send(|s.calls|))];
    steps' := steps + [Begin([Some(tx)])] + [Send(|s.calls|)];
  }

  /** A run can end with the worker gone and a batch queued: a first batch panics while a second one waits. */
  lemma PanicStrands(s0: State, a: Tx, b: Tx) returns (states: seq<State>, steps: seq<Step>)
    requires Init(s0) && s0.capacity >= 2 && a.hash != b.hash
    ensures Run(states, steps) && states[|steps|].worker == Exited(true) && states[|steps|].queue == [[b]]
  {
    states, steps := [s0], [];
    states, steps := QueueOne(states, steps, a);
    states, steps := QueueOne(states, steps, b);
    var s := states[|steps|];
    var t := Apply(s, Take);
    var u := Apply(t, Finish(true));
    hide Run;
    RunLonger(states, steps, Take);
    RunLonger(states + [t], steps + [Take], Finish(true));
    states, steps := states + [t] + [u], steps + [Take] + [Finish(true)];
  }

  /** The same by an ordinary stop: the worker sees it before it takes the batch. */
  lemma StopStrands(s0: State, a: Tx) returns (states: seq<State>, steps: seq<Step>)
    requires Init(s0) && s0.capacity >= 1
    ensures Run(states, steps) && states[|steps|].worker == Exited(false) && states[|steps|].queue == [[a]]
  {
    states, steps := [s0], [];
    states, steps := QueueOne(states, steps, a);
    var s := states[|steps|];
    var t := Apply(s, Stop);
    var u := Apply(t, Exit);
    hide Run;
    RunLonger(states, steps, Stop);
    RunLonger(states + [t], steps + [Stop], Exit);
    states, steps := states + [t] + [u], steps + [Stop] + [Exit];
  }
}
