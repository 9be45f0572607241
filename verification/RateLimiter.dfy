/**
 The limiter of JSON-RPC requests: a token bucket for each address, forgotten by a cleanup once the address
 was not seen for a while. Time and tokens are real numbers, and a request is one atomic step.
 */
module RateLimiter {
  import opened Bytes

  datatype Config = Config(rps: real, burst: int, ttl: real)

  /** What the reading of the settings guarantees: rate, burst and lifetime are positive. */
  predicate Positive(c: Config)
  {
    c.rps > 0.0 && c.burst > 0 && c.ttl > 0.0
  }

  datatype Bucket = Bucket(tokens: real, last: real)

  datatype Entry = Entry(bucket: Bucket, lastSeen: real)

  type Limiters = map<Bytes, Entry>

  // ----- one bucket -----

  /** The tokens that a stretch of time brings. */
  function Refill(c: Config, duration: real): real
  {
    c.rps * duration
  }

  /** The tokens of a bucket at a time: what was left, refilled at the rate, and never above the burst. */
  function Level(c: Config, b: Bucket, t: real): (r: real)
    ensures r <= c.burst as real
  {
    var refilled := b.tokens + Refill(c, t - (if t < b.last then t else b.last));
    if refilled > c.burst as real then c.burst as real else refilled
  }

  /** A bucket that has admitted nothing is full. */
  function NewBucket(c: Config, t: real): Bucket
  {
    Bucket(c.burst as real, t)
  }

  /** `rate.Limiter.Allow`: takes a token, or leaves the bucket as it was. */
  function Take(c: Config, b: Bucket, t: real): Bucket
  {
    if Level(c, b, t) >= 1.0 then Bucket(Level(c, b, t) - 1.0, t) else b
  }

  /** The rate is what it says: this many tokens a second. */
  lemma RefillIs(c: Config, duration: real)
    ensures Refill(c, duration) == c.rps * duration
  {
  }

  lemma Refills(c: Config, x: real, y: real)
    requires Positive(c)
    ensures Refill(c, x + y) == Refill(c, x) + Refill(c, y)
    ensures x <= y ==> Refill(c, x) <= Refill(c, y)
    ensures 0.0 <= x ==> 0.0 <= Refill(c, x)
    ensures Refill(c, 0.0) == 0.0
  {
  }

  // ----- buckets by address -----

  function Look(c: Config, m: Limiters, ip: Bytes, t: real): Bucket
  {
    if ip in m then m[ip].bucket else NewBucket(c, t)
  }

  function LevelOf(c: Config, m: Limiters, ip: Bytes, t: real): real
  {
    Level(c, Look(c, m, ip, t), t)
  }

  /** A request: the entry is found or made, marked as seen, and its bucket asked for a token. */
  function Request(c: Config, m: Limiters, ip: Bytes, t: real): Limiters
  {
    m[ip := Entry(Take(c, Look(c, m, ip, t), t), t)]
  }

  /** `cleanup`: drops what was last seen before the lifetime. */
  function Evict(c: Config, m: Limiters, t: real): Limiters
  {
    map ip | ip in m && !(m[ip].lastSeen < t - c.ttl) :: m[ip]
  }

  datatype Event = Ask(ip: Bytes, time: real) | Cleanup(time: real)

  /** One event; a limiter that never forgets ignores cleanups. */
  function Step(c: Config, m: Limiters, e: Event, forgets: bool): Limiters
  {
    match e
    case Ask(ip, t) => Request(c, m, ip, t)
    case Cleanup(t) => if forgets then Evict(c, m, t) else m
  }

  function Run(c: Config, m: Limiters, es: seq<Event>, forgets: bool): Limiters
  {
    if es == [] then m else Step(c, Run(c, m, es[..|es| - 1], forgets), es[|es| - 1], forgets)
  }

  predicate Admits(c: Config, m: Limiters, e: Event)
  {
    e.Ask? && LevelOf(c, m, e.ip, e.time) >= 1.0
  }

  /** The clock does not run backwards, and starts at `from`. */
  ghost predicate Ascending(es: seq<Event>, from: real)
  {
    && (forall i :: 0 <= i < |es| ==> from <= es[i].time)
    && (forall i, j :: 0 <= i < j < |es| ==> es[i].time <= es[j].time)
  }

  function Now(es: seq<Event>, from: real): real
  {
    if es == [] then from else es[|es| - 1].time
  }

  /** Buckets are not overdrawn, and nothing was seen in the future. */
  ghost predicate Kept(c: Config, m: Limiters, now: real)
  {
    forall ip :: ip in m ==> 0.0 <= m[ip].bucket.tokens && m[ip].bucket.last <= m[ip].lastSeen <= now
  }

  lemma KeptStep(c: Config, m: Limiters, e: Event, now: real, forgets: bool)
    requires Positive(c) && Kept(c, m, now) && now <= e.time
    ensures Kept(c, Step(c, m, e, forgets), e.time)
  {
  }

  lemma {:induction false} KeptRun(c: Config, m: Limiters, es: seq<Event>, from: real, forgets: bool)
    requires Positive(c) && Kept(c, m, from) && Ascending(es, from)
    ensures Kept(c, Run(c, m, es, forgets), Now(es, from))
  {
    hide Kept, Step;
    if es != [] {
      var before := es[..|es| - 1];
      KeptRun(c, m, before, from, forgets);
      KeptStep(c, Run(c, m, before, forgets), es[|es| - 1], Now(before, from), forgets);
    }
  }

  // ----- forgetting is transparent -----

  /** Both limiters hold the same number of tokens for every address. */
  ghost predicate Agree(c: Config, m: Limiters, n: Limiters, now: real)
  {
    forall ip :: LevelOf(c, m, ip, now) == LevelOf(c, n, ip, now)
  }

  /** The level of an address at a later time depends on what is kept through its present level alone. */
  lemma LevelOfLater(c: Config, m: Limiters, ip: Bytes, now: real, t: real)
    requires Positive(c) && Kept(c, m, now) && now <= t
    ensures LevelOf(c, m, ip, t) ==
      var x := LevelOf(c, m, ip, now) + Refill(c, t - now); if x > c.burst as real then c.burst as real else x
  {
    Refills(c, 0.0, t - now);
    if ip in m {
      var last := m[ip].bucket.last;
      Refills(c, now - last, t - now);
      assert (now - last) + (t - now) == t - last;
    }
    assert now - now == 0.0 && t - t == 0.0;
    hide Refill;
  }

  lemma AgreeLater(c: Config, m: Limiters, n: Limiters, now: real, t: real)
    requires Positive(c) && Kept(c, m, now) && Kept(c, n, now) && now <= t
    requires Agree(c, m, n, now)
    ensures Agree(c, m, n, t)
  {
    hide Kept, LevelOf;
    forall ip ensures LevelOf(c, m, ip, t) == LevelOf(c, n, ip, t) {
      LevelOfLater(c, m, ip, now, t);
      LevelOfLater(c, n, ip, now, t);
    }
  }

  lemma LevelAfterRequest(c: Config, m: Limiters, ip: Bytes, t: real, other: Bytes)
    requires Positive(c) && Kept(c, m, t)
    ensures LevelOf(c, Request(c, m, ip, t), other, t) ==
      if other == ip && LevelOf(c, m, ip, t) >= 1.0 then LevelOf(c, m, ip, t) - 1.0 else LevelOf(c, m, other, t)
  {
  }

  /** A lifetime that refills a bucket: whoever is evicted has a full one. */
  lemma EvictedIsFull(c: Config, m: Limiters, t: real, ip: Bytes)
    requires Positive(c) && Kept(c, m, t) && Refill(c, c.ttl) >= c.burst as real
    ensures LevelOf(c, Evict(c, m, t), ip, t) == LevelOf(c, m, ip, t)
  {
  }

  lemma AgreeStep(c: Config, m: Limiters, n: Limiters, e: Event)
    requires Positive(c) && Kept(c, m, e.time) && Kept(c, n, e.time) && Refill(c, c.ttl) >= c.burst as real
    requires Agree(c, m, n, e.time)
    ensures Agree(c, Step(c, m, e, true), Step(c, n, e, false), e.time)
  {
    hide Kept, LevelOf, Request, Evict;
    var m', n' := Step(c, m, e, true), Step(c, n, e, false);
    forall ip ensures LevelOf(c, m', ip, e.time) == LevelOf(c, n', ip, e.time) {
      match e
      case Ask(asking, t) =>
        LevelAfterRequest(c, m, asking, t, ip);
        LevelAfterRequest(c, n, asking, t, ip);
      case Cleanup(t) =>
        EvictedIsFull(c, m, t, ip);
    }
  }

  lemma KeptLater(c: Config, m: Limiters, now: real, t: real)
    requires Kept(c, m, now) && now <= t
    ensures Kept(c, m, t)
  {
  }

  lemma {:induction false} AgreeRun(c: Config, es: seq<Event>, from: real)
    requires Positive(c) && Ascending(es, from) && Refill(c, c.ttl) >= c.burst as real
    ensures Agree(c, Run(c, map[], es, true), Run(c, map[], es, false), Now(es, from))
  {
    hide Kept, LevelOf, Step;
    if es != [] {
      var before, e := es[..|es| - 1], es[|es| - 1];
      var m, n := Run(c, map[], before, true), Run(c, map[], before, false);
      AgreeRun(c, before, from);
      KeptEmpty(c, from);
      KeptRun(c, map[], before, from, true);
      KeptRun(c, map[], before, from, false);
      AgreeLater(c, m, n, Now(before, from), e.time);
      KeptLater(c, m, Now(before, from), e.time);
      KeptLater(c, n, Now(before, from), e.time);
      AgreeStep(c, m, n, e);
    }
  }

  lemma KeptEmpty(c: Config, from: real)
    ensures Kept(c, map[], from)
  {
  }

  /** The limiter that forgets answers event `i` like the one that does not. */
  ghost predicate SameAnswer(c: Config, es: seq<Event>, i: nat)
    requires i < |es|
  {
    Admits(c, Run(c, map[], es[..i], true), es[i]) == Admits(c, Run(c, map[], es[..i], false), es[i])
  }

  /** When a lifetime refills the burst, cleanups change no answer on any trace. */
  lemma ForgettingIsTransparent(c: Config, es: seq<Event>, from: real, i: nat)
    requires Positive(c) && Ascending(es, from) && c.rps * c.ttl >= c.burst as real && i < |es|
    ensures SameAnswer(c, es, i)
  {
    var before := es[..i];
    RefillIs(c, c.ttl);
    hide Kept, LevelOf, Run;
    AgreeRun(c, before, from);
    KeptEmpty(c, from);
    KeptRun(c, map[], before, from, true);
    KeptRun(c, map[], before, from, false);
    AgreeLater(c, Run(c, map[], before, true), Run(c, map[], before, false), Now(before, from), es[i].time);
  }

  // ----- how much a window admits -----

  function Admitted(c: Config, m: Limiters, es: seq<Event>, ip: Bytes, forgets: bool): nat
  {
    if es == [] then 0
    else
      var before, e := es[..|es| - 1], es[|es| - 1];
      Admitted(c, m, before, ip, forgets) +
      if Admits(c, Run(c, m, before, forgets), e) && e.ip == ip then 1 else 0
  }

  lemma LevelAfterStep(c: Config, m: Limiters, e: Event, ip: Bytes)
    requires Positive(c) && Kept(c, m, e.time)
    ensures LevelOf(c, Step(c, m, e, false), ip, e.time) ==
      LevelOf(c, m, ip, e.time) - if Admits(c, m, e) && e.ip == ip then 1.0 else 0.0
  {
    hide LevelOf, Request, Kept;
    if e.Ask? { LevelAfterRequest(c, m, e.ip, e.time, ip); }
  }

  lemma {:induction false} SpentRefilled(c: Config, m: Limiters, es: seq<Event>, from: real, ip: Bytes)
    requires Positive(c) && Kept(c, m, from) && Ascending(es, from)
    ensures Admitted(c, m, es, ip, false) as real + LevelOf(c, Run(c, m, es, false), ip, Now(es, from))
         <= LevelOf(c, m, ip, from) + Refill(c, Now(es, from) - from)
  {
    hide Kept, LevelOf, Refill, Step;
    if es == [] {
      Refills(c, 0.0, 0.0);
      assert from - from == 0.0;
    } else {
      var before, e := es[..|es| - 1], es[|es| - 1];
      var mid, now := Run(c, m, before, false), Now(before, from);
      SpentRefilled(c, m, before, from, ip);
      KeptRun(c, m, before, from, false);
      LevelOfLater(c, mid, ip, now, e.time);
      KeptLater(c, mid, now, e.time);
      Refills(c, now - from, e.time - now);
      assert (now - from) + (e.time - now) == e.time - from;
      LevelAfterStep(c, mid, e, ip);
    }
  }

  /** What was admitted and what is left never exceed what was there and what was refilled. */
  lemma Spent(c: Config, m: Limiters, es: seq<Event>, from: real, ip: Bytes)
    requires Positive(c) && Kept(c, m, from) && Ascending(es, from)
    ensures Admitted(c, m, es, ip, false) as real + LevelOf(c, Run(c, m, es, false), ip, Now(es, from))
         <= LevelOf(c, m, ip, from) + c.rps * (Now(es, from) - from)
  {
    hide Kept, LevelOf, Refill, Run, Admitted, Ascending;
    SpentRefilled(c, m, es, from, ip);
    RefillIs(c, Now(es, from) - from);
  }

  lemma LevelNotNegative(c: Config, m: Limiters, ip: Bytes, t: real)
    requires Positive(c) && Kept(c, m, t)
    ensures 0.0 <= LevelOf(c, m, ip, t) <= c.burst as real
  {
    Refills(c, 0.0, 0.0);
    assert t - t == 0.0;
    if ip in m { Refills(c, t - m[ip].bucket.last, 0.0); }
    hide Refill;
  }

  lemma WindowRefilled(c: Config, m: Limiters, es: seq<Event>, from: real, to: real, ip: Bytes)
    requires Positive(c) && Kept(c, m, from) && Ascending(es, from) && Now(es, from) <= to
    ensures Admitted(c, m, es, ip, false) as real <= c.burst as real + Refill(c, to - from)
  {
    hide Kept, LevelOf, Admitted, Run, Refill;
    SpentRefilled(c, m, es, from, ip);
    KeptRun(c, m, es, from, false);
    LevelNotNegative(c, Run(c, m, es, false), ip, Now(es, from));
    LevelNotNegative(c, m, ip, from);
    Refills(c, Now(es, from) - from, to - from);
  }

  /** Without forgetting, a window from any kept state admits at most the burst and what the window refills. */
  lemma WindowBound(c: Config, m: Limiters, es: seq<Event>, from: real, to: real, ip: Bytes)
    requires Positive(c) && Kept(c, m, from) && Ascending(es, from) && Now(es, from) <= to
    ensures Admitted(c, m, es, ip, false) as real <= c.burst as real + c.rps * (to - from)
  {
    hide Kept, Admitted, Refill, Ascending;
    WindowRefilled(c, m, es, from, to, ip);
    RefillIs(c, to - from);
  }

  lemma {:induction false} RunConcat(c: Config, m: Limiters, es: seq<Event>, fs: seq<Event>, forgets: bool)
    ensures Run(c, m, es + fs, forgets) == Run(c, Run(c, m, es, forgets), fs, forgets)
  {
    hide Step;
    if fs == [] {
      assert es + fs == es;
    } else {
      assert (es + fs)[..|es + fs| - 1] == es + fs[..|fs| - 1];
      RunConcat(c, m, es, fs[..|fs| - 1], forgets);
    }
  }

  /** The requests of an address that both limiters admit in a part of a trace are equally many. */
  lemma {:induction false} SameAdmitted(c: Config, es: seq<Event>, fs: seq<Event>, from: real, ip: Bytes)
    requires Positive(c) && Ascending(es + fs, from) && c.rps * c.ttl >= c.burst as real
    ensures Admitted(c, Run(c, map[], es, true), fs, ip, true) == Admitted(c, Run(c, map[], es, false), fs, ip, false)
  {
    hide Step, Admits;
    if fs != [] {
      var before, i := fs[..|fs| - 1], |es| + |fs| - 1;
      assert (es + fs)[..i] == es + before && (es + fs)[i] == fs[|fs| - 1];
      SameAdmitted(c, es, before, from, ip);
      ForgettingIsTransparent(c, es + fs, from, i);
      RunConcat(c, map[], es, before, true);
      RunConcat(c, map[], es, before, false);
    }
  }

  /** Every window of every trace admits at most burst + rate * length requests of an address. */
  lemma ForgettingWindowBound(c: Config, es: seq<Event>, fs: seq<Event>, from: real, start: real, to: real, ip: Bytes)
    requires Positive(c) && Ascending(es + fs, from) && c.rps * c.ttl >= c.burst as real
    requires from <= start && Now(es, from) <= start && Ascending(fs, start) && Now(fs, start) <= to
    ensures Admitted(c, Run(c, map[], es, true), fs, ip, true) as real <= c.burst as real + c.rps * (to - start)
  {
    SameAdmitted(c, es, fs, from, ip);
    KeptEmpty(c, from);
    assert Ascending(es, from) by {
      assert forall i :: 0 <= i < |es| ==> (es + fs)[i] == es[i];
    }
    hide Kept, Run, Admitted, Ascending;
    KeptRun(c, map[], es, from, false);
    KeptLater(c, Run(c, map[], es, false), Now(es, from), start);
    WindowBound(c, Run(c, map[], es, false), fs, start, to, ip);
  }

  // ----- when an emptied bucket admits again -----

  /** A bucket that is empty at a time has a token again exactly one interval of the rate later. */
  lemma EmptiedRefills(c: Config, b: Bucket, t: real, u: real)
    requires Positive(c) && b.last <= t <= u && Level(c, b, t) == 0.0
    ensures Level(c, b, u) >= 1.0 <==> u >= t + 1.0 / c.rps
  {
    Refills(c, t - b.last, u - t);
    assert (t - b.last) + (u - t) == u - b.last;
    assert c.rps * (1.0 / c.rps) == 1.0;
    RefillIs(c, u - t);
    var interval := 1.0 / c.rps;
    if u - t >= interval {
      assert c.rps * (u - t - interval) >= 0.0;
      assert c.rps * (u - t - interval) == c.rps * (u - t) - c.rps * interval;
    } else {
      assert c.rps * (interval - (u - t)) > 0.0;
      assert c.rps * (interval - (u - t)) == c.rps * interval - c.rps * (u - t);
    }
    hide Refill;
  }

  /** After a burst at once, an address is admitted again exactly one interval of the rate later. */
  lemma AdmitsAgain(c: Config, m: Limiters, ip: Bytes, t: real, u: real, forgets: bool)
    requires Positive(c) && Kept(c, m, t) && LevelOf(c, m, ip, t) == c.burst as real && t <= u
    ensures Admits(c, Run(c, m, Asks(ip, t, c.burst), forgets), Ask(ip, u)) <==> u >= t + 1.0 / c.rps
  {
    var after := Run(c, m, Asks(ip, t, c.burst), forgets);
    BurstAdmitted(c, m, ip, t, c.burst, forgets);
    assert ip in after by {
      assert Asks(ip, t, c.burst)[c.burst - 1] == Ask(ip, t);
    }
    hide Run, Level, Refill;
    EmptiedRefills(c, after[ip].bucket, t, u);
  }

  // ----- a shorter lifetime shows -----

  function Asks(ip: Bytes, t: real, n: nat): seq<Event>
  {
    seq(n, _ => Ask(ip, t))
  }

  /** A full bucket admits a burst at once. */
  lemma {:induction false} BurstAdmitted(c: Config, m: Limiters, ip: Bytes, t: real, n: nat, forgets: bool)
    requires Positive(c) && Kept(c, m, t) && LevelOf(c, m, ip, t) == c.burst as real && n <= c.burst
    ensures Admitted(c, m, Asks(ip, t, n), ip, forgets) == n
    ensures LevelOf(c, Run(c, m, Asks(ip, t, n), forgets), ip, t) == (c.burst - n) as real
    ensures Kept(c, Run(c, m, Asks(ip, t, n), forgets), t)
  {
    hide Kept, LevelOf, Request;
    if n > 0 {
      assert Asks(ip, t, n)[..n - 1] == Asks(ip, t, n - 1);
      BurstAdmitted(c, m, ip, t, n - 1, forgets);
      var mid := Run(c, m, Asks(ip, t, n - 1), forgets);
      LevelAfterRequest(c, mid, ip, t, ip);
      KeptStep(c, mid, Ask(ip, t), t, forgets);
    }
  }

  /** A burst, a cleanup when the address is just old enough, and a burst again. */
  function TwoBursts(c: Config, ip: Bytes, t: real): seq<Event>
    requires c.burst >= 0
  {
    Asks(ip, 0.0, c.burst) + [Cleanup(t)] + Asks(ip, t, c.burst)
  }

  lemma {:induction false} AdmittedConcat(c: Config, m: Limiters, es: seq<Event>, fs: seq<Event>,
      ip: Bytes, forgets: bool)
    ensures Admitted(c, m, es + fs, ip, forgets) ==
      Admitted(c, m, es, ip, forgets) + Admitted(c, Run(c, m, es, forgets), fs, ip, forgets)
  {
    hide Step, Admits;
    if fs == [] {
      assert es + fs == es;
    } else {
      assert (es + fs)[..|es + fs| - 1] == es + fs[..|fs| - 1];
      AdmittedConcat(c, m, es, fs[..|fs| - 1], ip, forgets);
      RunConcat(c, m, es, fs[..|fs| - 1], forgets);
    }
  }

  lemma ForgetfulAdmitsBoth(c: Config, ip: Bytes, t: real)
    requires Positive(c) && c.ttl < t
    ensures Admitted(c, map[], TwoBursts(c, ip, t), ip, true) == 2 * c.burst
  {
    var first, second := Asks(ip, 0.0, c.burst), Asks(ip, t, c.burst);
    var m := Run(c, map[], first, true);
    KeptEmpty(c, 0.0);
    BurstAdmitted(c, map[], ip, 0.0, c.burst, true);
    assert first[..|first| - 1] == Asks(ip, 0.0, c.burst - 1);
    assert m[ip].lastSeen == 0.0;
    var clean := Evict(c, m, t);
    assert ip !in clean;
    assert Kept(c, clean, t);
    BurstAdmitted(c, clean, ip, t, c.burst, true);
    hide Kept, LevelOf, Evict, Asks;
    assert Run(c, m, [Cleanup(t)], true) == clean by { assert [Cleanup(t)][..0] == []; }
    assert Admitted(c, m, [Cleanup(t)], ip, true) == 0 by { assert [Cleanup(t)][..0] == []; }
    RunConcat(c, map[], first, [Cleanup(t)], true);
    AdmittedConcat(c, map[], first, [Cleanup(t)], ip, true);
    AdmittedConcat(c, map[], first + [Cleanup(t)], second, ip, true);
  }

  /** Equal answers admit equally many. */
  lemma {:induction false} SameCount(c: Config, es: seq<Event>, ip: Bytes, n: nat)
    requires n <= |es| && forall i: nat :: i < |es| ==> SameAnswer(c, es, i)
    ensures Admitted(c, map[], es[..n], ip, true) == Admitted(c, map[], es[..n], ip, false)
  {
    hide Admits, Run;
    if n > 0 {
      SameCount(c, es, ip, n - 1);
      assert es[..n][..n - 1] == es[..n - 1];
      assert SameAnswer(c, es, n - 1);
    }
  }

  /** A time after the lifetime at which the burst is not refilled yet. */
  lemma TimeBetween(c: Config) returns (t: real)
    requires Positive(c) && Refill(c, c.ttl) < c.burst as real
    ensures c.ttl < t && Refill(c, t) < c.burst as real
  {
    var full := c.burst as real / c.rps;
    assert Refill(c, full) == c.burst as real;
    if full <= c.ttl { Refills(c, full, c.ttl); }
    t := (c.ttl + full) / 2.0;
    assert c.rps * (full - t) > 0.0;
    assert c.rps * (full - t) == c.rps * full - c.rps * t;
  }

  /** With a shorter lifetime some trace tells the limiters apart. */
  lemma ShortLifetimeShows(c: Config, ip: Bytes) returns (es: seq<Event>)
    requires Positive(c) && c.rps * c.ttl < c.burst as real
    ensures Ascending(es, 0.0)
    ensures exists i: nat :: i < |es| && !SameAnswer(c, es, i)
  {
    assert c.rps * c.ttl == Refill(c, c.ttl);
    hide Refill;
    var t := TimeBetween(c);
    es := TwoBursts(c, ip, t);
    assert Ascending(es, 0.0) && Now(es, 0.0) == t && t - 0.0 == t;
    hide TwoBursts, Admitted, SameAnswer, Kept, Refill, Ascending;
    assert es[..|es|] == es;
    KeptEmpty(c, 0.0);
    WindowRefilled(c, map[], es, 0.0, t, ip);
    ForgetfulAdmitsBoth(c, ip, t);
    if forall i: nat :: i < |es| ==> SameAnswer(c, es, i) {
      SameCount(c, es, ip, |es|);
    }
  }

  /** Forgetting is transparent exactly when a lifetime refills the burst. */
  lemma TransparentExactly(c: Config)
    requires Positive(c)
    ensures (forall es, i: nat :: Ascending(es, 0.0) && i < |es| ==> SameAnswer(c, es, i))
       <==> c.rps * c.ttl >= c.burst as real
  {
    if c.rps * c.ttl >= c.burst as real {
      forall es, i: nat | Ascending(es, 0.0) && i < |es| ensures SameAnswer(c, es, i) {
        ForgettingIsTransparent(c, es, 0.0, i);
      }
    } else {
      var es := ShortLifetimeShows(c, []);
    }
  }

  // ----- the limiter object -----

  class IpRateLimiter {
    const config: Config
    var limiters: Limiters

    constructor (config: Config)
      ensures this.config == config && limiters == map[]
    {
      this.config := config;
      limiters := map[];
    }

    /** `getLimiter`: the bucket of the address, made when it is new, with the time it was seen. */
    method GetLimiter(ip: Bytes, now: real) returns (bucket: Bucket)
      modifies this
      ensures bucket == Look(config, old(limiters), ip, now)
      ensures limiters == old(limiters)[ip := Entry(bucket, now)]
    {
      if ip in limiters {
        limiters := limiters[ip := limiters[ip].(lastSeen := now)];
        return limiters[ip].bucket;
      }
      bucket := NewBucket(config, now);
      limiters := limiters[ip := Entry(bucket, now)];
    }

    /** The handler: admits a request when the bucket of its address has a token. */
    method Serve(ip: Bytes, now: real) returns (admitted: bool)
      modifies this
      ensures admitted == Admits(config, old(limiters), Ask(ip, now))
      ensures limiters == Step(config, old(limiters), Ask(ip, now), true)
    {
      var bucket := GetLimiter(ip, now);
      var level := Level(config, bucket, now);
      admitted := level >= 1.0;
      if admitted {
        limiters := limiters[ip := Entry(Bucket(level - 1.0, now), now)];
      }
    }

    /** `cleanup`, one address after the other in no particular order. */
    method CleanUp(now: real)
      modifies this
      ensures limiters == Step(config, old(limiters), Cleanup(now), true)
      ensures forall ip :: ip in limiters <==> ip in old(limiters) && old(limiters)[ip].lastSeen >= now - config.ttl
      ensures forall ip :: ip in limiters ==> limiters[ip] == old(limiters)[ip]
    {
      var cutoff := now - config.ttl;
      var todo := limiters.Keys;
      while todo != {}
        invariant todo <= limiters.Keys <= old(limiters).Keys
        invariant forall ip :: ip in limiters ==> limiters[ip] == old(limiters)[ip]
        invariant forall ip :: ip in old(limiters) && ip !in todo ==>
          (ip in limiters <==> !(old(limiters)[ip].lastSeen < cutoff))
        decreases todo
      {
        var ip :| ip in todo;
        if limiters[ip].lastSeen < cutoff {
          limiters := limiters - {ip};
        }
        todo := todo - {ip};
      }
    }
  }
}
