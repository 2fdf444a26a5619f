/**
 The per-key token bucket in front of the HTTP bridge, with a bounded bucket map.  Times are
 nanoseconds on a clock that never goes back; token amounts are exact reals.
 */
module RateLimiter {
  const SECOND: int := 1_000_000_000
  const MINUTE: int := 60 * SECOND

  datatype Bucket = Bucket(tokens: real, lastSeen: int)

  type Buckets = map<string, Bucket>

  datatype Config = Config(rate: real, burst: real, maxKeys: nat) {
    predicate Valid() {
      rate > 0.0 && burst >= 0.0 && maxKeys > 0
    }
  }

  function Seconds(d: int): real { d as real / SECOND as real }

  function Min(a: real, b: real): real { if a <= b then a else b }

  /** How long a bucket must be idle to be dropped: the refill time plus a minute. */
  function Idle(cfg: Config): int
    requires cfg.Valid()
  {
    (cfg.burst / cfg.rate * SECOND as real).Floor + MINUTE
  }

  function KeepFresh(cfg: Config, bs: Buckets, now: int): Buckets
    requires cfg.Valid()
  {
    map k | k in bs && now - bs[k].lastSeen <= Idle(cfg) :: bs[k]
  }

  /** Whether inserting a new key would drop the whole map: it is full of fresh buckets. */
  predicate WouldReset(cfg: Config, bs: Buckets, key: string, now: int)
    requires cfg.Valid()
  {
    key !in bs && |bs| >= cfg.maxKeys && |KeepFresh(cfg, bs, now)| >= cfg.maxKeys
  }

  function MakeRoom(cfg: Config, bs: Buckets, key: string, now: int): Buckets
    requires cfg.Valid()
  {
    if key in bs || |bs| < cfg.maxKeys then bs
    else if WouldReset(cfg, bs, key, now) then map[]
    else KeepFresh(cfg, bs, now)
  }

  function Refill(cfg: Config, b: Bucket, now: int): real {
    Min(cfg.burst, b.tokens + Seconds(now - b.lastSeen) * cfg.rate)
  }

  /** Takes a token from `key`'s bucket if it holds a whole one. */
  function Take(cfg: Config, bs: Buckets, key: string, now: int): (Buckets, bool) {
    var tokens := if key in bs then Refill(cfg, bs[key], now) else cfg.burst;
    if tokens < 1.0 then (bs[key := Bucket(tokens, now)], false)
    else (bs[key := Bucket(tokens - 1.0, now)], true)
  }

  function Allow(cfg: Config, bs: Buckets, key: string, now: int): (Buckets, bool)
    requires cfg.Valid()
  {
    Take(cfg, MakeRoom(cfg, bs, key, now), key, now)
  }

  /** The limiter as the daemon holds it. */
  class Limiter {
    const cfg: Config
    var buckets: Buckets

    constructor (rate: real, burst: real)
      ensures cfg == Config(rate, burst, 4096) && buckets == map[]
    {
      cfg := Config(rate, burst, 4096);
      buckets := map[];
    }

    method AllowKey(key: string, now: int) returns (ok: bool)
      requires cfg.Valid()
      modifies this
      ensures (buckets, ok) == Allow(cfg, old(buckets), key, now)
    {
      var b: Bucket;
      if key !in buckets {
        if |buckets| >= cfg.maxKeys {
          EvictIdle(now);
        }
        b := Bucket(cfg.burst, now);
      } else {
        b := Bucket(Refill(cfg, buckets[key], now), now);
      }
      if b.tokens < 1.0 {
        buckets := buckets[key := b];
        return false;
      }
      buckets := buckets[key := b.(tokens := b.tokens - 1.0)];
      ok := true;
    }

    /** Drops idle buckets, or every bucket when that frees no room. */
    method EvictIdle(now: int)
      requires cfg.Valid()
      modifies this
      ensures buckets == if |KeepFresh(cfg, old(buckets), now)| >= cfg.maxKeys then map[]
                         else KeepFresh(cfg, old(buckets), now)
    {
      var idle := (cfg.burst / cfg.rate * SECOND as real).Floor + MINUTE;
      var todo := buckets.Keys;
      while todo != {}
        invariant todo <= old(buckets).Keys
        invariant buckets == map k | k in old(buckets) && (k in todo || now - old(buckets)[k].lastSeen <= idle)
                               :: old(buckets)[k]
        decreases |todo|
      {
        var k :| k in todo;
        todo := todo - {k};
        if now - buckets[k].lastSeen > idle {
          buckets := buckets - {k};
        }
      }
      assert buckets == KeepFresh(cfg, old(buckets), now);
      if |buckets| >= cfg.maxKeys {
        buckets := map[];
      }
    }
  }

  // ---- reachable buckets ----

  /** Token counts stay within 0..burst, no bucket is from the future, the map stays bounded. */
  predicate Reachable(cfg: Config, bs: Buckets, now: int) {
    |bs| <= cfg.maxKeys && TokensOk(cfg, bs, now)
  }

  predicate TokensOk(cfg: Config, bs: Buckets, now: int) {
    forall k :: k in bs ==> 0.0 <= bs[k].tokens <= cfg.burst && bs[k].lastSeen <= now
  }

  lemma KeepFreshSmaller(cfg: Config, bs: Buckets, now: int)
    requires cfg.Valid()
    ensures KeepFresh(cfg, bs, now).Keys <= bs.Keys
    ensures |KeepFresh(cfg, bs, now)| <= |bs|
  {
    var kept := KeepFresh(cfg, bs, now);
    SubsetSize(kept.Keys, bs.Keys);
  }

  lemma {:induction false} SubsetSize<T>(a: set<T>, b: set<T>)
    requires a <= b
    ensures |a| <= |b|
    decreases |a|
  {
    if a != {} {
      var x :| x in a;
      SubsetSize(a - {x}, b - {x});
    }
  }

  lemma RefillNonNegative(cfg: Config, b: Bucket, now: int)
    requires cfg.Valid() && 0.0 <= b.tokens <= cfg.burst && b.lastSeen <= now
    ensures 0.0 <= Refill(cfg, b, now) <= cfg.burst
    ensures b.tokens <= Refill(cfg, b, now)
  {
    var dt := Seconds(now - b.lastSeen);
    assert dt >= 0.0;
    assert dt * cfg.rate >= 0.0;
  }

  lemma InsertSize(bs: Buckets, key: string, b: Bucket)
    ensures |bs[key := b]| == |bs| + (if key in bs then 0 else 1)
  {
    assert bs[key := b].Keys == bs.Keys + {key};
    assert |bs[key := b]| == |bs[key := b].Keys| && |bs| == |bs.Keys|;
  }

  lemma RoomIsReachable(cfg: Config, bs: Buckets, key: string, now: int)
    requires cfg.Valid() && Reachable(cfg, bs, now)
    ensures var room := MakeRoom(cfg, bs, key, now);
            Reachable(cfg, room, now) && (key !in room ==> |room| < cfg.maxKeys)
  {
    KeepFreshSmaller(cfg, bs, now);
  }

  lemma TakeKeepsTokens(cfg: Config, bs: Buckets, key: string, now: int)
    requires cfg.Valid() && TokensOk(cfg, bs, now)
    ensures TokensOk(cfg, Take(cfg, bs, key, now).0, now)
  {
    if key in bs {
      RefillNonNegative(cfg, bs[key], now);
    }
  }

  /** After any call token counts are within 0..burst and the map holds at most maxKeys keys. */
  lemma AllowKeepsBounds(cfg: Config, bs: Buckets, key: string, now: int)
    requires cfg.Valid() && Reachable(cfg, bs, now)
    ensures Reachable(cfg, Allow(cfg, bs, key, now).0, now)
  {
    var room := MakeRoom(cfg, bs, key, now);
    RoomIsReachable(cfg, bs, key, now);
    TakeKeepsTokens(cfg, room, key, now);
    InsertSize(room, key, Take(cfg, room, key, now).0[key]);
  }

  // ---- the level of a key ----

  /** How many tokens `key` has at `now`; a key without a bucket is full. */
  function Level(cfg: Config, bs: Buckets, key: string, now: int): real {
    if key in bs then Refill(cfg, bs[key], now) else cfg.burst
  }

  lemma LevelInBounds(cfg: Config, bs: Buckets, k: string, now: int)
    requires cfg.Valid() && Reachable(cfg, bs, now)
    ensures 0.0 <= Level(cfg, bs, k, now) <= cfg.burst
  {
    if k in bs {
      RefillNonNegative(cfg, bs[k], now);
    }
  }

  lemma SecondsAdd(a: int, b: int, rate: real)
    ensures Seconds(a + b) * rate == Seconds(a) * rate + Seconds(b) * rate
  {
    assert Seconds(a + b) == Seconds(a) + Seconds(b);
  }

  /** The level later on depends only on the level now. */
  lemma LevelLater(cfg: Config, bs: Buckets, k: string, now: int, later: int)
    requires cfg.Valid() && now <= later
    requires k in bs ==> bs[k].lastSeen <= now
    ensures Seconds(later - now) * cfg.rate >= 0.0
    ensures Level(cfg, bs, k, later) == Min(cfg.burst, Level(cfg, bs, k, now) + Seconds(later - now) * cfg.rate)
  {
    var gain := Seconds(later - now) * cfg.rate;
    assert Seconds(later - now) >= 0.0;
    assert gain >= 0.0;
    if k in bs {
      SecondsAdd(now - bs[k].lastSeen, later - now, cfg.rate);
    }
  }

  lemma MulMono(a: real, b: real, r: real)
    requires a <= b && r >= 0.0
    ensures a * r <= b * r
  {
  }

  lemma DivMulBack(a: real, r: real)
    requires r > 0.0
    ensures a / r * r == a
  {
  }

  /** A bucket idle long enough to be dropped has refilled completely. */
  lemma IdleIsFull(cfg: Config, b: Bucket, now: int)
    requires cfg.Valid() && 0.0 <= b.tokens <= cfg.burst && now - b.lastSeen > Idle(cfg)
    ensures Refill(cfg, b, now) == cfg.burst
  {
    var q := cfg.burst / cfg.rate;
    var x := q * SECOND as real;
    assert (now - b.lastSeen) as real >= x;
    assert Seconds(now - b.lastSeen) >= q;
    MulMono(q, Seconds(now - b.lastSeen), cfg.rate);
    DivMulBack(cfg.burst, cfg.rate);
    assert q * cfg.rate == cfg.burst;
    assert Seconds(now - b.lastSeen) * cfg.rate >= cfg.burst;
  }

  /** Making room changes nobody's level, unless it drops the whole map. */
  lemma MakeRoomKeepsLevels(cfg: Config, bs: Buckets, key: string, now: int, k: string)
    requires cfg.Valid() && Reachable(cfg, bs, now)
    ensures !WouldReset(cfg, bs, key, now) ==>
              Level(cfg, MakeRoom(cfg, bs, key, now), k, now) == Level(cfg, bs, k, now)
    ensures WouldReset(cfg, bs, key, now) ==> Level(cfg, MakeRoom(cfg, bs, key, now), k, now) == cfg.burst
  {
    if k in bs && now - bs[k].lastSeen > Idle(cfg) {
      IdleIsFull(cfg, bs[k], now);
    }
  }

  /** One call: it is allowed exactly when the key's level is at least one token, and pays one. */
  lemma TakeEffect(cfg: Config, bs: Buckets, key: string, now: int, k: string)
    requires cfg.Valid() && forall k :: k in bs ==> 0.0 <= bs[k].tokens <= cfg.burst && bs[k].lastSeen <= now
    ensures var (bs', ok) := Take(cfg, bs, key, now);
            && (ok <==> Level(cfg, bs, key, now) >= 1.0)
            && Level(cfg, bs', k, now) == Level(cfg, bs, k, now) - (if ok && k == key then 1.0 else 0.0)
  {
    if key in bs {
      RefillNonNegative(cfg, bs[key], now);
    }
    assert Seconds(0) * cfg.rate == 0.0;
  }

  // ---- runs ----

  datatype Call = Call(key: string, at: int)

  predicate Ordered(start: int, calls: seq<Call>) {
    && (forall i :: 0 <= i < |calls| ==> start <= calls[i].at)
    && (forall i, j :: 0 <= i < j < |calls| ==> calls[i].at <= calls[j].at)
  }

  function After(cfg: Config, bs: Buckets, calls: seq<Call>): Buckets
    requires cfg.Valid()
    decreases |calls|
  {
    if calls == [] then bs
    else After(cfg, Allow(cfg, bs, calls[0].key, calls[0].at).0, calls[1..])
  }

  function Answers(cfg: Config, bs: Buckets, calls: seq<Call>): seq<bool>
    requires cfg.Valid()
    decreases |calls|
  {
    if calls == [] then []
    else
      var (bs', ok) := Allow(cfg, bs, calls[0].key, calls[0].at);
      [ok] + Answers(cfg, bs', calls[1..])
  }

  /** How many calls of key `k` were allowed. */
  function Admitted(cfg: Config, bs: Buckets, calls: seq<Call>, k: string): nat
    requires cfg.Valid()
    decreases |calls|
  {
    if calls == [] then 0
    else
      var (bs', ok) := Allow(cfg, bs, calls[0].key, calls[0].at);
      (if ok && calls[0].key == k then 1 else 0) + Admitted(cfg, bs', calls[1..], k)
  }

  /** How many calls dropped the whole map. */
  function Resets(cfg: Config, bs: Buckets, calls: seq<Call>): nat
    requires cfg.Valid()
    decreases |calls|
  {
    if calls == [] then 0
    else
      (if WouldReset(cfg, bs, calls[0].key, calls[0].at) then 1 else 0)
      + Resets(cfg, Allow(cfg, bs, calls[0].key, calls[0].at).0, calls[1..])
  }

  lemma AllowEffect(cfg: Config, bs: Buckets, key: string, now: int, k: string)
    requires cfg.Valid() && Reachable(cfg, bs, now)
    ensures var (bs', ok) := Allow(cfg, bs, key, now);
            && Reachable(cfg, bs', now)
            && (!WouldReset(cfg, bs, key, now) ==>
                  && (ok <==> Level(cfg, bs, key, now) >= 1.0)
                  && Level(cfg, bs', k, now) == Level(cfg, bs, k, now) - (if ok && k == key then 1.0 else 0.0))
            && (WouldReset(cfg, bs, key, now) ==>
                  Level(cfg, bs', k, now) == cfg.burst - (if ok && k == key then 1.0 else 0.0))
  {
    var room := MakeRoom(cfg, bs, key, now);
    AllowKeepsBounds(cfg, bs, key, now);
    MakeRoomKeepsLevels(cfg, bs, key, now, k);
    MakeRoomKeepsLevels(cfg, bs, key, now, key);
    TakeEffect(cfg, room, key, now, k);
  }

  function Gain(cfg: Config, d: int): real { Seconds(d) * cfg.rate }

  lemma PaidFromLevel(cfg: Config, bs: Buckets, now: int, at: int, k: string, after: real, paid: real, reset: bool)
    requires cfg.Valid() && Reachable(cfg, bs, now) && now <= at
    requires after == (if reset then cfg.burst else Level(cfg, bs, k, at)) - paid
    ensures paid + after <= Level(cfg, bs, k, now) + (if reset then cfg.burst else 0.0) + Gain(cfg, at - now)
  {
    LevelLater(cfg, bs, k, now, at);
    LevelInBounds(cfg, bs, k, now);
  }

  /** One call admits no more than the level, the refill since `now` and a reset provide. */
  lemma StepIsPaidFor(cfg: Config, bs: Buckets, now: int, c: Call, k: string, bs': Buckets, ok: bool)
    requires cfg.Valid() && Reachable(cfg, bs, now) && now <= c.at
    requires Allow(cfg, bs, c.key, c.at) == (bs', ok)
    ensures Reachable(cfg, bs', c.at)
    ensures (if ok && c.key == k then 1.0 else 0.0) + Level(cfg, bs', k, c.at)
            <= Level(cfg, bs, k, now) + (if WouldReset(cfg, bs, c.key, c.at) then cfg.burst else 0.0)
               + Gain(cfg, c.at - now)
  {
    assert Reachable(cfg, bs, c.at);
    AllowEffect(cfg, bs, c.key, c.at, k);
    PaidFromLevel(cfg, bs, now, c.at, k, Level(cfg, bs', k, c.at),
                  if ok && c.key == k then 1.0 else 0.0, WouldReset(cfg, bs, c.key, c.at));
  }

  lemma GainAdd(cfg: Config, a: int, b: int, c: int)
    ensures Gain(cfg, c - a) == Gain(cfg, b - a) + Gain(cfg, c - b)
  {
    SecondsAdd(b - a, c - b, cfg.rate);
  }

  /** `x` added up `n` times. */
  function Times(x: real, n: nat): real { if n == 0 then 0.0 else x + Times(x, n - 1) }

  lemma {:induction false} TimesIsProduct(x: real, n: nat)
    ensures Times(x, n) == x * n as real
  {
    if n > 0 {
      TimesIsProduct(x, n - 1);
      assert x * n as real == x + x * (n - 1) as real;
    }
  }

  /** What refilling between the calls of a run puts into one bucket. */
  function Refills(cfg: Config, now: int, calls: seq<Call>): real
    decreases |calls|
  {
    if calls == [] then 0.0 else Gain(cfg, calls[0].at - now) + Refills(cfg, calls[0].at, calls[1..])
  }

  lemma {:induction false} RefillsTotal(cfg: Config, now: int, calls: seq<Call>)
    ensures Refills(cfg, now, calls) == Gain(cfg, (if calls == [] then now else calls[|calls| - 1].at) - now)
    decreases |calls|
  {
    if calls == [] {
      assert Gain(cfg, 0) == 0.0;
    } else {
      RefillsTotal(cfg, calls[0].at, calls[1..]);
      GainAdd(cfg, now, calls[0].at, calls[|calls| - 1].at);
    }
  }

  /** Tokens are conserved: what is admitted was in the bucket or flowed into it. */
  lemma {:induction false} AdmittedIsPaidFor(cfg: Config, bs: Buckets, now: int, calls: seq<Call>, k: string)
    requires cfg.Valid() && Reachable(cfg, bs, now) && Ordered(now, calls)
    ensures var last := if calls == [] then now else calls[|calls| - 1].at;
            && Reachable(cfg, After(cfg, bs, calls), last)
            && Admitted(cfg, bs, calls, k) as real + Level(cfg, After(cfg, bs, calls), k, last)
               <= Level(cfg, bs, k, now) + Times(cfg.burst, Resets(cfg, bs, calls)) + Refills(cfg, now, calls)
    decreases |calls|
  {
    if calls != [] {
      var c := calls[0];
      var (bs', ok) := Allow(cfg, bs, c.key, c.at);
      StepIsPaidFor(cfg, bs, now, c, k, bs', ok);
      AdmittedIsPaidFor(cfg, bs', c.at, calls[1..], k);
      UnfoldRun(cfg, bs, calls, k, bs', ok);
      assert calls[1..] != [] ==> calls[1..][|calls| - 2] == calls[|calls| - 1];
    }
  }

  /** A run is its first call followed by the rest. */
  lemma UnfoldRun(cfg: Config, bs: Buckets, calls: seq<Call>, k: string, bs': Buckets, ok: bool)
    requires cfg.Valid() && calls != [] && Allow(cfg, bs, calls[0].key, calls[0].at) == (bs', ok)
    ensures After(cfg, bs, calls) == After(cfg, bs', calls[1..])
    ensures Admitted(cfg, bs, calls, k) == (if ok && calls[0].key == k then 1 else 0) + Admitted(cfg, bs', calls[1..], k)
    ensures Times(cfg.burst, Resets(cfg, bs, calls))
            == (if WouldReset(cfg, bs, calls[0].key, calls[0].at) then cfg.burst else 0.0)
               + Times(cfg.burst, Resets(cfg, bs', calls[1..]))
  {
  }

  lemma WindowFrom(cfg: Config, start: Buckets, now: int, window: seq<Call>, k: string)
    requires cfg.Valid() && Reachable(cfg, start, now)
    requires window != [] && Ordered(now, window)
    ensures Admitted(cfg, start, window, k) as real
            <= Times(cfg.burst, 1 + Resets(cfg, start, window)) + Refills(cfg, now, window)
  {
    AdmittedIsPaidFor(cfg, start, now, window, k);
    LevelInBounds(cfg, start, k, now);
    LevelInBounds(cfg, After(cfg, start, window), k, window[|window| - 1].at);
  }

  /** The admission budget of `span` nanoseconds with a number of whole-map resets in them. */
  function Budget(cfg: Config, resets: nat, span: int): real {
    cfg.burst * (1 + resets) as real + cfg.rate * span as real / 1_000_000_000.0
  }

  lemma BudgetFormula(cfg: Config, resets: nat, now: int, window: seq<Call>)
    requires window != []
    ensures Times(cfg.burst, 1 + resets) + Refills(cfg, now, window)
            == Budget(cfg, resets, window[|window| - 1].at - now)
  {
    TimesIsProduct(cfg.burst, 1 + resets);
    RefillsTotal(cfg, now, window);
    PerSecond(cfg.rate, window[|window| - 1].at - now);
  }

  /**
   In every run and every window of it, one key is admitted at most
   burst * (1 + whole-map resets in the window) + rate * (length of the window) times, the rate
   being per second and the length in nanoseconds.
   */
  lemma WindowBound(cfg: Config, calls: seq<Call>, i: nat, j: nat, k: string)
    requires cfg.Valid() && i < j <= |calls| && Ordered(calls[0].at, calls)
    ensures var start := After(cfg, map[], calls[..i]);
            Admitted(cfg, start, calls[i..j], k) as real
            <= Budget(cfg, Resets(cfg, start, calls[i..j]), calls[j - 1].at - calls[i].at)
  {
    var start := After(cfg, map[], calls[..i]);
    StartIsReachable(cfg, calls, i);
    var window := calls[i..j];
    assert window[|window| - 1] == calls[j - 1];
    WindowFrom(cfg, start, calls[i].at, window, k);
    BudgetFormula(cfg, Resets(cfg, start, window), calls[i].at, window);
  }

  lemma PerSecond(rate: real, d: int)
    ensures rate * Seconds(d) == rate * d as real / 1_000_000_000.0
    ensures Seconds(d) * rate == rate * d as real / 1_000_000_000.0
  {
  }

  /**
   One call, exactly: a known key is admitted when a burst is at least one token and what was
   left plus the configured rate per second of idle time reaches one token, a new key when a
   burst is at least one token.
   */
  lemma AdmittedExactly(cfg: Config, bs: Buckets, key: string, now: int)
    requires cfg.Valid()
    ensures key in bs ==>
              (Allow(cfg, bs, key, now).1
               <==> cfg.burst >= 1.0
                    && bs[key].tokens + cfg.rate * (now - bs[key].lastSeen) as real / 1_000_000_000.0 >= 1.0)
    ensures key !in bs ==> (Allow(cfg, bs, key, now).1 <==> cfg.burst >= 1.0)
  {
    if key in bs {
      PerSecond(cfg.rate, now - bs[key].lastSeen);
    }
  }

  /** A key emptied and then idle for n nanoseconds is admitted once the rate over that time and a burst both reach one token. */
  lemma EmptiedKeyWaits(cfg: Config, bs: Buckets, key: string, now: int, n: nat)
    requires cfg.Valid() && key in bs && bs[key].lastSeen == now && bs[key].tokens == 0.0
    ensures Allow(cfg, bs, key, now + n).1 <==> cfg.rate * n as real / 1_000_000_000.0 >= 1.0 && cfg.burst >= 1.0
  {
    AdmittedExactly(cfg, bs, key, now + n);
  }

  function AtOnce(key: string, now: int, n: nat): (r: seq<Call>)
    ensures |r| == n
  {
    if n == 0 then [] else [Call(key, now)] + AtOnce(key, now, n - 1)
  }

  lemma TakenAtOnce(cfg: Config, bs: Buckets, key: string, now: int)
    requires cfg.Valid() && key in bs && bs[key].lastSeen == now && bs[key].tokens <= cfg.burst
    ensures var (bs', ok) := Allow(cfg, bs, key, now);
            && (ok <==> 1.0 <= bs[key].tokens)
            && bs' == bs[key := Bucket(if ok then bs[key].tokens - 1.0 else bs[key].tokens, now)]
  {
    assert Seconds(0) * cfg.rate == 0.0;
  }

  /** Of calls at one instant, exactly the first ones that the bucket's whole tokens pay for are admitted. */
  lemma {:induction false} BurstAtOnce(cfg: Config, bs: Buckets, key: string, now: int, n: nat, i: nat)
    requires cfg.Valid() && key in bs && bs[key].lastSeen == now && bs[key].tokens <= cfg.burst && i < n
    ensures var answers := Answers(cfg, bs, AtOnce(key, now, n));
            |answers| == n && (answers[i] <==> (i + 1) as real <= bs[key].tokens)
    decreases n
  {
    var calls := AtOnce(key, now, n);
    var (bs', ok) := Allow(cfg, bs, key, now);
    TakenAtOnce(cfg, bs, key, now);
    assert calls[1..] == AtOnce(key, now, n - 1);
    if n > 1 {
      BurstAtOnce(cfg, bs', key, now, n - 1, if i == 0 then 0 else i - 1);
    } else {
      assert calls[1..] == [];
    }
    assert i > 0 ==> (i + 1) as real == i as real + 1.0;
  }

  /** Which buckets survive an eviction: those seen within the time a full refill takes plus sixty seconds. */
  lemma FreshExactly(cfg: Config, bs: Buckets, now: int, k: string)
    requires cfg.Valid()
    ensures k in KeepFresh(cfg, bs, now)
            <==> k in bs && now - bs[k].lastSeen <= (cfg.burst / cfg.rate * 1_000_000_000.0).Floor + 60_000_000_000
    ensures k in KeepFresh(cfg, bs, now) ==> KeepFresh(cfg, bs, now)[k] == bs[k]
  {
  }

  lemma StartIsReachable(cfg: Config, calls: seq<Call>, i: nat)
    requires cfg.Valid() && i < |calls| && Ordered(calls[0].at, calls)
    ensures Reachable(cfg, After(cfg, map[], calls[..i]), calls[i].at)
  {
    var start := After(cfg, map[], calls[..i]);
    AdmittedIsPaidFor(cfg, map[], calls[0].at, calls[..i], "");
    var from := if i == 0 then calls[0].at else calls[i - 1].at;
    assert i > 0 ==> calls[..i][|calls[..i]| - 1] == calls[i - 1];
    assert TokensOk(cfg, start, from) && from <= calls[i].at;
  }

  // ---- the unbounded limiter ----

  /** The same bucket rule on a map that never drops anything. */
  function UnboundedAnswers(cfg: Config, bs: Buckets, calls: seq<Call>): seq<bool>
    decreases |calls|
  {
    if calls == [] then []
    else
      var (bs', ok) := Take(cfg, bs, calls[0].key, calls[0].at);
      [ok] + UnboundedAnswers(cfg, bs', calls[1..])
  }

  ghost predicate SameLevels(cfg: Config, bs: Buckets, us: Buckets, now: int) {
    forall k :: Level(cfg, bs, k, now) == Level(cfg, us, k, now)
  }

  /** Equal levels before a call that does not reset give the same answer and equal levels after. */
  lemma StepAnswersAlike(cfg: Config, bs: Buckets, us: Buckets, now: int, c: Call)
    requires cfg.Valid() && Reachable(cfg, bs, now) && TokensOk(cfg, us, now) && now <= c.at
    requires SameLevels(cfg, bs, us, now) && !WouldReset(cfg, bs, c.key, c.at)
    ensures var (bs', ok) := Allow(cfg, bs, c.key, c.at);
            var (us', uok) := Take(cfg, us, c.key, c.at);
            && ok == uok && SameLevels(cfg, bs', us', c.at)
            && Reachable(cfg, bs', c.at) && TokensOk(cfg, us', c.at)
  {
    var (bs', ok) := Allow(cfg, bs, c.key, c.at);
    var (us', uok) := Take(cfg, us, c.key, c.at);
    assert Reachable(cfg, bs, c.at) && TokensOk(cfg, us, c.at);
    AllowKeepsBounds(cfg, bs, c.key, c.at);
    TakeKeepsTokens(cfg, us, c.key, c.at);
    LevelsLater(cfg, bs, us, now, c.at);
    AllowEffect(cfg, bs, c.key, c.at, c.key);
    TakeEffect(cfg, us, c.key, c.at, c.key);
    assert Level(cfg, bs, c.key, c.at) == Level(cfg, us, c.key, c.at);
    forall k ensures Level(cfg, bs', k, c.at) == Level(cfg, us', k, c.at) {
      AllowEffect(cfg, bs, c.key, c.at, k);
      TakeEffect(cfg, us, c.key, c.at, k);
      assert Level(cfg, bs, k, c.at) == Level(cfg, us, k, c.at);
    }
  }

  lemma LevelsLater(cfg: Config, bs: Buckets, us: Buckets, now: int, later: int)
    requires cfg.Valid() && TokensOk(cfg, bs, now) && TokensOk(cfg, us, now) && now <= later
    requires SameLevels(cfg, bs, us, now)
    ensures SameLevels(cfg, bs, us, later)
  {
    forall k ensures Level(cfg, bs, k, later) == Level(cfg, us, k, later) {
      LevelLater(cfg, bs, k, now, later);
      LevelLater(cfg, us, k, now, later);
      assert Level(cfg, bs, k, now) == Level(cfg, us, k, now);
    }
  }

  lemma {:induction false} BoundedAnswersAsUnbounded(cfg: Config, bs: Buckets, us: Buckets, now: int, calls: seq<Call>)
    requires cfg.Valid() && Reachable(cfg, bs, now) && TokensOk(cfg, us, now) && SameLevels(cfg, bs, us, now)
    requires Ordered(now, calls) && Resets(cfg, bs, calls) == 0
    ensures Answers(cfg, bs, calls) == UnboundedAnswers(cfg, us, calls)
    decreases |calls|
  {
    if calls != [] {
      var c := calls[0];
      StepAnswersAlike(cfg, bs, us, now, c);
      BoundedAnswersAsUnbounded(cfg, Allow(cfg, bs, c.key, c.at).0, Take(cfg, us, c.key, c.at).0, c.at, calls[1..]);
    }
  }

  /** As long as the whole map is never dropped, eviction is invisible in the answers. */
  lemma EvictionIsInvisible(cfg: Config, calls: seq<Call>)
    requires cfg.Valid() && calls != [] && Ordered(calls[0].at, calls)
    requires Resets(cfg, map[], calls) == 0
    ensures Answers(cfg, map[], calls) == UnboundedAnswers(cfg, map[], calls)
  {
    BoundedAnswersAsUnbounded(cfg, map[], map[], calls[0].at, calls);
  }
}
