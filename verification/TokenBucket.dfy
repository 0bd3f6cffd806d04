/** The in-process limiter: a token bucket per key, refilled by whole windows, with stale buckets swept away. */
module TokenBucket {
  import opened Arithmetic

  /** Times and the window are in the clock's ticks. */
  datatype Config = Config(rate: int, burst: int, window: int)

  datatype Bucket = Bucket(tokens: int, lastReset: int)

  function Refilled(cfg: Config, b: Bucket, now: int): Bucket
    requires cfg.window > 0
  {
    var refill := Quotient(now - b.lastReset, cfg.window) * cfg.rate;
    if refill > 0
    then Bucket(if b.tokens + refill > cfg.burst then cfg.burst else b.tokens + refill, now)
    else b
  }

  function Taken(b: Bucket): Bucket
  {
    if b.tokens > 0 then b.(tokens := b.tokens - 1) else b
  }

  /** No bucket yet, or a bucket. */
  datatype Slot = Vacant | Held(b: Bucket)

  function Grants(cfg: Config, s: Slot, now: int): bool
    requires cfg.window > 0
  {
    s.Vacant? || Refilled(cfg, s.b, now).tokens > 0
  }

  function Served(cfg: Config, s: Slot, now: int): Bucket
    requires cfg.window > 0
  {
    if s.Vacant? then Bucket(cfg.burst - 1, now) else Taken(Refilled(cfg, s.b, now))
  }

  predicate Stale(cfg: Config, b: Bucket, now: int)
  {
    b.lastReset < now - 10 * cfg.window
  }

  function SlotOf(buckets: map<string, Bucket>, key: string): Slot
  {
    if key in buckets then Held(buckets[key]) else Vacant
  }

  function Swept(cfg: Config, buckets: map<string, Bucket>, now: int): map<string, Bucket>
  {
    map k | k in buckets && !Stale(cfg, buckets[k], now) :: buckets[k]
  }

  class PerUserRateLimiter {
    var buckets: map<string, Bucket>
    const cfg: Config

    constructor (rate: int, burst: int, window: int)
      ensures buckets == map[] && cfg == Config(rate, burst, window)
    {
      buckets := map[];
      cfg := Config(rate, burst, window);
    }

    method Allow(key: string, now: int) returns (ok: bool)
      requires cfg.window > 0
      modifies this
      ensures ok == Grants(cfg, SlotOf(old(buckets), key), now)
      ensures buckets == old(buckets)[key := Served(cfg, SlotOf(old(buckets), key), now)]
    {
      if key !in buckets {
        buckets := buckets[key := Bucket(cfg.burst - 1, now)];
        return true;
      }
      var b := buckets[key];
      var elapsed := now - b.lastReset;
      var refill := Quotient(elapsed, cfg.window) * cfg.rate;
      if refill > 0 {
        b := b.(tokens := b.tokens + refill);
        if b.tokens > cfg.burst {
          b := b.(tokens := cfg.burst);
        }
        b := b.(lastReset := now);
        buckets := buckets[key := b];
      }
      if b.tokens > 0 {
        buckets := buckets[key := b.(tokens := b.tokens - 1)];
        return true;
      }
      assert buckets == old(buckets)[key := b];
      return false;
    }

    method Cleanup(now: int)
      modifies this
      ensures buckets == Swept(cfg, old(buckets), now)
    {
      var cutoff := now - 10 * cfg.window;
      var keys := buckets.Keys;
      while keys != {}
        invariant keys <= buckets.Keys <= old(buckets).Keys
        invariant forall k :: k in buckets ==> buckets[k] == old(buckets)[k]
        invariant forall k :: k in old(buckets) && k !in keys ==> (k in buckets <==> !Stale(cfg, old(buckets)[k], now))
        decreases |keys|
      {
        var key :| key in keys;
        if buckets[key].lastReset < cutoff {
          buckets := buckets - {key};
        }
        keys := keys - {key};
      }
    }
  }

  // ---- runs ----

  datatype Event = Request(key: string, now: int) | Sweep(now: int)

  function After(cfg: Config, buckets: map<string, Bucket>, e: Event): map<string, Bucket>
    requires cfg.window > 0
  {
    match e
    case Request(key, now) => buckets[key := Served(cfg, SlotOf(buckets, key), now)]
    case Sweep(now) => Swept(cfg, buckets, now)
  }

  function AfterAll(cfg: Config, es: seq<Event>): map<string, Bucket>
    requires cfg.window > 0
  {
    if es == [] then map[] else After(cfg, AfterAll(cfg, es[..|es| - 1]), es[|es| - 1])
  }

  /** Is the last event a request, and granted? */
  function LastGranted(cfg: Config, es: seq<Event>): bool
    requires cfg.window > 0 && es != []
  {
    var e := es[|es| - 1];
    e.Request? && Grants(cfg, SlotOf(AfterAll(cfg, es[..|es| - 1]), e.key), e.now)
  }

  /** Requests of `key` granted in `[from, to]`. */
  function Admitted(cfg: Config, es: seq<Event>, key: string, from: int, to: int): nat
    requires cfg.window > 0
  {
    if es == [] then 0
    else
      var e := es[|es| - 1];
      Admitted(cfg, es[..|es| - 1], key, from, to)
      + if e.Request? && e.key == key && from <= e.now <= to && LastGranted(cfg, es) then 1 else 0
  }

  ghost predicate Monotone(es: seq<Event>)
  {
    forall i, j :: 0 <= i <= j < |es| ==> es[i].now <= es[j].now
  }

  function Unswept(es: seq<Event>): seq<Event>
  {
    if es == [] then []
    else
      var rest := Unswept(es[..|es| - 1]);
      if es[|es| - 1].Sweep? then rest else rest + [es[|es| - 1]]
  }

  predicate UpTo(es: seq<Event>, now: int)
  {
    es != [] ==> es[|es| - 1].now <= now
  }

  // ---- tokens stay in range ----

  ghost predicate InRange(cfg: Config, s: Slot, now: int)
  {
    s.Held? ==> 0 <= s.b.tokens < cfg.burst && s.b.lastReset <= now
  }

  lemma {:induction false} TokensInRange(cfg: Config, es: seq<Event>, key: string, now: int)
    requires cfg.window > 0 && cfg.burst >= 1 && Monotone(es)
    requires UpTo(es, now)
    ensures InRange(cfg, SlotOf(AfterAll(cfg, es), key), now)
  {
    if es != [] {
      var e := es[|es| - 1];
      TokensInRange(cfg, es[..|es| - 1], key, e.now);
      if e.Request? && e.key == key {
        ServedInRange(cfg, SlotOf(AfterAll(cfg, es[..|es| - 1]), key), e.now);
      }
    }
  }

  lemma ServedInRange(cfg: Config, s: Slot, now: int)
    requires cfg.window > 0 && cfg.burst >= 1 && InRange(cfg, s, now)
    ensures InRange(cfg, Held(Served(cfg, s, now)), now)
  {
  }

  // ---- cleanup is not observable ----

  /** Enough for a stale bucket to refill to the brim. */
  predicate StaleRefills(cfg: Config)
    requires cfg.window > 0
  {
    cfg.burst <= cfg.rate * ((10 * cfg.window + 1) / cfg.window)
  }

  /** What a request would see is the same with `a` as with `b`. */
  ghost predicate SameService(cfg: Config, a: Slot, b: Slot, now: int)
    requires cfg.window > 0
  {
    Grants(cfg, a, now) == Grants(cfg, b, now) && Served(cfg, a, now) == Served(cfg, b, now)
  }

  lemma RatePositive(cfg: Config)
    requires cfg.window > 0 && cfg.burst >= 1 && StaleRefills(cfg)
    ensures cfg.rate >= 1
  {
    if cfg.rate <= 0 {
      MulMonotone(cfg.rate, 0, (10 * cfg.window + 1) / cfg.window);
    }
  }

  /** A stale bucket serves like a new one. */
  lemma StaleServesFresh(cfg: Config, b: Bucket, at: int, now: int)
    requires cfg.window > 0 && cfg.burst >= 1 && StaleRefills(cfg)
    requires 0 <= b.tokens <= cfg.burst && Stale(cfg, b, at) && at <= now
    ensures SameService(cfg, Held(b), Vacant, now)
  {
    RatePositive(cfg);
    var elapsed := now - b.lastReset;
    QuotientMonotone(10 * cfg.window + 1, elapsed, cfg.window);
    MulMonotone((10 * cfg.window + 1) / cfg.window, elapsed / cfg.window, cfg.rate);
  }

  /** The slot with sweeps is the slot without, or was swept when stale. */
  ghost predicate Shadows(cfg: Config, swept: Slot, kept: Slot, now: int)
  {
    swept == kept || (swept.Vacant? && kept.Held? && Stale(cfg, kept.b, now))
  }

  lemma ShadowServes(cfg: Config, swept: Slot, kept: Slot, at: int, now: int)
    requires cfg.window > 0 && cfg.burst >= 1 && StaleRefills(cfg)
    requires Shadows(cfg, swept, kept, at) && InRange(cfg, kept, at) && at <= now
    ensures SameService(cfg, swept, kept, now)
  {
    if swept != kept {
      StaleServesFresh(cfg, kept.b, at, now);
    }
  }

  lemma {:induction false} UnsweptMonotone(es: seq<Event>)
    requires Monotone(es)
    ensures Monotone(Unswept(es))
    ensures Unswept(es) != [] ==> es != [] && Unswept(es)[|Unswept(es)| - 1].now <= es[|es| - 1].now
  {
    if es != [] {
      UnsweptMonotone(es[..|es| - 1]);
    }
  }

  lemma UnsweptNext(es: seq<Event>)
    requires es != []
    ensures es[|es| - 1].Sweep? ==> Unswept(es) == Unswept(es[..|es| - 1])
    ensures es[|es| - 1].Request? ==> Unswept(es) == Unswept(es[..|es| - 1]) + [es[|es| - 1]]
  {
  }

  lemma {:induction false} SweptShadows(cfg: Config, es: seq<Event>, key: string, now: int)
    requires cfg.window > 0 && cfg.burst >= 1 && StaleRefills(cfg) && Monotone(es)
    requires UpTo(es, now)
    ensures Shadows(cfg, SlotOf(AfterAll(cfg, es), key), SlotOf(AfterAll(cfg, Unswept(es)), key), now)
    ensures InRange(cfg, SlotOf(AfterAll(cfg, Unswept(es)), key), now)
  {
    UnsweptMonotone(es);
    TokensInRange(cfg, Unswept(es), key, now);
    if es != [] {
      var init, e := es[..|es| - 1], es[|es| - 1];
      SweptShadows(cfg, init, key, e.now);
      UnsweptNext(es);
      ShadowServes(cfg, SlotOf(AfterAll(cfg, init), key), SlotOf(AfterAll(cfg, Unswept(init)), key), e.now, e.now);
    }
  }

  /** Under any interleaving of cleanups, the next Allow answers and leaves the bucket as without them. */
  lemma SweepsUnnoticed(cfg: Config, es: seq<Event>, key: string, now: int)
    requires cfg.window > 0 && cfg.burst >= 1 && StaleRefills(cfg) && Monotone(es) && UpTo(es, now)
    ensures Unnoticed(cfg, es, key, now)
  {
    SweptShadows(cfg, es, key, now);
    ShadowServes(cfg, SlotOf(AfterAll(cfg, es), key), SlotOf(AfterAll(cfg, Unswept(es)), key), now, now);
  }

  /** After `es`, a request at `now` is served as if there had been no cleanups. */
  ghost predicate Unnoticed(cfg: Config, es: seq<Event>, key: string, now: int)
    requires cfg.window > 0
  {
    SameService(cfg, SlotOf(AfterAll(cfg, es), key), SlotOf(AfterAll(cfg, Unswept(es)), key), now)
  }

  /** `n` requests at time 0. */
  function Drain(n: nat): (es: seq<Event>)
    ensures |es| == n && forall i :: 0 <= i < n ==> es[i] == Request("k", 0)
  {
    seq(n, _ => Request("k", 0))
  }

  lemma {:induction false} Drained(cfg: Config, n: nat)
    requires cfg.window > 0 && 1 <= n <= cfg.burst
    ensures SlotOf(AfterAll(cfg, Drain(n)), "k") == Held(Bucket(cfg.burst - n, 0))
  {
    assert Drain(n)[..n - 1] == Drain(n - 1);
    if n > 1 {
      Drained(cfg, n - 1);
    }
  }

  lemma {:induction false} DrainUnswept(n: nat)
    ensures Unswept(Drain(n)) == Drain(n)
  {
    if n > 0 {
      DrainUnswept(n - 1);
      assert Drain(n)[..n - 1] == Drain(n - 1);
    }
  }

  lemma EmptyServesOtherwise(cfg: Config, now: int)
    requires cfg.window > 0 && cfg.burst >= 1 && !StaleRefills(cfg) && now == 10 * cfg.window + 1
    ensures !SameService(cfg, Vacant, Held(Bucket(0, 0)), now)
  {
  }

  /** The drained bucket is gone after the sweep, and still there without it. */
  lemma DrainedAndSwept(cfg: Config, es: seq<Event>, now: int)
    requires cfg.window > 0 && cfg.burst >= 1 && now > 10 * cfg.window && es == Drain(cfg.burst) + [Sweep(now)]
    ensures SlotOf(AfterAll(cfg, es), "k") == Vacant && SlotOf(AfterAll(cfg, Unswept(es)), "k") == Held(Bucket(0, 0))
  {
    Drained(cfg, cfg.burst);
    DrainUnswept(cfg.burst);
    assert es[..|es| - 1] == Drain(cfg.burst);
    UnsweptNext(es);
  }

  /** When ten windows do not refill a bucket: drain one, and sweep it at the first moment it is stale. */
  lemma SweepNoticed(cfg: Config)
    requires cfg.window > 0 && cfg.burst >= 1 && !StaleRefills(cfg)
    ensures var now := 10 * cfg.window + 1;
      var es := Drain(cfg.burst) + [Sweep(now)];
      Monotone(es) && UpTo(es, now) && !Unnoticed(cfg, es, "k", now)
  {
    var now := 10 * cfg.window + 1;
    DrainedAndSwept(cfg, Drain(cfg.burst) + [Sweep(now)], now);
    EmptyServesOtherwise(cfg, now);
  }

  /** Cleanup is unobservable, in every run and for every next request, exactly when the time a bucket idles
      before it is swept refills it to the brim. */
  lemma CleanupUnobservable(cfg: Config)
    requires cfg.window > 0 && cfg.burst >= 1
    ensures StaleRefills(cfg) <==> forall es, key, now :: Monotone(es) && UpTo(es, now) ==> Unnoticed(cfg, es, key, now)
  {
    if StaleRefills(cfg) {
      forall es, key, now | Monotone(es) && UpTo(es, now) ensures Unnoticed(cfg, es, key, now) {
        SweepsUnnoticed(cfg, es, key, now);
      }
    } else {
      SweepNoticed(cfg);
    }
  }

  lemma {:induction false} SameAdmitted(cfg: Config, es: seq<Event>, key: string, from: int, to: int)
    requires cfg.window > 0 && cfg.burst >= 1 && StaleRefills(cfg) && Monotone(es)
    ensures Admitted(cfg, es, key, from, to) == Admitted(cfg, Unswept(es), key, from, to)
  {
    if es != [] {
      var init, e := es[..|es| - 1], es[|es| - 1];
      SameAdmitted(cfg, init, key, from, to);
      UnsweptNext(es);
      if e.Request? {
        SweepsUnnoticed(cfg, init, e.key, e.now);
      }
    }
  }

  // ---- the admission bound ----

  ghost predicate OnlyRequests(es: seq<Event>)
  {
    forall i :: 0 <= i < |es| ==> es[i].Request?
  }

  lemma {:induction false} UnsweptOnlyRequests(es: seq<Event>)
    ensures OnlyRequests(Unswept(es))
  {
    if es != [] {
      UnsweptOnlyRequests(es[..|es| - 1]);
    }
  }

  /** The account of a slot since `from`: what was admitted and what is left come from one full bucket and
      `k` refilled windows, and those windows fit between `since` and the last refill. */
  ghost predicate Account(cfg: Config, s: Slot, admitted: nat, from: int, k: nat, since: int)
  {
    && s.Held?
    && admitted + s.b.tokens <= cfg.burst + cfg.rate * k
    && k * cfg.window <= s.b.lastReset - since
    && from - cfg.window < since
  }

  /** One request in the interval keeps the account. */
  lemma ServeAccount(cfg: Config, s: Slot, admitted: nat, from: int, k: nat, since: int, now: int) returns (k': nat)
    requires cfg.window > 0 && cfg.burst >= 1 && cfg.rate >= 1 && InRange(cfg, s, now)
    requires Account(cfg, s, admitted, from, k, since)
    ensures Account(cfg, Held(Served(cfg, s, now)), admitted + if Grants(cfg, s, now) then 1 else 0, from, k', since)
  {
    var q := (now - s.b.lastReset) / cfg.window;
    k' := k;
    if q * cfg.rate > 0 {
      k' := k + q;
      Distribute(k, q, cfg.rate);
      Distribute(k, q, cfg.window);
      assert q * cfg.window <= now - s.b.lastReset;
    }
  }

  /** The first request in the interval opens the account with at most a full bucket. */
  lemma OpenAccount(cfg: Config, s: Slot, from: int, now: int)
    requires cfg.window > 0 && cfg.burst >= 1 && cfg.rate >= 1 && InRange(cfg, s, now) && from <= now
    ensures Account(cfg, Held(Served(cfg, s, now)), if Grants(cfg, s, now) then 1 else 0,
                    from, 0, Served(cfg, s, now).lastReset)
  {
    if s.Held? {
      var elapsed := now - s.b.lastReset;
      if elapsed >= cfg.window {
        QuotientMonotone(cfg.window, elapsed, cfg.window);
        MulMonotone(1, elapsed / cfg.window, cfg.rate);
      }
    }
  }

  predicate Concerns(e: Event, key: string, from: int)
  {
    e.Request? && e.key == key && from <= e.now
  }

  ghost predicate Untouched(es: seq<Event>, key: string, from: int)
  {
    forall i :: 0 <= i < |es| ==> !Concerns(es[i], key, from)
  }

  lemma {:induction false} UntouchedAdmitsNone(cfg: Config, es: seq<Event>, key: string, from: int, to: int)
    requires cfg.window > 0 && Untouched(es, key, from)
    ensures Admitted(cfg, es, key, from, to) == 0
  {
    if es != [] {
      assert !Concerns(es[|es| - 1], key, from);
      UntouchedAdmitsNone(cfg, es[..|es| - 1], key, from, to);
    }
  }

  lemma {:induction false} Accounted(cfg: Config, es: seq<Event>, key: string, from: int, to: int)
    returns (k: nat, since: int)
    requires cfg.window > 0 && cfg.burst >= 1 && cfg.rate >= 1 && Monotone(es) && OnlyRequests(es)
    requires forall i :: 0 <= i < |es| ==> es[i].now <= to
    requires !Untouched(es, key, from)
    ensures Account(cfg, SlotOf(AfterAll(cfg, es), key), Admitted(cfg, es, key, from, to), from, k, since)
  {
    var init, e := es[..|es| - 1], es[|es| - 1];
    TokensInRange(cfg, init, key, e.now);
    var s := SlotOf(AfterAll(cfg, init), key);
    if Untouched(init, key, from) {
      UntouchedAdmitsNone(cfg, init, key, from, to);
      OpenAccount(cfg, s, from, e.now);
      k, since := 0, Served(cfg, s, e.now).lastReset;
    } else {
      k, since := Accounted(cfg, init, key, from, to);
      if e.key == key {
        LateEnough(init, e, key, from, es);
        k := ServeAccount(cfg, s, Admitted(cfg, init, key, from, to), from, k, since, e.now);
      }
    }
  }

  lemma LateEnough(init: seq<Event>, e: Event, key: string, from: int, es: seq<Event>)
    requires Monotone(es) && es == init + [e] && !Untouched(init, key, from)
    ensures from <= e.now
  {
    var i :| 0 <= i < |init| && Concerns(init[i], key, from);
    assert es[i].now <= es[|es| - 1].now;
  }

  lemma WindowsThatFit(k: nat, w: int, span: int)
    requires w > 0 && span >= 0 && k * w < span + w
    ensures k <= span / w + 1
  {
    if k > span / w + 1 {
      MulMonotone(span / w + 2, k, w);
      Distribute(span / w, 2, w);
    }
  }

  lemma {:induction false} BoundWithoutSweeps(cfg: Config, es: seq<Event>, key: string, from: int, to: int)
    requires cfg.window > 0 && cfg.burst >= 1 && cfg.rate >= 1 && Monotone(es) && OnlyRequests(es) && from <= to
    ensures Admitted(cfg, es, key, from, to) <= cfg.burst + cfg.rate * ((to - from) / cfg.window + 1)
  {
    if Untouched(es, key, from) {
      UntouchedAdmitsNone(cfg, es, key, from, to);
      MulMonotone(0, (to - from) / cfg.window + 1, cfg.rate);
    } else if es[|es| - 1].now > to {
      BoundWithoutSweeps(cfg, es[..|es| - 1], key, from, to);
    } else {
      var k, since := Accounted(cfg, es, key, from, to);
      TokensInRange(cfg, es, key, to);
      WindowsThatFit(k, cfg.window, to - from);
      MulMonotone(k, (to - from) / cfg.window + 1, cfg.rate);
    }
  }

  /** In any interval of length T, whatever the cleanups, a key is admitted at most
      burst + rate * (T / window + 1) times. */
  lemma AdmissionBound(cfg: Config, es: seq<Event>, key: string, from: int, to: int)
    requires cfg.window > 0 && cfg.burst >= 1 && StaleRefills(cfg) && Monotone(es) && from <= to
    ensures Admitted(cfg, es, key, from, to) <= cfg.burst + cfg.rate * ((to - from) / cfg.window + 1)
  {
    RatePositive(cfg);
    SameAdmitted(cfg, es, key, from, to);
    UnsweptMonotone(es);
    UnsweptOnlyRequests(es);
    BoundWithoutSweeps(cfg, Unswept(es), key, from, to);
  }

  /** The advertised condition is enough. */
  lemma TenWindowsSuffice(cfg: Config)
    requires cfg.window > 0 && cfg.burst >= 1 && cfg.burst <= 10 * cfg.rate
    ensures cfg.rate >= 1 && StaleRefills(cfg)
  {
    assert (10 * cfg.window + 1) / cfg.window >= 10 by {
      QuotientMonotone(10 * cfg.window, 10 * cfg.window + 1, cfg.window);
      assert 10 * cfg.window / cfg.window == 10;
    }
    MulMonotone(10, (10 * cfg.window + 1) / cfg.window, cfg.rate);
  }
}
