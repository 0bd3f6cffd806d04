/** How many requests a token bucket admits when sweeps hand out fresh buckets: exactly which configurations
    keep the bound that the refill rate suggests. */
module SweptAdmission {
  import opened Arithmetic
  import opened TokenBucket

  /** What a fresh bucket holds beyond ten windows of refill. */
  function Excess(cfg: Config): int { cfg.burst - 10 * cfg.rate }

  predicate Bounded(cfg: Config, es: seq<Event>, key: string, from: int, to: int)
    requires cfg.window > 0 && from <= to
  {
    Admitted(cfg, es, key, from, to) <= cfg.burst + cfg.rate * ((to - from) / cfg.window + 1)
  }

  /** In every run and every interval. */
  ghost predicate BoundHolds(cfg: Config)
    requires cfg.window > 0
  {
    forall es, key, from, to :: Monotone(es) && from <= to ==> Bounded(cfg, es, key, from, to)
  }

  /** A stale bucket would have refilled anyway; or the window has so few ticks that the one tick more than ten
      windows, which a bucket idles before it is swept, adds up to whole windows in time. */
  predicate SweepsAffordable(cfg: Config)
    requires cfg.window > 0
  {
    || StaleRefills(cfg)
    || (cfg.window == 2 && 2 * Excess(cfg) <= cfg.rate)
    || (cfg.window == 3 && Excess(cfg) == 1 && cfg.rate >= 3)
  }

  // ---- affordable sweeps keep the bound ----

  /** What was admitted and what is left come from one full bucket, `k` refilled windows and `n` sweeps; the
      windows fit between `since` and `last`, each sweep taking a tick more. The bucket that an interval finds
      is never full. */
  ghost predicate Account(cfg: Config, admitted: nat, tokens: nat, from: int, k: nat, n: nat, since: int, last: int)
  {
    && admitted + tokens <= cfg.burst - (if since < from then 1 else 0) + cfg.rate * k + Excess(cfg) * n
    && k * cfg.window + n <= last - since
    && from - cfg.window < since
  }

  ghost predicate SlotAccount(cfg: Config, s: Slot, admitted: nat, from: int, k: nat, n: nat,
                              since: int, last: int, at: int)
  {
    match s
    case Held(b) =>
      last == b.lastReset <= at && b.tokens >= 0 && Account(cfg, admitted, b.tokens, from, k, n, since, last)
    case Vacant => last + 10 * cfg.window + 1 <= at && Account(cfg, admitted, 0, from, k, n, since, last)
  }

  lemma ServeHeld(cfg: Config, b: Bucket, admitted: nat, from: int, k: nat, n: nat, since: int, now: int)
    returns (k': nat)
    requires cfg.window > 0 && cfg.burst >= 1 && cfg.rate >= 1 && InRange(cfg, Held(b), now)
    requires Account(cfg, admitted, b.tokens, from, k, n, since, b.lastReset)
    ensures var s := Served(cfg, Held(b), now);
      var more := if Grants(cfg, Held(b), now) then 1 else 0;
      s.tokens >= 0 && s.lastReset <= now && Account(cfg, admitted + more, s.tokens, from, k', n, since, s.lastReset)
  {
    var q := (now - b.lastReset) / cfg.window;
    k' := k;
    if q * cfg.rate > 0 {
      k' := k + q;
      Distribute(k, q, cfg.rate);
      Distribute(k, q, cfg.window);
      assert q * cfg.window <= now - b.lastReset;
    }
  }

  lemma ServeVacant(cfg: Config, admitted: nat, from: int, k: nat, n: nat, since: int, last: int, now: int)
    requires cfg.window > 0 && cfg.burst >= 1 && last + 10 * cfg.window + 1 <= now
    requires Account(cfg, admitted, 0, from, k, n, since, last)
    ensures Account(cfg, admitted + 1, cfg.burst - 1, from, k + 10, n + 1, since, now)
  {
    Distribute(k, 10, cfg.rate);
    Distribute(k, 10, cfg.window);
    Distribute(n, 1, Excess(cfg));
  }

  /** The first request in the interval opens the account. */
  lemma Opens(cfg: Config, s: Slot, from: int, now: int)
    requires cfg.window > 0 && cfg.burst >= 1 && cfg.rate >= 1 && InRange(cfg, s, now) && from <= now
    ensures var b := Served(cfg, s, now);
      SlotAccount(cfg, Held(b), if Grants(cfg, s, now) then 1 else 0, from, 0, 0, b.lastReset, b.lastReset, now)
  {
    if s.Held? {
      var elapsed := now - s.b.lastReset;
      if elapsed >= cfg.window {
        QuotientMonotone(cfg.window, elapsed, cfg.window);
        MulMonotone(1, elapsed / cfg.window, cfg.rate);
      }
    }
  }

  lemma Sweeps(cfg: Config, s: Slot, admitted: nat, from: int, k: nat, n: nat, since: int, last: int, at: int, now: int)
    requires SlotAccount(cfg, s, admitted, from, k, n, since, last, at) && at <= now
    ensures SlotAccount(cfg, s, admitted, from, k, n, since, last, now)
    ensures s.Held? && Stale(cfg, s.b, now) ==> SlotAccount(cfg, Vacant, admitted, from, k, n, since, last, now)
  {
  }

  /** One event after the account is open. */
  lemma Serves(cfg: Config, s: Slot, admitted: nat, from: int, k: nat, n: nat, since: int, last: int, now: int)
    returns (k': nat, n': nat, last': int)
    requires cfg.window > 0 && cfg.burst >= 1 && cfg.rate >= 1 && InRange(cfg, s, now)
    requires SlotAccount(cfg, s, admitted, from, k, n, since, last, now)
    ensures SlotAccount(cfg, Held(Served(cfg, s, now)), admitted + if Grants(cfg, s, now) then 1 else 0,
                        from, k', n', since, last', now)
  {
    n', last' := n, Served(cfg, s, now).lastReset;
    match s
    case Held(b) =>
      k' := ServeHeld(cfg, b, admitted, from, k, n, since, now);
    case Vacant =>
      ServeVacant(cfg, admitted, from, k, n, since, last, now);
      k', n' := k + 10, n + 1;
  }

  lemma {:induction false} SweptAccount(cfg: Config, es: seq<Event>, key: string, from: int, to: int)
    returns (k: nat, n: nat, since: int, last: int)
    requires cfg.window > 0 && cfg.burst >= 1 && cfg.rate >= 1 && Monotone(es)
    requires !Untouched(es, key, from) && es[|es| - 1].now <= to
    ensures SlotAccount(cfg, SlotOf(AfterAll(cfg, es), key), Admitted(cfg, es, key, from, to),
                        from, k, n, since, last, es[|es| - 1].now)
  {
    var init, e := es[..|es| - 1], es[|es| - 1];
    TokensInRange(cfg, init, key, e.now);
    var s := SlotOf(AfterAll(cfg, init), key);
    if Untouched(init, key, from) {
      UntouchedAdmitsNone(cfg, init, key, from, to);
      Opens(cfg, s, from, e.now);
      k, n, since, last := 0, 0, Served(cfg, s, e.now).lastReset, Served(cfg, s, e.now).lastReset;
    } else {
      var admitted := Admitted(cfg, init, key, from, to);
      k, n, since, last := SweptAccount(cfg, init, key, from, to);
      Sweeps(cfg, s, admitted, from, k, n, since, last, init[|init| - 1].now, e.now);
      if e.Request? && e.key == key {
        LateEnough(init, e, key, from, es);
        k, n, last := Serves(cfg, s, admitted, from, k, n, since, last, e.now);
      }
    }
  }

  /** Every two sweeps make a window. */
  lemma TwoTicks(rate: int, d: int, k: nat, n: nat, span: nat, early: nat)
    requires rate >= 1 && 2 * d <= rate && early <= 1 && 2 * k + n <= span + early
    ensures rate * k + d * n - early <= rate * (span / 2 + 1)
  {
    var m, r := n / 2, n % 2;
    assert d * n == (2 * d) * m + d * r by { Distribute(2 * m, r, d); }
    MulMonotone(2 * d, rate, m);
    Distribute(k, m, rate);
    MulMonotone(k + m, if r == 0 then span / 2 + 1 else span / 2, rate);
    Distribute(span / 2, 1, rate);
  }

  /** Every three sweeps make a window. */
  lemma ThreeTicks(rate: int, k: nat, n: nat, span: nat, early: nat)
    requires rate >= 3 && early <= 1 && 3 * k + n <= span + 2 * early
    ensures rate * k + n - early <= rate * (span / 3 + 1)
  {
    var m, r := n / 3, n % 3;
    MulMonotone(3, rate, m);
    Distribute(k, m, rate);
    MulMonotone(k + m, if k + m <= span / 3 then span / 3 else span / 3 + 1, rate);
    Distribute(span / 3, 1, rate);
  }

  lemma AccountBounds(cfg: Config, s: Slot, admitted: nat, from: int, k: nat, n: nat, since: int, last: int, to: int)
    requires cfg.window > 0 && cfg.rate >= 1 && from <= to && SweepsAffordable(cfg) && !StaleRefills(cfg)
    requires SlotAccount(cfg, s, admitted, from, k, n, since, last, to)
    ensures admitted <= cfg.burst + cfg.rate * ((to - from) / cfg.window + 1)
  {
    var early := if since < from then 1 else 0;
    if cfg.window == 2 {
      TwoTicks(cfg.rate, Excess(cfg), k, n, to - from, early);
    } else {
      ThreeTicks(cfg.rate, k, n, to - from, early);
    }
  }

  lemma {:induction false} AffordableBound(cfg: Config, es: seq<Event>, key: string, from: int, to: int)
    requires cfg.window > 0 && cfg.burst >= 1 && cfg.rate >= 1 && Monotone(es) && from <= to
    requires SweepsAffordable(cfg) && !StaleRefills(cfg)
    ensures Bounded(cfg, es, key, from, to)
  {
    if Untouched(es, key, from) {
      UntouchedAdmitsNone(cfg, es, key, from, to);
      MulMonotone(0, (to - from) / cfg.window + 1, cfg.rate);
    } else if es[|es| - 1].now > to {
      AffordableBound(cfg, es[..|es| - 1], key, from, to);
    } else {
      var k, n, since, last := SweptAccount(cfg, es, key, from, to);
      AccountBounds(cfg, SlotOf(AfterAll(cfg, es), key), Admitted(cfg, es, key, from, to), from, k, n, since, last, to);
    }
  }

  // ---- others break it ----

  /** `n` requests at `now`. */
  function Requests(n: nat, now: int): (es: seq<Event>)
    ensures |es| == n && forall i :: 0 <= i < n ==> es[i] == Request("k", now)
  {
    seq(n, _ => Request("k", now))
  }

  /** The time a bucket idles before it is swept. */
  function Idle(cfg: Config): int { 10 * cfg.window + 1 }

  /** When cycle `n` begins. */
  function TimeOf(cfg: Config, n: nat): int { if n == 0 then 0 else TimeOf(cfg, n - 1) + Idle(cfg) }

  lemma {:induction false} TimeIs(cfg: Config, n: nat)
    requires cfg.window > 0
    ensures TimeOf(cfg, n) == n * Idle(cfg) >= 0
  {
    if n > 0 {
      TimeIs(cfg, n - 1);
      Distribute(n - 1, 1, Idle(cfg));
    }
  }

  /** `n` whole bursts. */
  function Bursts(cfg: Config, n: nat): int { if n == 0 then 0 else Bursts(cfg, n - 1) + cfg.burst }

  lemma {:induction false} BurstsIs(cfg: Config, n: nat)
    ensures Bursts(cfg, n) == cfg.burst * n
  {
    if n > 0 {
      BurstsIs(cfg, n - 1);
      Distribute(n - 1, 1, cfg.burst);
    }
  }

  /** A bucket made at 0, perhaps by an earlier request, and emptied at `start`. */
  function Opening(cfg: Config, start: nat): seq<Event>
    requires cfg.burst >= 1
  {
    if start > 0 then [Request("k", 0)] + Requests(cfg.burst - 1, start) else Requests(cfg.burst, 0)
  }

  /** After that, `n` times: sweep the bucket as soon as it is stale and empty the new one. */
  function Cycles(cfg: Config, start: nat, n: nat): seq<Event>
    requires cfg.burst >= 1
  {
    if n == 0 then Opening(cfg, start)
    else Cycles(cfg, start, n - 1) + [Sweep(TimeOf(cfg, n))] + Requests(cfg.burst, TimeOf(cfg, n))
  }

  /** The key's slot, and what the key was admitted in the interval. */
  ghost predicate Stands(cfg: Config, es: seq<Event>, s: Slot, admitted: nat, from: int, to: int)
    requires cfg.window > 0
  {
    SlotOf(AfterAll(cfg, es), "k") == s && Admitted(cfg, es, "k", from, to) == admitted
  }

  lemma RequestMore(cfg: Config, es: seq<Event>, more: seq<Event>, s: Slot, admitted: nat, now: int, from: int, to: int)
    requires cfg.window > 0 && Stands(cfg, es, s, admitted, from, to)
    requires more == es + [Request("k", now)] && Grants(cfg, s, now)
    ensures Stands(cfg, more, Held(Served(cfg, s, now)), if from <= now <= to then admitted + 1 else admitted, from, to)
  {
    assert more[..|more| - 1] == es;
  }

  lemma SweepMore(cfg: Config, es: seq<Event>, more: seq<Event>, b: Bucket, admitted: nat, now: int, from: int, to: int)
    requires cfg.window > 0 && Stands(cfg, es, Held(b), admitted, from, to)
    requires more == es + [Sweep(now)] && Stale(cfg, b, now)
    ensures Stands(cfg, more, Vacant, admitted, from, to)
  {
    assert more[..|more| - 1] == es;
  }

  lemma NoRefill(cfg: Config, b: Bucket, now: int)
    requires cfg.window > 0 && b.tokens > 0 && 0 <= now - b.lastReset < cfg.window
    ensures Grants(cfg, Held(b), now) && Served(cfg, Held(b), now) == Bucket(b.tokens - 1, b.lastReset)
  {
    assert Quotient(now - b.lastReset, cfg.window) == 0;
  }

  /** Requests before the first refill take what is left. */
  lemma {:induction false} TakeSome(cfg: Config, es: seq<Event>, more: seq<Event>, b: Bucket, admitted: nat,
                                    n: nat, now: int, from: int, to: int)
    requires cfg.window > 0 && Stands(cfg, es, Held(b), admitted, from, to) && more == es + Requests(n, now)
    requires n <= b.tokens && 0 <= now - b.lastReset < cfg.window && from <= now <= to
    ensures Stands(cfg, more, Held(Bucket(b.tokens - n, b.lastReset)), admitted + n, from, to)
    decreases n
  {
    if n == 0 {
      assert more == es;
    } else {
      var less, left := es + Requests(n - 1, now), Bucket(b.tokens - (n - 1), b.lastReset);
      TakeSome(cfg, es, less, b, admitted, n - 1, now, from, to);
      NoRefill(cfg, left, now);
      RequestMore(cfg, less, more, Held(left), admitted + (n - 1), now, from, to);
    }
  }

  /** With no bucket, a whole burst. */
  lemma TakeAll(cfg: Config, es: seq<Event>, more: seq<Event>, admitted: nat, now: int, from: int, to: int)
    requires cfg.window > 0 && cfg.burst >= 1 && Stands(cfg, es, Vacant, admitted, from, to)
    requires more == es + Requests(cfg.burst, now) && from <= now <= to
    ensures Stands(cfg, more, Held(Bucket(0, now)), admitted + cfg.burst, from, to)
  {
    var first := es + [Request("k", now)];
    RequestMore(cfg, es, first, Vacant, admitted, now, from, to);
    assert more == first + Requests(cfg.burst - 1, now);
    TakeSome(cfg, first, more, Bucket(cfg.burst - 1, now), admitted + 1, cfg.burst - 1, now, from, to);
  }

  lemma OpeningAdmits(cfg: Config, start: nat, to: int)
    requires cfg.window > 0 && cfg.burst >= 1 && start < cfg.window && start <= to
    ensures Stands(cfg, Opening(cfg, start), Held(Bucket(0, 0)), cfg.burst - if start > 0 then 1 else 0, start, to)
  {
    assert Stands(cfg, [], Vacant, 0, start, to);
    if start > 0 {
      var first := [Request("k", 0)];
      assert first == [] + first;
      RequestMore(cfg, [], first, Vacant, 0, 0, start, to);
      TakeSome(cfg, first, Opening(cfg, start), Bucket(cfg.burst - 1, 0), 0, cfg.burst - 1, start, start, to);
    } else {
      assert Opening(cfg, 0) == [] + Requests(cfg.burst, 0);
      TakeAll(cfg, [], Opening(cfg, 0), 0, 0, 0, to);
    }
  }

  /** Every cycle admits a whole burst. */
  lemma {:induction false} CyclesAdmit(cfg: Config, start: nat, n: nat, to: int)
    requires cfg.window > 0 && cfg.burst >= 1 && start < cfg.window && start <= to && TimeOf(cfg, n) <= to
    ensures Bursts(cfg, n) >= 0
    ensures Stands(cfg, Cycles(cfg, start, n), Held(Bucket(0, TimeOf(cfg, n))),
                   cfg.burst + Bursts(cfg, n) - (if start > 0 then 1 else 0), start, to)
  {
    if n == 0 {
      OpeningAdmits(cfg, start, to);
    } else {
      CyclesAdmit(cfg, start, n - 1, to);
      TimeIs(cfg, n - 1);
      var last, now, es := TimeOf(cfg, n - 1), TimeOf(cfg, n), Cycles(cfg, start, n - 1);
      var admitted := cfg.burst + Bursts(cfg, n - 1) - if start > 0 then 1 else 0;
      SweepMore(cfg, es, es + [Sweep(now)], Bucket(0, last), admitted, now, start, to);
      TakeAll(cfg, es + [Sweep(now)], Cycles(cfg, start, n), admitted, now, start, to);
    }
  }

  lemma MonotoneAppend(es: seq<Event>, more: seq<Event>, now: int)
    requires Monotone(es) && (forall i :: 0 <= i < |es| ==> es[i].now <= now)
    requires forall i :: 0 <= i < |more| ==> more[i].now == now
    ensures Monotone(es + more) && forall i :: 0 <= i < |es + more| ==> (es + more)[i].now <= now
  {
  }

  lemma {:induction false} CyclesMonotone(cfg: Config, start: nat, n: nat)
    requires cfg.window > 0 && cfg.burst >= 1 && start < cfg.window
    ensures Monotone(Cycles(cfg, start, n))
    ensures forall i :: 0 <= i < |Cycles(cfg, start, n)| ==> Cycles(cfg, start, n)[i].now <= TimeOf(cfg, n) + start
  {
    if n > 0 {
      CyclesMonotone(cfg, start, n - 1);
      var es, now := Cycles(cfg, start, n - 1), TimeOf(cfg, n);
      MonotoneAppend(es, [Sweep(now)], now);
      MonotoneAppend(es + [Sweep(now)], Requests(cfg.burst, now), now);
    }
  }

  /** In `n` cycles the key is admitted more often than the bound says. */
  predicate Exceeds(cfg: Config, start: nat, n: nat)
    requires cfg.window > 0 && start <= n * Idle(cfg)
  {
    cfg.burst * n - (if start > 0 then 1 else 0) > cfg.rate * ((n * Idle(cfg) - start) / cfg.window + 1)
  }

  lemma CyclesBreak(cfg: Config, start: nat, n: nat)
    requires cfg.window > 0 && cfg.burst >= 1 && start < cfg.window && start <= n * Idle(cfg) && Exceeds(cfg, start, n)
    ensures !BoundHolds(cfg)
  {
    var es, to := Cycles(cfg, start, n), n * Idle(cfg);
    TimeIs(cfg, n);
    BurstsIs(cfg, n);
    CyclesAdmit(cfg, start, n, to);
    CyclesMonotone(cfg, start, n);
    assert !Bounded(cfg, es, "k", start, to);
  }

  /** A window of one tick: each cycle gains at least a request. */
  lemma OneTickBreaks(cfg: Config)
    requires cfg.window == 1 && cfg.burst >= 1 && cfg.rate >= 1 && cfg.burst > 11 * cfg.rate
    ensures !BoundHolds(cfg)
  {
    var n := cfg.rate + 1;
    MulMonotone(11 * cfg.rate + 1, cfg.burst, n);
    assert (11 * cfg.rate + 1) * n == cfg.rate * (11 * n) + n;
    assert cfg.rate * (11 * n + 1) == cfg.rate * (11 * n) + cfg.rate;
    CyclesBreak(cfg, 0, n);
  }

  /** Four ticks or more: two cycles are enough, begun three ticks late. */
  lemma TwoCyclesBreak(cfg: Config)
    requires cfg.window >= 4 && cfg.burst >= 1 && Excess(cfg) >= 1
    ensures !BoundHolds(cfg)
  {
    assert (2 * Idle(cfg) - 3) / cfg.window == 19 by {
      assert 2 * Idle(cfg) - 3 == 19 * cfg.window + (cfg.window - 1);
    }
    CyclesBreak(cfg, 3, 2);
  }

  lemma StaleIff(cfg: Config)
    requires cfg.window >= 2
    ensures StaleRefills(cfg) <==> Excess(cfg) <= 0
  {
    var q := (10 * cfg.window + 1) / cfg.window;
    assert q == 10;
    assert cfg.rate * q == cfg.rate * 10;
  }

  /** Without refills one sweep is enough. */
  lemma NoRefillBreaks(cfg: Config)
    requires cfg.window > 0 && cfg.burst >= 1 && cfg.rate <= 0
    ensures !BoundHolds(cfg)
  {
    MulMonotone(cfg.rate, 0, Idle(cfg) / cfg.window + 1);
    CyclesBreak(cfg, 0, 1);
  }

  lemma TwoTicksBreak(cfg: Config)
    requires cfg.window == 2 && cfg.burst >= 1 && 2 * Excess(cfg) > cfg.rate
    ensures !BoundHolds(cfg)
  {
    CyclesBreak(cfg, 1, 4);
  }

  lemma ThreeTicksBreak(cfg: Config)
    requires cfg.window == 3 && cfg.burst >= 1 && (Excess(cfg) >= 2 || (Excess(cfg) == 1 && cfg.rate < 3))
    ensures !BoundHolds(cfg)
  {
    CyclesBreak(cfg, 2, if Excess(cfg) >= 2 then 1 else 4);
  }

  lemma UnaffordableBreaks(cfg: Config)
    requires cfg.window > 0 && cfg.burst >= 1 && !SweepsAffordable(cfg)
    ensures !BoundHolds(cfg)
  {
    if cfg.rate <= 0 {
      NoRefillBreaks(cfg);
    } else if cfg.window == 1 {
      OneTickBreaks(cfg);
    } else {
      StaleIff(cfg);
      if cfg.window == 2 {
        TwoTicksBreak(cfg);
      } else if cfg.window == 3 {
        ThreeTicksBreak(cfg);
      } else {
        TwoCyclesBreak(cfg);
      }
    }
  }

  /** In every interval of length T of every run, sweeps whenever they may come, a key is admitted at most
      burst + rate * (T / window + 1) times, exactly for these configurations. */
  lemma AdmissionBoundIff(cfg: Config)
    requires cfg.window > 0 && cfg.burst >= 1
    ensures BoundHolds(cfg) <==> SweepsAffordable(cfg)
  {
    if SweepsAffordable(cfg) {
      assert cfg.rate >= 1 by { if StaleRefills(cfg) { RatePositive(cfg); } }
      forall es, key, from, to | Monotone(es) && from <= to ensures Bounded(cfg, es, key, from, to) {
        if StaleRefills(cfg) {
          AdmissionBound(cfg, es, key, from, to);
        } else {
          AffordableBound(cfg, es, key, from, to);
        }
      }
    } else {
      UnaffordableBreaks(cfg);
    }
  }

  /** Windows of four ticks or more: exactly when a stale bucket would have refilled. */
  lemma LongWindows(cfg: Config)
    requires cfg.window >= 4 && cfg.burst >= 1
    ensures BoundHolds(cfg) <==> cfg.burst <= 10 * cfg.rate
  {
    AdmissionBoundIff(cfg);
    StaleIff(cfg);
  }
}
