/** What a token bucket grants, told from the times of the requests alone: never less and never more than a full
    bucket and the windows that have passed pay for. */
module BucketAccount {
  import opened Arithmetic
  import opened TokenBucket

  // ---- refills, from the request times ----

  /** When `key` asked. */
  function Times(es: seq<Event>, key: string): seq<int>
  {
    if es == [] then []
    else
      var e := es[|es| - 1];
      Times(es[..|es| - 1], key) + if e.Request? && e.key == key then [e.now] else []
  }

  /** When the bucket was made, and when it was refilled: at the first request a whole window or more after the
      last time, if there is anything to refill. */
  function Marks(cfg: Config, ts: seq<int>): (m: seq<int>)
    ensures ts == [] <==> m == []
  {
    if ts == [] then []
    else
      var m, t := Marks(cfg, ts[..|ts| - 1]), ts[|ts| - 1];
      if m == [] then [t]
      else if cfg.rate > 0 && t - m[|m| - 1] >= cfg.window then m + [t]
      else m
  }

  /** The whole windows between one mark and the next, added up from mark `i` on. */
  function Windows(cfg: Config, m: seq<int>, i: nat): int
    requires cfg.window > 0
    decreases |m|
  {
    if |m| <= i + 1 then 0
    else Windows(cfg, m[..|m| - 1], i) + (m[|m| - 1] - m[|m| - 2]) / cfg.window
  }

  /** What mark `i` leaves to spend: a full bucket and the windows since then, less what was admitted since then. */
  function Room(cfg: Config, es: seq<Event>, key: string, m: seq<int>, i: nat, to: int): int
    requires cfg.window > 0 && i < |m|
  {
    cfg.burst + cfg.rate * Windows(cfg, m, i) - Admitted(cfg, es, key, m[i], to)
  }

  /** `x` is the least that any mark leaves. */
  ghost predicate LeastRoom(cfg: Config, es: seq<Event>, key: string, m: seq<int>, to: int, x: int)
    requires cfg.window > 0
  {
    && (forall i :: 0 <= i < |m| ==> x <= Room(cfg, es, key, m, i, to))
    && exists i :: 0 <= i < |m| && x == Room(cfg, es, key, m, i, to)
  }

  // ---- the bucket holds the least room ----

  lemma WindowsSnoc(cfg: Config, m: seq<int>, t: int, i: nat)
    requires cfg.window > 0 && i < |m|
    ensures Windows(cfg, m + [t], i) == Windows(cfg, m, i) + (t - m[|m| - 1]) / cfg.window
    ensures Windows(cfg, m + [t], |m|) == 0
  {
    assert (m + [t])[..|m|] == m;
  }

  predicate AllBefore(ts: seq<int>, now: int) { forall i :: 0 <= i < |ts| ==> ts[i] < now }

  lemma {:induction false} NoneAsked(cfg: Config, es: seq<Event>, key: string, from: int, to: int)
    requires cfg.window > 0 && AllBefore(Times(es, key), from)
    ensures Admitted(cfg, es, key, from, to) == 0
  {
    if es != [] {
      var init, e := es[..|es| - 1], es[|es| - 1];
      assert forall i :: 0 <= i < |Times(init, key)| ==> Times(es, key)[i] == Times(init, key)[i];
      if e.Request? && e.key == key { assert Times(es, key)[|Times(init, key)|] == e.now; }
      NoneAsked(cfg, init, key, from, to);
    }
  }

  lemma {:induction false} NeverAsked(cfg: Config, es: seq<Event>, key: string)
    requires cfg.window > 0 && OnlyRequests(es) && Times(es, key) == []
    ensures SlotOf(AfterAll(cfg, es), key) == Vacant
  {
    if es != [] { NeverAsked(cfg, es[..|es| - 1], key); }
  }

  lemma {:induction false} TimesUpTo(es: seq<Event>, key: string, now: int)
    requires Monotone(es) && UpTo(es, now)
    ensures AllBefore(Times(es, key), now + 1)
  {
    if es != [] { TimesUpTo(es[..|es| - 1], key, es[|es| - 1].now); }
  }

  /** The bucket after some requests: its tokens and its last mark. */
  ghost predicate Keeps(cfg: Config, es: seq<Event>, key: string, to: int)
    requires cfg.window > 0
  {
    var ts, s := Times(es, key), SlotOf(AfterAll(cfg, es), key);
    var m := Marks(cfg, ts);
    && ts != [] && s.Held? && s.b.lastReset == m[|m| - 1] && (forall i :: 0 <= i < |m| ==> m[i] <= to)
    && (cfg.rate > 0 ==> AllBefore(ts, s.b.lastReset + cfg.window))
    && LeastRoom(cfg, es, key, m, to, s.b.tokens)
  }

  /** A new mark: the others have gained the windows since the last, and it has a full bucket. */
  lemma RoomAtMark(cfg: Config, es: seq<Event>, key: string, m: seq<int>, now: int, i: nat, to: int)
    requires cfg.window > 0 && i < |m|
    ensures var q := (now - m[|m| - 1]) / cfg.window;
      Room(cfg, es, key, m + [now], i, to) == Room(cfg, es, key, m, i, to) + cfg.rate * q
    ensures Room(cfg, es, key, m + [now], |m|, to) == cfg.burst - Admitted(cfg, es, key, now, to)
  {
    WindowsSnoc(cfg, m, now, i);
    var q := (now - m[|m| - 1]) / cfg.window;
    assert cfg.rate * (Windows(cfg, m, i) + q) == cfg.rate * Windows(cfg, m, i) + cfg.rate * q;
  }

  lemma LeastAtMark(cfg: Config, es: seq<Event>, key: string, m: seq<int>, now: int, to: int, x: int)
    requires cfg.window > 0 && m != [] && LeastRoom(cfg, es, key, m, to, x)
    requires AllBefore(Times(es, key), now)
    ensures LeastRoom(cfg, es, key, m + [now], to,
                      Least(cfg.burst, x + cfg.rate * ((now - m[|m| - 1]) / cfg.window)))
  {
    var m' := m + [now];
    NoneAsked(cfg, es, key, now, to);
    forall i | 0 <= i < |m'|
      ensures Least(cfg.burst, x + cfg.rate * ((now - m[|m| - 1]) / cfg.window)) <= Room(cfg, es, key, m', i, to)
    {
      RoomAtMark(cfg, es, key, m, now, if i < |m| then i else 0, to);
    }
    var i :| 0 <= i < |m| && x == Room(cfg, es, key, m, i, to);
    RoomAtMark(cfg, es, key, m, now, i, to);
    assert Room(cfg, es, key, m', if x + cfg.rate * ((now - m[|m| - 1]) / cfg.window) < cfg.burst then i else |m|, to)
        == Least(cfg.burst, x + cfg.rate * ((now - m[|m| - 1]) / cfg.window));
  }

  lemma AdmittedNext(cfg: Config, es: seq<Event>, key: string, now: int, from: int, to: int)
    requires cfg.window > 0 && from <= now <= to
    ensures Admitted(cfg, es + [Request(key, now)], key, from, to) == Admitted(cfg, es, key, from, to)
      + if Grants(cfg, SlotOf(AfterAll(cfg, es), key), now) then 1 else 0
  {
    assert (es + [Request(key, now)])[..|es|] == es;
  }

  /** A request takes from what every mark leaves. */
  lemma LeastAfterRequest(cfg: Config, es: seq<Event>, key: string, m: seq<int>, now: int, to: int, x: int)
    requires cfg.window > 0 && LeastRoom(cfg, es, key, m, to, x) && now <= to
    requires forall i :: 0 <= i < |m| ==> m[i] <= now
    ensures LeastRoom(cfg, es + [Request(key, now)], key, m, to,
                      x - if Grants(cfg, SlotOf(AfterAll(cfg, es), key), now) then 1 else 0)
  {
    var es' := es + [Request(key, now)];
    var one := if Grants(cfg, SlotOf(AfterAll(cfg, es), key), now) then 1 else 0;
    forall i | 0 <= i < |m| ensures Room(cfg, es', key, m, i, to) == Room(cfg, es, key, m, i, to) - one {
      AdmittedNext(cfg, es, key, now, m[i], to);
    }
    var i :| 0 <= i < |m| && x == Room(cfg, es, key, m, i, to);
    assert x - one == Room(cfg, es', key, m, i, to);
  }

  lemma RefilledIs(cfg: Config, b: Bucket, now: int)
    requires cfg.window > 0 && b.lastReset <= now
    ensures cfg.rate > 0 && now - b.lastReset >= cfg.window ==>
      Refilled(cfg, b, now) ==
        Bucket(Least(cfg.burst, b.tokens + cfg.rate * ((now - b.lastReset) / cfg.window)), now)
    ensures !(cfg.rate > 0 && now - b.lastReset >= cfg.window) ==> Refilled(cfg, b, now) == b
  {
    var q := (now - b.lastReset) / cfg.window;
    assert q * cfg.rate == cfg.rate * q;
    if cfg.rate > 0 && now - b.lastReset >= cfg.window {
      QuotientMonotone(cfg.window, now - b.lastReset, cfg.window);
      MulMonotone(1, q, cfg.rate);
    } else if cfg.rate > 0 {
      assert q == 0;
    } else {
      MulMonotone(cfg.rate, 0, q);
    }
  }

  lemma MarksNext(cfg: Config, ts: seq<int>, now: int)
    requires ts != []
    ensures var m := Marks(cfg, ts);
      Marks(cfg, ts + [now]) == if cfg.rate > 0 && now - m[|m| - 1] >= cfg.window then m + [now] else m
  {
    assert (ts + [now])[..|ts|] == ts;
  }

  lemma RefillAccount(cfg: Config, es: seq<Event>, key: string, m: seq<int>, b: Bucket, now: int, to: int)
    requires cfg.window > 0 && m != [] && b.lastReset == m[|m| - 1] <= now <= to
    requires AllBefore(m, to + 1) && LeastRoom(cfg, es, key, m, to, b.tokens)
    requires cfg.rate > 0 ==> AllBefore(Times(es, key), b.lastReset + cfg.window)
    ensures var m' := if cfg.rate > 0 && now - m[|m| - 1] >= cfg.window then m + [now] else m;
      && Refilled(cfg, b, now).lastReset == m'[|m'| - 1] && AllBefore(m', to + 1)
      && LeastRoom(cfg, es, key, m', to, Refilled(cfg, b, now).tokens)
  {
    RefilledIs(cfg, b, now);
    if cfg.rate > 0 && now - b.lastReset >= cfg.window { LeastAtMark(cfg, es, key, m, now, to, b.tokens); }
  }

  /** What a refill does to a bucket whose account is kept. */
  lemma RefillKeeps(cfg: Config, es: seq<Event>, key: string, b: Bucket, now: int, to: int, m: seq<int>)
    requires cfg.window > 0 && Keeps(cfg, es, key, to) && m == Marks(cfg, Times(es, key) + [now])
    requires SlotOf(AfterAll(cfg, es), key) == Held(b) && b.lastReset <= now <= to
    ensures m != [] && Refilled(cfg, b, now).lastReset == m[|m| - 1] && AllBefore(m, to + 1)
    ensures LeastRoom(cfg, es, key, m, to, Refilled(cfg, b, now).tokens)
  {
    MarksNext(cfg, Times(es, key), now);
    RefillAccount(cfg, es, key, Marks(cfg, Times(es, key)), b, now, to);
  }

  lemma FirstKeeps(cfg: Config, es: seq<Event>, key: string, now: int, to: int)
    requires cfg.window > 0 && cfg.burst >= 1 && OnlyRequests(es) && Times(es, key) == [] && now <= to
    ensures Keeps(cfg, es + [Request(key, now)], key, to)
  {
    var es' := es + [Request(key, now)];
    assert es'[..|es|] == es;
    NeverAsked(cfg, es, key);
    NoneAsked(cfg, es, key, now, to);
    AdmittedNext(cfg, es, key, now, now, to);
    assert Times(es', key) == [now];
    assert Marks(cfg, [now]) == [now];
    assert Room(cfg, es', key, [now], 0, to) == cfg.burst - 1;
  }

  lemma ServedNext(cfg: Config, es: seq<Event>, key: string, now: int)
    requires cfg.window > 0
    ensures var es' := es + [Request(key, now)];
      && Times(es', key) == Times(es, key) + [now]
      && SlotOf(AfterAll(cfg, es'), key) == Held(Served(cfg, SlotOf(AfterAll(cfg, es), key), now))
  {
    assert (es + [Request(key, now)])[..|es|] == es;
  }

  lemma NextKeeps(cfg: Config, es: seq<Event>, key: string, now: int, to: int)
    requires cfg.window > 0 && Keeps(cfg, es, key, to) && AllBefore(Times(es, key), now + 1) && now <= to
    requires SlotOf(AfterAll(cfg, es), key).b.lastReset <= now
    requires forall i :: 0 <= i < |Marks(cfg, Times(es, key))| ==> Marks(cfg, Times(es, key))[i] <= now
    ensures Keeps(cfg, es + [Request(key, now)], key, to)
  {
    var s, m := SlotOf(AfterAll(cfg, es), key), Marks(cfg, Times(es, key) + [now]);
    ServedNext(cfg, es, key, now);
    RefillKeeps(cfg, es, key, s.b, now, to, m);
    LeastAfterRequest(cfg, es, key, m, now, to, Refilled(cfg, s.b, now).tokens);
  }

  lemma OtherKeeps(cfg: Config, es: seq<Event>, key: string, e: Event, to: int)
    requires cfg.window > 0 && Keeps(cfg, es, key, to) && e.Request? && e.key != key
    ensures Keeps(cfg, es + [e], key, to)
  {
    var es', m := es + [e], Marks(cfg, Times(es, key));
    assert es'[..|es|] == es;
    assert Times(es', key) == Times(es, key);
    forall i | 0 <= i < |m| ensures Room(cfg, es', key, m, i, to) == Room(cfg, es, key, m, i, to) { }
    var i :| 0 <= i < |m| && SlotOf(AfterAll(cfg, es), key).b.tokens == Room(cfg, es, key, m, i, to);
    assert Room(cfg, es', key, m, i, to) == Room(cfg, es, key, m, i, to);
  }

  lemma {:induction false} MarksWithin(cfg: Config, ts: seq<int>, now: int)
    requires AllBefore(ts, now)
    ensures AllBefore(Marks(cfg, ts), now)
  {
    if ts != [] { MarksWithin(cfg, ts[..|ts| - 1], now); }
  }

  lemma {:induction false} AccountKept(cfg: Config, es: seq<Event>, key: string, to: int)
    requires cfg.window > 0 && cfg.burst >= 1 && Monotone(es) && OnlyRequests(es) && UpTo(es, to)
    requires Times(es, key) != []
    ensures Keeps(cfg, es, key, to)
  {
    var init, e := es[..|es| - 1], es[|es| - 1];
    assert es == init + [e] && OnlyRequests(init);
    if Times(init, key) == [] {
      FirstKeeps(cfg, init, key, e.now, to);
    } else {
      AccountKept(cfg, init, key, to);
      if e.key == key {
        TimesUpTo(init, key, e.now);
        MarksWithin(cfg, Times(init, key), e.now + 1);
        NextKeeps(cfg, init, key, e.now, to);
      } else {
        OtherKeeps(cfg, init, key, e, to);
      }
    }
  }

  /** In any run without sweeps a request is granted exactly when, since no refill and not since the bucket was made,
      the key has been admitted as often as a full bucket and the whole windows between the refills since then
      allow. */
  lemma GrantedIff(cfg: Config, es: seq<Event>, key: string, now: int)
    requires cfg.window > 0 && cfg.burst >= 1 && Monotone(es) && OnlyRequests(es) && UpTo(es, now)
    ensures var m := Marks(cfg, Times(es, key) + [now]);
      Grants(cfg, SlotOf(AfterAll(cfg, es), key), now) <==>
        forall i :: 0 <= i < |m| ==>
          Admitted(cfg, es, key, m[i], now) < cfg.burst + cfg.rate * Windows(cfg, m, i)
  {
    var m := Marks(cfg, Times(es, key) + [now]);
    if Times(es, key) == [] {
      assert m == [now];
      NeverAsked(cfg, es, key);
      NoneAsked(cfg, es, key, now, now);
    } else {
      AccountKept(cfg, es, key, now);
      TokensInRange(cfg, es, key, now);
      var b := SlotOf(AfterAll(cfg, es), key).b;
      RefillKeeps(cfg, es, key, b, now, now, m);
      RoomPositive(cfg, es, key, m, now, Refilled(cfg, b, now).tokens);
    }
  }

  lemma RoomPositive(cfg: Config, es: seq<Event>, key: string, m: seq<int>, to: int, x: int)
    requires cfg.window > 0 && LeastRoom(cfg, es, key, m, to, x)
    ensures x > 0 <==> forall i :: 0 <= i < |m| ==>
      Admitted(cfg, es, key, m[i], to) < cfg.burst + cfg.rate * Windows(cfg, m, i)
  {
    forall i | 0 <= i < |m|
      ensures Room(cfg, es, key, m, i, to) > 0 <==>
        Admitted(cfg, es, key, m[i], to) < cfg.burst + cfg.rate * Windows(cfg, m, i)
    {
    }
  }

  // ---- waiting ----

  /** `n` requests at `now`. */
  function Asks(key: string, n: nat, now: int): (es: seq<Event>)
    ensures |es| == n && forall i :: 0 <= i < n ==> es[i] == Request(key, now)
  {
    seq(n, _ => Request(key, now))
  }

  /** All of them are granted. */
  predicate AllGranted(cfg: Config, es: seq<Event>, key: string, n: nat, now: int)
    requires cfg.window > 0
  {
    Admitted(cfg, es + Asks(key, n, now), key, now, now) == Admitted(cfg, es, key, now, now) + n
  }

  /** The tokens a request finds at `now`. */
  function Available(cfg: Config, s: Slot, now: int): int
    requires cfg.window > 0
  {
    if s.Vacant? then cfg.burst else Refilled(cfg, s.b, now).tokens
  }

  lemma AvailableNext(cfg: Config, s: Slot, now: int)
    requires cfg.window > 0 && cfg.burst >= 1 && InRange(cfg, s, now)
    ensures Grants(cfg, s, now) <==> Available(cfg, s, now) > 0
    ensures Available(cfg, Held(Served(cfg, s, now)), now)
         == Available(cfg, s, now) - if Grants(cfg, s, now) then 1 else 0
    ensures InRange(cfg, Held(Served(cfg, s, now)), now) && Available(cfg, s, now) >= 0
  {
    ServedInRange(cfg, s, now);
    var t := Served(cfg, s, now);
    if t.lastReset == now {
      assert Quotient(now - t.lastReset, cfg.window) == 0;
    }
  }

  /** After `es` the key has been admitted `admitted` times at `now` and `left` tokens are left. */
  ghost predicate Left(cfg: Config, es: seq<Event>, key: string, now: int, admitted: int, left: int)
    requires cfg.window > 0
  {
    && Admitted(cfg, es, key, now, now) == admitted && InRange(cfg, SlotOf(AfterAll(cfg, es), key), now)
    && Available(cfg, SlotOf(AfterAll(cfg, es), key), now) == left >= 0
  }

  lemma AskOne(cfg: Config, es: seq<Event>, more: seq<Event>, key: string, now: int, admitted: int, left: int)
    requires cfg.window > 0 && cfg.burst >= 1 && Left(cfg, es, key, now, admitted, left)
    requires more == es + [Request(key, now)]
    ensures if left > 0 then Left(cfg, more, key, now, admitted + 1, left - 1)
            else Left(cfg, more, key, now, admitted, 0)
  {
    assert more[..|es|] == es;
    AvailableNext(cfg, SlotOf(AfterAll(cfg, es), key), now);
    AdmittedNext(cfg, es, key, now, now, now);
  }

  /** Of `n` requests as many are granted as there are tokens. */
  lemma {:induction false} AsksTake(cfg: Config, es: seq<Event>, key: string, n: nat, now: int,
                                    admitted: int, left: int)
    requires cfg.window > 0 && cfg.burst >= 1 && Left(cfg, es, key, now, admitted, left)
    ensures Left(cfg, es + Asks(key, n, now), key, now, admitted + Least(n, left), left - Least(n, left))
  {
    if n == 0 {
      assert es + Asks(key, 0, now) == es;
    } else {
      AsksTake(cfg, es, key, n - 1, now, admitted, left);
      var less, more := es + Asks(key, n - 1, now), es + Asks(key, n, now);
      assert more == less + [Request(key, now)];
      AskOne(cfg, less, more, key, now, admitted + Least(n - 1, left), left - Least(n - 1, left));
    }
  }

  lemma AvailableGrows(cfg: Config, s: Slot, now: int, later: int)
    requires cfg.window > 0 && InRange(cfg, s, now) && now <= later
    ensures Available(cfg, s, now) <= Available(cfg, s, later)
  {
    if s.Held? {
      var a, b := (now - s.b.lastReset) / cfg.window, (later - s.b.lastReset) / cfg.window;
      QuotientMonotone(now - s.b.lastReset, later - s.b.lastReset, cfg.window);
      if cfg.rate > 0 {
        MulMonotone(a, b, cfg.rate);
      } else {
        MulMonotone(cfg.rate, 0, a);
        MulMonotone(cfg.rate, 0, b);
        assert a * cfg.rate == cfg.rate * a && b * cfg.rate == cfg.rate * b;
      }
    }
  }

  /** Waiting loses no grant: what would all be granted now would all be granted at any later time, after any run, with
      sweeps or without. */
  lemma WaitingLosesNothing(cfg: Config, es: seq<Event>, key: string, n: nat, now: int, later: int)
    requires cfg.window > 0 && cfg.burst >= 1 && Monotone(es) && UpTo(es, now) && now <= later
    requires AllGranted(cfg, es, key, n, now)
    ensures AllGranted(cfg, es, key, n, later)
  {
    TokensInRange(cfg, es, key, now);
    var s := SlotOf(AfterAll(cfg, es), key);
    AvailableGrows(cfg, s, now, later);
    AvailableNext(cfg, s, now);
    AsksTake(cfg, es, key, n, now, Admitted(cfg, es, key, now, now), Available(cfg, s, now));
    AsksTake(cfg, es, key, n, later, Admitted(cfg, es, key, later, later), Available(cfg, s, later));
  }
}
