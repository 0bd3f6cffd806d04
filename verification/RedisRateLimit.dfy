/** The fixed-window limiter shared by every replica: one counter per bucket and epoch, kept in Redis. */
module RedisRateLimit {
  import opened Arithmetic
  import opened Text
  import Decimal

  /** Nanoseconds per second; all times are nanoseconds of the one shared clock. */
  const SECOND: nat := 1_000_000_000

  datatype Counter = Counter(count: int, expireAt: int)

  /** What the script does to a counter at `now`: INCR, and EXPIRE when the count is 1. */
  function Incremented(counters: map<string, Counter>, key: string, windowSeconds: nat, now: int): Counter
  {
    var count := if key in counters && now < counters[key].expireAt then counters[key].count + 1 else 1;
    if count == 1 then Counter(1, now + windowSeconds * SECOND) else counters[key].(count := count)
  }

  function Epoch(now: int, windowSeconds: nat): int
    requires windowSeconds >= 1 && now >= 0
  {
    now / SECOND / windowSeconds
  }

  function Key(prefix: string, bucket: string, epoch: int): string
  {
    prefix + ":" + bucket + ":" + Decimal.Print(epoch)
  }

  class Redis {
    var counters: map<string, Counter>

    constructor ()
      ensures counters == map[]
    {
      counters := map[];
    }

    method RunRateLimitScript(key: string, windowSeconds: nat, limit: int, now: int) returns (r: int)
      modifies this
      ensures counters == old(counters)[key := Incremented(old(counters), key, windowSeconds, now)]
      ensures r == if counters[key].count > limit then 0 else 1
    {
      var live := key in counters && now < counters[key].expireAt;
      // INCR
      var count := if live then counters[key].count + 1 else 1;
      var expireAt := if live then counters[key].expireAt else now;
      if count == 1 {
        // EXPIRE
        expireAt := now + windowSeconds * SECOND;
      }
      counters := counters[key := Counter(count, expireAt)];
      if count > limit {
        return 0;
      }
      return 1;
    }
  }

  /** Whether Redis answers, is not reached, or runs the script but its reply is lost. */
  datatype Link = Answers | Unreachable | ReplyLost

  class RedisRateLimiter {
    const prefix: string
    const limit: int
    const windowSeconds: nat

    constructor (prefix: string, limit: int, windowSeconds: nat)
      ensures this.prefix == (if prefix == "" then "ratelimit" else prefix)
      ensures this.limit == limit && this.windowSeconds == windowSeconds
    {
      this.prefix := if prefix == "" then "ratelimit" else prefix;
      this.limit := limit;
      this.windowSeconds := windowSeconds;
    }

    /** An error admits the request, whether the script ran or not. */
    method Allow(rdb: Redis, bucket: string, now: int, link: Link) returns (ok: bool)
      requires windowSeconds >= 1 && 0 <= now <= Decimal.MAX_INT64
      modifies rdb
      ensures rdb.counters == if link.Unreachable? then old(rdb.counters)
                              else After(old(rdb.counters), prefix, windowSeconds, Request(bucket, now))
      ensures ok <==> !link.Answers? || Admits(old(rdb.counters), prefix, windowSeconds, limit, Request(bucket, now))
    {
      var windowStart := now / SECOND / windowSeconds;
      EpochInRange(now, windowSeconds);
      var printed := Decimal.Itoa(windowStart);
      var key := prefix + ":" + bucket + ":" + printed;
      if link.Unreachable? {
        return true;
      }
      var res := rdb.RunRateLimitScript(key, windowSeconds, limit, now);
      return link.ReplyLost? || res == 1;
    }
  }

  lemma EpochInRange(now: int, windowSeconds: nat)
    requires windowSeconds >= 1 && 0 <= now <= Decimal.MAX_INT64
    ensures 0 <= now / SECOND / windowSeconds <= now
  {
    var s := now / SECOND;
    assert s <= now;
    EpochBounds(now, windowSeconds);
    assert s / windowSeconds <= s by {
      if s / windowSeconds > s {
        MulMonotone(s + 1, s / windowSeconds, windowSeconds);
      }
    }
  }

  // ---- runs ----

  /** A call to Allow by any replica. */
  datatype Request = Request(bucket: string, now: int)

  function After(counters: map<string, Counter>, prefix: string, w: nat, r: Request): map<string, Counter>
    requires w >= 1 && r.now >= 0
  {
    var key := Key(prefix, r.bucket, Epoch(r.now, w));
    counters[key := Incremented(counters, key, w, r.now)]
  }

  predicate Admits(counters: map<string, Counter>, prefix: string, w: nat, limit: int, r: Request)
    requires w >= 1 && r.now >= 0
  {
    Incremented(counters, Key(prefix, r.bucket, Epoch(r.now, w)), w, r.now).count <= limit
  }

  ghost predicate Timed(reqs: seq<Request>)
  {
    forall i :: 0 <= i < |reqs| ==> reqs[i].now >= 0
  }

  function AfterAll(prefix: string, w: nat, reqs: seq<Request>): map<string, Counter>
    requires w >= 1 && Timed(reqs)
  {
    if reqs == [] then map[] else After(AfterAll(prefix, w, reqs[..|reqs| - 1]), prefix, w, reqs[|reqs| - 1])
  }

  predicate In(r: Request, w: nat, bucket: string, epoch: int)
    requires w >= 1
  {
    r.now >= 0 && r.bucket == bucket && Epoch(r.now, w) == epoch
  }

  function Asked(w: nat, reqs: seq<Request>, bucket: string, epoch: int): nat
    requires w >= 1
  {
    if reqs == [] then 0
    else Asked(w, reqs[..|reqs| - 1], bucket, epoch) + if In(reqs[|reqs| - 1], w, bucket, epoch) then 1 else 0
  }

  function AdmittedLast(prefix: string, w: nat, limit: int, reqs: seq<Request>): bool
    requires w >= 1 && Timed(reqs) && reqs != []
  {
    Admits(AfterAll(prefix, w, reqs[..|reqs| - 1]), prefix, w, limit, reqs[|reqs| - 1])
  }

  function Admitted(prefix: string, w: nat, limit: int, reqs: seq<Request>, bucket: string, epoch: int): nat
    requires w >= 1 && Timed(reqs)
  {
    if reqs == [] then 0
    else
      Admitted(prefix, w, limit, reqs[..|reqs| - 1], bucket, epoch)
      + if In(reqs[|reqs| - 1], w, bucket, epoch) && AdmittedLast(prefix, w, limit, reqs) then 1 else 0
  }

  // ---- keys do not collide, and counters outlive their epoch ----

  /** Exactly when two counters share a key: the epochs are equal, and prefix and bucket run together. */
  lemma KeysCollideIff(p: string, b: string, e: int, q: string, c: string, f: int)
    ensures Key(p, b, e) == Key(q, c, f) <==> e == f && p + ":" + b == q + ":" + c
  {
    Decimal.ParsePrint(e);
    Decimal.ParsePrint(f);
    if Key(p, b, e) == Key(q, c, f) {
      SeparatorSplits(':', p + ":" + b, Decimal.Print(e), q + ":" + c, Decimal.Print(f));
    }
  }

  /** Under one prefix no two counters share a key. */
  lemma KeyInjective(prefix: string, b: string, e: int, c: string, f: int)
    requires Key(prefix, b, e) == Key(prefix, c, f)
    ensures b == c && e == f
  {
    KeysCollideIff(prefix, b, e, prefix, c, f);
    assert b == (prefix + ":" + b)[|prefix| + 1..] && c == (prefix + ":" + c)[|prefix| + 1..];
  }

  /** Two services can collide exactly when one prefix, with its colon, begins the other. */
  lemma PrefixesCollideIff(p: string, q: string, e: int)
    ensures (exists b, c :: Key(p, b, e) == Key(q, c, e)) <==> p + ":" <= q + ":" || q + ":" <= p + ":"
  {
    if b, c :| Key(p, b, e) == Key(q, c, e) {
      KeysCollideIff(p, b, e, q, c, e);
      BeginsOther(p + ":", b, q + ":", c);
    }
    if p + ":" <= q + ":" {
      Completed(p, q, e);
    }
    if q + ":" <= p + ":" {
      Completed(q, p, e);
    }
  }

  lemma BeginsOther(x: string, b: string, y: string, c: string)
    requires x + b == y + c
    ensures x <= y || y <= x
  {
    assert (x + b)[..|x|] == x && (y + c)[..|y|] == y;
    if |x| <= |y| {
      assert x == (y + c)[..|x|] == y[..|x|];
    } else {
      assert y == (x + b)[..|y|] == x[..|y|];
    }
  }

  lemma Completed(p: string, q: string, e: int)
    requires p + ":" <= q + ":"
    ensures exists b, c :: Key(p, b, e) == Key(q, c, e) && Key(q, c, e) == Key(p, b, e)
  {
    var b := (q + ":")[|p| + 1..];
    assert p + ":" + b == q + ":" == q + ":" + "";
    KeysCollideIff(p, b, e, q, "", e);
    assert Key(p, b, e) == Key(q, "", e) && Key(q, "", e) == Key(p, b, e);
  }

  /** Prefix "a" with bucket "b:c" and prefix "a:b" with bucket "c" share their counters. */
  lemma ServicesCollide(e: int)
    ensures Key("a", "b:c", e) == Key("a:b", "c", e)
  {
    KeysCollideIff("a", "b:c", e, "a:b", "c", e);
    assert "a" + ":" + "b:c" == "a:b" + ":" + "c";
  }

  /** The instants of an epoch. */
  lemma EpochBounds(now: int, w: nat)
    requires w >= 1 && now >= 0
    ensures Epoch(now, w) * (w * SECOND) <= now < Epoch(now, w) * (w * SECOND) + w * SECOND
    ensures Epoch(now, w) >= 0
  {
    var s, e := now / SECOND, Epoch(now, w);
    assert s == e * w + s % w;
    assert s * SECOND <= now < (s + 1) * SECOND;
    assert e * (w * SECOND) == (e * w) * SECOND;
    assert (s - e * w) * SECOND <= (w - 1) * SECOND;
  }

  /** A counter present for `(bucket, epoch)` holds every request so far and expires after its epoch. */
  ghost predicate Counts(counters: map<string, Counter>, prefix: string, w: nat, reqs: seq<Request>, bucket: string,
                         epoch: int)
    requires w >= 1
  {
    var key, n := Key(prefix, bucket, epoch), Asked(w, reqs, bucket, epoch);
    if n == 0 then key !in counters
    else key in counters && counters[key].count == n && counters[key].expireAt >= epoch * (w * SECOND) + w * SECOND
  }

  /** The TTL never ends a counter inside its own epoch: a counter is exactly the number of requests. */
  lemma {:induction false} CountersCount(prefix: string, w: nat, reqs: seq<Request>, bucket: string, epoch: int)
    requires w >= 1 && Timed(reqs)
    ensures Counts(AfterAll(prefix, w, reqs), prefix, w, reqs, bucket, epoch)
  {
    if reqs != [] {
      var init, r := reqs[..|reqs| - 1], reqs[|reqs| - 1];
      CountersCount(prefix, w, init, bucket, epoch);
      EpochBounds(r.now, w);
      if Key(prefix, r.bucket, Epoch(r.now, w)) == Key(prefix, bucket, epoch) {
        KeyInjective(prefix, r.bucket, Epoch(r.now, w), bucket, epoch);
      }
    }
  }

  /** Each epoch admits exactly the first `limit` requests of a bucket, whoever made them. */
  lemma {:induction false} AdmittedPerEpoch(prefix: string, w: nat, limit: int, reqs: seq<Request>, bucket: string,
                                            epoch: int)
    requires w >= 1 && Timed(reqs)
    ensures Admitted(prefix, w, limit, reqs, bucket, epoch) ==
      Least(Asked(w, reqs, bucket, epoch), if limit < 0 then 0 else limit)
  {
    if reqs != [] {
      var init, r := reqs[..|reqs| - 1], reqs[|reqs| - 1];
      AdmittedPerEpoch(prefix, w, limit, init, bucket, epoch);
      CountersCount(prefix, w, init, bucket, epoch);
      EpochBounds(r.now, w);
    }
  }

  /** Requests of a bucket admitted in `[from, from + one window)`. */
  function AdmittedInSpan(prefix: string, w: nat, limit: int, reqs: seq<Request>, bucket: string, from: int): nat
    requires w >= 1 && Timed(reqs)
  {
    if reqs == [] then 0
    else
      var r := reqs[|reqs| - 1];
      AdmittedInSpan(prefix, w, limit, reqs[..|reqs| - 1], bucket, from)
      + if r.bucket == bucket && from <= r.now < from + w * SECOND && AdmittedLast(prefix, w, limit, reqs) then 1 else 0
  }

  lemma NextCell(e: int, f: int, u: int, from: int, now: int)
    requires e * u <= from < e * u + u && f * u <= now < f * u + u && from <= now < from + u
    ensures f == e || f == e + 1
  {
    if f < e {
      MulMonotone(f + 1, e, u);
    }
    if f > e + 1 {
      MulMonotone(e + 2, f, u);
    }
  }

  /** One window's span meets two epochs at most. */
  lemma SpanMeetsTwoEpochs(w: nat, from: int, now: int)
    requires w >= 1 && from >= 0 && from <= now < from + w * SECOND
    ensures Epoch(now, w) == Epoch(from, w) || Epoch(now, w) == Epoch(from, w) + 1
  {
    EpochBounds(from, w);
    EpochBounds(now, w);
    NextCell(Epoch(from, w), Epoch(now, w), w * SECOND, from, now);
  }

  lemma {:induction false} SpanWithinTwoEpochs(prefix: string, w: nat, limit: int, reqs: seq<Request>, bucket: string,
                                               from: int)
    requires w >= 1 && Timed(reqs) && from >= 0
    ensures AdmittedInSpan(prefix, w, limit, reqs, bucket, from)
      <= Admitted(prefix, w, limit, reqs, bucket, Epoch(from, w))
         + Admitted(prefix, w, limit, reqs, bucket, Epoch(from, w) + 1)
  {
    if reqs != [] {
      SpanWithinTwoEpochs(prefix, w, limit, reqs[..|reqs| - 1], bucket, from);
      var r := reqs[|reqs| - 1];
      if from <= r.now < from + w * SECOND {
        SpanMeetsTwoEpochs(w, from, r.now);
      }
    }
  }

  /** Any half-open span of one window admits at most twice the limit, for any number of replicas. */
  lemma SpanBound(prefix: string, w: nat, limit: nat, reqs: seq<Request>, bucket: string, from: int)
    requires w >= 1 && Timed(reqs) && from >= 0
    ensures AdmittedInSpan(prefix, w, limit, reqs, bucket, from) <= 2 * limit
  {
    SpanWithinTwoEpochs(prefix, w, limit, reqs, bucket, from);
    AdmittedPerEpoch(prefix, w, limit, reqs, bucket, Epoch(from, w));
    AdmittedPerEpoch(prefix, w, limit, reqs, bucket, Epoch(from, w) + 1);
  }

  function Repeated(r: Request, n: nat): (reqs: seq<Request>)
    ensures |reqs| == n && forall i :: 0 <= i < n ==> reqs[i] == r
  {
    seq(n, _ => r)
  }

  lemma {:induction false} AskedRepeated(w: nat, reqs: seq<Request>, r: Request, n: nat, bucket: string, epoch: int)
    requires w >= 1
    ensures Asked(w, reqs + Repeated(r, n), bucket, epoch) ==
      Asked(w, reqs, bucket, epoch) + if In(r, w, bucket, epoch) then n else 0
  {
    var all := reqs + Repeated(r, n);
    if n == 0 {
      assert all == reqs;
    } else {
      AskedRepeated(w, reqs, r, n - 1, bucket, epoch);
      assert all[..|all| - 1] == reqs + Repeated(r, n - 1);
    }
  }

  lemma {:induction false} SpanIsTwoEpochs(prefix: string, w: nat, limit: int, reqs: seq<Request>, bucket: string,
                                           from: int)
    requires w >= 1 && Timed(reqs) && from >= 0
    requires forall i :: 0 <= i < |reqs| ==> reqs[i].bucket == bucket && from <= reqs[i].now < from + w * SECOND
    ensures AdmittedInSpan(prefix, w, limit, reqs, bucket, from)
      == Admitted(prefix, w, limit, reqs, bucket, Epoch(from, w))
         + Admitted(prefix, w, limit, reqs, bucket, Epoch(from, w) + 1)
  {
    if reqs != [] {
      SpanIsTwoEpochs(prefix, w, limit, reqs[..|reqs| - 1], bucket, from);
      SpanMeetsTwoEpochs(w, from, reqs[|reqs| - 1].now);
    }
  }

  /** The last nanosecond of one epoch and the first of the next. */
  function Burst(w: nat, bucket: string, limit: nat): (reqs: seq<Request>)
    requires w >= 1
  {
    Repeated(Request(bucket, w * SECOND - 1), limit) + Repeated(Request(bucket, w * SECOND), limit)
  }

  /** Twice the limit is reached: a full burst on either side of an epoch boundary is admitted. */
  lemma SpanBoundTight(prefix: string, w: nat, limit: nat, bucket: string)
    requires w >= 1
    ensures Timed(Burst(w, bucket, limit))
    ensures AdmittedInSpan(prefix, w, limit, Burst(w, bucket, limit), bucket, w * SECOND - 1) == 2 * limit
  {
    var late, early := Request(bucket, w * SECOND - 1), Request(bucket, w * SECOND);
    var reqs := Burst(w, bucket, limit);
    SpanIsTwoEpochs(prefix, w, limit, reqs, bucket, late.now);
    BoundaryEpochs(w);
    AskedInBurst(w, bucket, limit, 0);
    AskedInBurst(w, bucket, limit, 1);
    AdmittedPerEpoch(prefix, w, limit, reqs, bucket, 0);
    AdmittedPerEpoch(prefix, w, limit, reqs, bucket, 1);
  }

  lemma BoundaryEpochs(w: nat)
    requires w >= 1
    ensures Epoch(w * SECOND - 1, w) == 0 && Epoch(w * SECOND, w) == 1
  {
    EpochBounds(w * SECOND - 1, w);
    EpochBounds(w * SECOND, w);
    var u := w * SECOND;
    if Epoch(u - 1, w) > 0 { MulMonotone(1, Epoch(u - 1, w), u); }
    if Epoch(u, w) > 1 { MulMonotone(2, Epoch(u, w), u); }
  }

  lemma AskedInBurst(w: nat, bucket: string, limit: nat, epoch: int)
    requires w >= 1 && (epoch == 0 || epoch == 1)
    ensures Asked(w, Burst(w, bucket, limit), bucket, epoch) == limit
  {
    var late, early := Request(bucket, w * SECOND - 1), Request(bucket, w * SECOND);
    BoundaryEpochs(w);
    AskedRepeated(w, [], late, limit, bucket, epoch);
    assert [] + Repeated(late, limit) == Repeated(late, limit);
    AskedRepeated(w, Repeated(late, limit), early, limit, bucket, epoch);
  }
}
