/**
 The fixed-window rate limiter (packages/agent/src/a2a-server-gateway.ts).

 The clock is an argument; times are whole milliseconds.
 */
module RateLimiter {
  import opened Prelude
  import opened Utf16

  datatype Bucket = Bucket(windowStart: int, count: int)

  datatype Options = Options(maxRequests: int, windowMs: int)

  datatype Call = Call(key: Text, now: int)

  /** The key's bucket after a call, and whether the call is allowed. */
  function Asked(existing: Option<Bucket>, now: int, o: Options): (Bucket, bool) {
    if existing.None? || now - existing.value.windowStart >= o.windowMs then (Bucket(now, 1), true)
    else if existing.value.count >= o.maxRequests then (existing.value, false)
    else (existing.value.(count := existing.value.count + 1), true)
  }

  function Get(buckets: map<Text, Bucket>, key: Text): Option<Bucket> {
    if key in buckets then Some(buckets[key]) else None
  }

  class InMemoryRateLimiter {
    const options: Options
    var buckets: map<Text, Bucket>

    constructor (options: Options)
      ensures this.options == options && buckets == map[]
    {
      this.options, buckets := options, map[];
    }

    method Allow(key: Text, now: int) returns (allowed: bool)
      modifies this
      ensures (Get(buckets, key), allowed) ==
              (Some(Asked(Get(old(buckets), key), now, options).0), Asked(Get(old(buckets), key), now, options).1)
      ensures forall k :: k != key ==> Get(buckets, k) == Get(old(buckets), k)
    {
      if key !in buckets || now - buckets[key].windowStart >= options.windowMs {
        buckets := buckets[key := Bucket(now, 1)];
        return true;
      }
      if buckets[key].count >= options.maxRequests {
        return false;
      }
      buckets := buckets[key := buckets[key].(count := buckets[key].count + 1)];
      allowed := true;
    }
  }

  // ---------------------------------------------------------------- every run

  /** The bucket of a key after the calls. */
  function BucketOf(calls: seq<Call>, key: Text, o: Options): Option<Bucket> {
    if calls == [] then None
    else
      var n := |calls| - 1;
      var before := BucketOf(calls[..n], key, o);
      if calls[n].key == key then Some(Asked(before, calls[n].now, o).0) else before
  }

  /** Whether the last call was allowed. */
  predicate LastAllowed(calls: seq<Call>, o: Options)
    requires calls != []
  {
    var n := |calls| - 1;
    Asked(BucketOf(calls[..n], calls[n].key, o), calls[n].now, o).1
  }

  /** Calls for the key that were allowed at a time in [from, to). */
  function Admitted(calls: seq<Call>, key: Text, o: Options, from: int, to: int): nat {
    if calls == [] then 0
    else
      var n := |calls| - 1;
      Admitted(calls[..n], key, o, from, to) +
      if calls[n].key == key && from <= calls[n].now < to && LastAllowed(calls, o) then 1 else 0
  }

  predicate Monotone(calls: seq<Call>) {
    forall i, j :: 0 <= i < j < |calls| ==> calls[i].now <= calls[j].now
  }

  /** Without calls at or after `from` none is admitted. */
  lemma {:induction false} NoneYet(calls: seq<Call>, key: Text, o: Options, from: int, to: int)
    requires forall i :: 0 <= i < |calls| ==> calls[i].now < from
    ensures Admitted(calls, key, o, from, to) == 0
  {
    if calls != [] {
      NoneYet(calls[..|calls| - 1], key, o, from, to);
    }
  }

  lemma {:induction false} BucketStarted(calls: seq<Call>, key: Text, o: Options)
    requires Monotone(calls)
    ensures var b := BucketOf(calls, key, o);
            b.Some? ==> calls != [] && b.value.windowStart <= calls[|calls| - 1].now && 1 <= b.value.count <= Max(1, o.maxRequests)
  {
    if calls != [] {
      var n := |calls| - 1;
      BucketStarted(calls[..n], key, o);
    }
  }

  /**
   What is admitted in [from, from + windowMs): nothing without a bucket; if the interval begins
   after the bucket does, at most the bucket's count without the call that started it; if it ends
   after the bucket began, at most one full window more, again without its first call; and at
   most two full windows without that call in any case.
   */
  lemma {:induction false} AdmittedInWindow(calls: seq<Call>, key: Text, o: Options, from: int)
    requires Monotone(calls)
    ensures var b, n := BucketOf(calls, key, o), Admitted(calls, key, o, from, from + o.windowMs);
            && (b.None? ==> n == 0)
            && (b.Some? && from > b.value.windowStart ==> n <= b.value.count - 1)
            && (b.Some? && from > b.value.windowStart - o.windowMs ==> n <= Max(1, o.maxRequests) - 1 + b.value.count)
            && n <= 2 * Max(1, o.maxRequests) - 1
  {
    if calls != [] {
      var n := |calls| - 1;
      AdmittedInWindow(calls[..n], key, o, from);
      BucketStarted(calls[..n], key, o);
      BucketStarted(calls, key, o);
      if from > calls[n].now {
        NoneYet(calls, key, o, from, from + o.windowMs);
      }
    }
  }

  /** Of a window of one millisecond: what is admitted in that millisecond fits one quota. */
  lemma {:induction false} AdmittedAtOnce(calls: seq<Call>, key: Text, o: Options, at: int)
    requires Monotone(calls) && o.windowMs == 1
    ensures var b, n := BucketOf(calls, key, o), Admitted(calls, key, o, at, at + 1);
            && (b.None? ==> n == 0)
            && (b.Some? && at > b.value.windowStart ==> n == 0)
            && (b.Some? && at == b.value.windowStart ==> n <= b.value.count)
            && n <= Max(1, o.maxRequests)
  {
    if calls != [] {
      var n := |calls| - 1;
      AdmittedAtOnce(calls[..n], key, o, at);
      BucketStarted(calls[..n], key, o);
      BucketStarted(calls, key, o);
    }
  }

  lemma {:induction false} NoneInNoTime(calls: seq<Call>, key: Text, o: Options, from: int, to: int)
    requires to <= from
    ensures Admitted(calls, key, o, from, to) == 0
  {
    if calls != [] {
      NoneInNoTime(calls[..|calls| - 1], key, o, from, to);
    }
  }

  /** The most calls an interval as long as a window can admit: two quotas less one, unless a window is but an instant. */
  function Bound(o: Options): int {
    if o.windowMs <= 0 then 0
    else if o.windowMs == 1 then Max(1, o.maxRequests)
    else 2 * Max(1, o.maxRequests) - 1
  }

  /** With a clock that does not go back, an interval as long as a window admits no more per key. */
  lemma WindowBound(calls: seq<Call>, key: Text, o: Options, from: int)
    requires Monotone(calls)
    ensures Admitted(calls, key, o, from, from + o.windowMs) <= Bound(o)
  {
    if o.windowMs <= 0 {
      NoneInNoTime(calls, key, o, from, from + o.windowMs);
    } else if o.windowMs == 1 {
      AdmittedAtOnce(calls, key, o, from);
    } else {
      AdmittedInWindow(calls, key, o, from);
    }
  }

  /** The bucket counts the calls admitted since its window started. */
  lemma {:induction false} BucketCounts(calls: seq<Call>, key: Text, o: Options, from: int, to: int)
    requires Monotone(calls) && BucketOf(calls, key, o).Some?
    requires from <= BucketOf(calls, key, o).value.windowStart && calls[|calls| - 1].now < to
    ensures Admitted(calls, key, o, from, to) >= BucketOf(calls, key, o).value.count
  {
    var n := |calls| - 1;
    BucketStarted(calls[..n], key, o);
    if BucketOf(calls[..n], key, o).Some? && from <= BucketOf(calls[..n], key, o).value.windowStart {
      BucketCounts(calls[..n], key, o, from, to);
    }
    BucketStarted(calls, key, o);
  }

  lemma AdmittedGrows(calls: seq<Call>, key: Text, o: Options, from: int, to: int)
    requires calls != []
    ensures Admitted(calls[..|calls| - 1], key, o, from, to) <= Admitted(calls, key, o, from, to)
  {
  }

  /** A call is denied only if the key's full quota was admitted less than one window earlier. */
  lemma {:induction false} DeniedOnlyWhenFull(calls: seq<Call>, o: Options)
    requires Monotone(calls) && calls != [] && !LastAllowed(calls, o)
    ensures var last := calls[|calls| - 1];
            Admitted(calls, last.key, o, last.now - o.windowMs + 1, last.now + 1) >= Max(0, o.maxRequests)
  {
    var n := |calls| - 1;
    var last, front := calls[n], calls[..n];
    hide BucketOf, Admitted;
    BucketStarted(front, last.key, o);
    assert front[|front| - 1].now <= last.now;
    BucketCounts(front, last.key, o, last.now - o.windowMs + 1, last.now + 1);
    AdmittedGrows(calls, last.key, o, last.now - o.windowMs + 1, last.now + 1);
  }

  /** Nobody else's calls matter. */
  lemma {:induction false} KeysIndependent(calls: seq<Call>, key: Text, o: Options)
    ensures BucketOf(calls, key, o) == BucketOf(Only(calls, key), key, o)
  {
    if calls != [] {
      var n := |calls| - 1;
      KeysIndependent(calls[..n], key, o);
      var before := Only(calls[..n], key);
      if calls[n].key == key {
        assert (before + [calls[n]])[..|before|] == before;
      }
    }
  }

  function Only(calls: seq<Call>, key: Text): seq<Call> {
    if calls == [] then []
    else
      var n := |calls| - 1;
      if calls[n].key == key then Only(calls[..n], key) + [calls[n]] else Only(calls[..n], key)
  }

  // ---------------------------------------------------------------- the bound is reached

  /** The calls, and then n times the same call. */
  function Then(calls: seq<Call>, call: Call, n: nat): seq<Call> {
    if n == 0 then calls else Then(calls, call, n - 1) + [call]
  }

  lemma Appended(calls: seq<Call>, call: Call, o: Options, from: int, to: int)
    ensures var (bucket, allowed) := Asked(BucketOf(calls, call.key, o), call.now, o);
            && BucketOf(calls + [call], call.key, o) == Some(bucket)
            && Admitted(calls + [call], call.key, o, from, to) ==
               Admitted(calls, call.key, o, from, to) + if from <= call.now < to && allowed then 1 else 0
  {
    assert (calls + [call])[..|calls|] == calls;
  }

  /** Calls within the quota are all admitted. */
  lemma {:induction false} Fills(calls: seq<Call>, b: Bucket, call: Call, n: nat, o: Options, from: int, to: int)
    requires BucketOf(calls, call.key, o) == Some(b) && from <= call.now < to
    requires call.now - b.windowStart < o.windowMs && 1 <= b.count <= b.count + n <= Max(1, o.maxRequests)
    ensures BucketOf(Then(calls, call, n), call.key, o) == Some(Bucket(b.windowStart, b.count + n))
    ensures Admitted(Then(calls, call, n), call.key, o, from, to) == Admitted(calls, call.key, o, from, to) + n
  {
    hide BucketOf, Admitted;
    if n > 0 {
      Fills(calls, b, call, n - 1, o, from, to);
      var front := Then(calls, call, n - 1);
      assert Then(calls, call, n) == front + [call];
      hide Then;
      Appended(front, call, o, from, to);
    }
  }

  lemma {:induction false} ThenMonotone(calls: seq<Call>, call: Call, n: nat)
    requires Monotone(calls) && (calls != [] ==> calls[|calls| - 1].now <= call.now)
    ensures Monotone(Then(calls, call, n))
    ensures n > 0 ==> Then(calls, call, n) != [] && Then(calls, call, n)[|Then(calls, call, n)| - 1].now == call.now
    ensures n == 0 ==> Then(calls, call, n) == calls
  {
    if n > 0 {
      ThenMonotone(calls, call, n - 1);
    }
  }

  /** One call, the rest of its quota just before the window ends, and a full quota as the next one starts. */
  function Crowd(key: Text, o: Options): seq<Call> {
    var quota, end := Max(1, o.maxRequests), Call(key, o.windowMs);
    if o.windowMs <= 1 then Then([Call(key, 0)], Call(key, 0), quota - 1)
    else Then(Then([Call(key, 0)], Call(key, o.windowMs - 1), quota - 1) + [end], end, quota - 1)
  }

  lemma First(key: Text, o: Options, from: int, to: int)
    ensures BucketOf([Call(key, 0)], key, o) == Some(Bucket(0, 1))
    ensures Admitted([Call(key, 0)], key, o, from, to) == if from <= 0 < to then 1 else 0
  {
    var none: seq<Call> := [];
    assert none + [Call(key, 0)] == [Call(key, 0)];
    Appended(none, Call(key, 0), o, from, to);
  }

  lemma CrowdMonotone(key: Text, o: Options)
    ensures Monotone(Crowd(key, o))
  {
    var quota, end, first := Max(1, o.maxRequests), Call(key, o.windowMs), [Call(key, 0)];
    if o.windowMs <= 1 {
      ThenMonotone(first, Call(key, 0), quota - 1);
    } else {
      ThenMonotone(first, Call(key, o.windowMs - 1), quota - 1);
      ThenMonotone(Then(first, Call(key, o.windowMs - 1), quota - 1), end, 1);
      ThenMonotone(Then(first, Call(key, o.windowMs - 1), quota - 1) + [end], end, quota - 1);
    }
  }

  /** For all options some run reaches the bound. */
  lemma BoundReached(key: Text, o: Options)
    ensures Monotone(Crowd(key, o))
    ensures Admitted(Crowd(key, o), key, o, o.windowMs - 1, 2 * o.windowMs - 1) == Bound(o)
  {
    CrowdMonotone(key, o);
    var quota, end, first := Max(1, o.maxRequests), Call(key, o.windowMs), [Call(key, 0)];
    var from, to := o.windowMs - 1, 2 * o.windowMs - 1;
    First(key, o, from, to);
    hide BucketOf, Admitted, Then;
    if o.windowMs <= 0 {
      NoneInNoTime(Crowd(key, o), key, o, from, to);
    } else if o.windowMs == 1 {
      Fills(first, Bucket(0, 1), Call(key, 0), quota - 1, o, from, to);
    } else {
      var late := Then(first, Call(key, o.windowMs - 1), quota - 1);
      Fills(first, Bucket(0, 1), Call(key, o.windowMs - 1), quota - 1, o, from, to);
      Appended(late, end, o, from, to);
      Fills(late + [end], Bucket(o.windowMs, 1), end, quota - 1, o, from, to);
    }
  }
}
