/**
 The per-credential token bucket with its two-stage sweep, over real numbers and
 a clock that does not run backwards. A bucket counts as `Available` what it
 would hold after refilling; a key without a bucket counts as full.
 */
module RateLimit {
  import opened Collections

  type Key = string

  const SWEEP_AT: nat := 4096

  datatype Bucket = Bucket(tokens: real, last: real)
  type Buckets = map<Key, Bucket>

  /** The bucket depth, and the tokens that a span of time earns. */
  datatype Limits = Limits(burst: real, earned: real -> real)

  /** What the limiter's arithmetic needs: at least one token fits, and time earns tokens additively. */
  ghost predicate Sane(l: Limits) {
    && l.burst >= 1.0
    && (forall a, b {:trigger Adds(l, a, b)} :: Adds(l, a, b))
    && (forall a {:trigger Earns(l, a)} :: Earns(l, a))
  }

  predicate Adds(l: Limits, a: real, b: real) {
    l.earned(a + b) == l.earned(a) + l.earned(b)
  }

  predicate Earns(l: Limits, a: real) {
    a >= 0.0 ==> l.earned(a) >= 0.0
  }

  /** A zero burst is raised to one, and a rate that is not positive becomes one per second. */
  function LimitsFor(burst: nat, perSecond: real): Limits {
    var rate := RateFor(perSecond);
    Limits(if burst > 1 then burst as real else 1.0, (elapsed: real) => elapsed * rate)
  }

  function RateFor(perSecond: real): real {
    if perSecond > 0.0 then perSecond else 1.0
  }

  /** The configured limiter earns its rate per unit of time, and can always hold a token. */
  lemma LimitsAreSane(burst: nat, perSecond: real, elapsed: real)
    ensures var l := LimitsFor(burst, perSecond);
            && Sane(l)
            && l.burst == (if burst >= 1 then burst as real else 1.0)
            && l.earned(elapsed) == elapsed * if perSecond > 0.0 then perSecond else 1.0
  {
    var l, rate := LimitsFor(burst, perSecond), RateFor(perSecond);
    forall a ensures Earns(l, a) {
      if a >= 0.0 {
        assert a * rate >= 0.0;
      }
    }
  }

  // ----- one bucket -----

  function Elapsed(now: real, last: real): real {
    if now > last then now - last else 0.0
  }

  function MinReal(a: real, b: real): real {
    if a <= b then a else b
  }

  /** The tokens a bucket would hold at `now` if its depth did not bound it. */
  function Refilled(l: Limits, b: Bucket, now: real): real {
    b.tokens + l.earned(Elapsed(now, b.last))
  }

  /** What a key could spend at `now`. */
  function Available(l: Limits, m: Buckets, key: Key, now: real): real {
    if key in m then MinReal(Refilled(l, m[key], now), l.burst) else l.burst
  }

  // ----- the sweep -----

  /** Stage one drops the buckets that have refilled. */
  function DropRefilled(l: Limits, m: Buckets, now: real): Buckets {
    map k | k in m && Refilled(l, m[k], now) < l.burst :: m[k]
  }

  /** The order in which a hash map lists its keys is the library's own. */
  type Iteration = set<Key> -> seq<Key>

  ghost predicate ListsKeys(iteration: Iteration) {
    forall s {:trigger iteration(s)} :: Lists(iteration(s), s)
  }

  ghost predicate Lists(listed: seq<Key>, s: set<Key>) {
    && |listed| == |s|
    && (forall k :: k in listed <==> k in s)
    && NoDup(listed)
  }

  function AtMost(a: real, b: real): bool {
    a <= b
  }

  function Times(m: Buckets, listed: seq<Key>): (t: seq<real>)
    ensures |t| == |listed|
  {
    seq(|listed|, i requires 0 <= i < |listed| => if listed[i] in m then m[listed[i]].last else 0.0)
  }

  /** The time with `|m| / 2` times before it in ascending order. */
  function Cutoff(m: Buckets, listed: seq<Key>): real
    requires listed != []
  {
    Sort(Times(m, listed), AtMost)[|listed| / 2]
  }

  /** Stage two keeps only what was used after the cutoff. */
  function KeepAfter(m: Buckets, cutoff: real): Buckets {
    map k | k in m && m[k].last > cutoff :: m[k]
  }

  /** Whether a call at `now` evicts by age. */
  predicate Evicts(l: Limits, m: Buckets, now: real) {
    |m| >= SWEEP_AT && |DropRefilled(l, m, now)| >= SWEEP_AT
  }

  function Swept(l: Limits, iteration: Iteration, m: Buckets, now: real): Buckets {
    if |m| < SWEEP_AT then m
    else
      var kept := DropRefilled(l, m, now);
      var listed := iteration(kept.Keys);
      if |kept| < SWEEP_AT || listed == [] then kept else KeepAfter(kept, Cutoff(kept, listed))
  }

  // ----- one call -----

  /** The unswept limiter: take a token if a whole one is there. */
  function Spend(l: Limits, m: Buckets, key: Key, now: real): (Buckets, bool) {
    var tokens := Available(l, m, key, now);
    if tokens >= 1.0 then (m[key := Bucket(tokens - 1.0, now)], true) else (m[key := Bucket(tokens, now)], false)
  }

  function Check(l: Limits, iteration: Iteration, m: Buckets, key: Key, now: real): (Buckets, bool) {
    Spend(l, Swept(l, iteration, m, now), key, now)
  }

  class RateLimit {
    const limits: Limits
    const iteration: Iteration
    var buckets: Buckets

    constructor (burst: nat, perSecond: real, iteration: Iteration)
      ensures limits == LimitsFor(burst, perSecond) && Sane(limits)
      ensures this.iteration == iteration && buckets == map[]
    {
      limits, this.iteration, buckets := LimitsFor(burst, perSecond), iteration, map[];
      LimitsAreSane(burst, perSecond, 0.0);
    }

    method CheckAt(key: Key, now: real) returns (granted: bool)
      requires ListsKeys(iteration) && Sane(limits)
      modifies this
      ensures (buckets, granted) == Check(limits, iteration, old(buckets), key, now)
    {
      if |buckets| >= SWEEP_AT {
        Sweep(now);
      }
      granted := Take(key, now);
    }

    method Take(key: Key, now: real) returns (granted: bool)
      requires Sane(limits)
      modifies this
      ensures (buckets, granted) == Spend(limits, old(buckets), key, now)
    {
      NoTimeEarnsNothing(limits);
      var bucket := if key in buckets then buckets[key] else Bucket(limits.burst, now);
      var elapsed := Elapsed(now, bucket.last);
      bucket := bucket.(tokens := MinReal(bucket.tokens + limits.earned(elapsed), limits.burst));
      bucket := bucket.(last := now);
      if bucket.tokens >= 1.0 {
        bucket := bucket.(tokens := bucket.tokens - 1.0);
        granted := true;
      } else {
        granted := false;
      }
      buckets := buckets[key := bucket];
    }

    method Sweep(now: real)
      requires ListsKeys(iteration) && |buckets| >= SWEEP_AT
      modifies this
      ensures buckets == Swept(limits, iteration, old(buckets), now)
    {
      buckets := DropRefilled(limits, buckets, now);
      if |buckets| >= SWEEP_AT {
        var listed := iteration(buckets.Keys);
        assert Lists(listed, buckets.Keys);
        assert |buckets| == |buckets.Keys|;
        var times := Times(buckets, listed);
        var cut := |times| / 2;
        var cutoff := Sort(times, AtMost)[cut];
        buckets := KeepAfter(buckets, cutoff);
      }
    }
  }

  // ----- the map stays small -----

  lemma OrderIsTotal()
    ensures TotalPreorder(AtMost)
  {
  }

  /** The bucket at the cutoff is dropped, so an eviction always makes room. */
  lemma EvictionMakesRoom(m: Buckets, listed: seq<Key>)
    requires Lists(listed, m.Keys) && listed != []
    ensures |KeepAfter(m, Cutoff(m, listed))| < |m|
  {
    var times := Times(m, listed);
    var c := Cutoff(m, listed);
    OrderIsTotal();
    SortIsSortedPermutation(times, AtMost);
    assert c in multiset(Sort(times, AtMost));
    assert c in times;
    var i :| 0 <= i < |times| && times[i] == c;
    assert listed[i] in m && m[listed[i]].last == c;
    var kept := KeepAfter(m, c);
    assert kept.Keys <= m.Keys - {listed[i]};
    SubsetIsNoLarger(kept.Keys, m.Keys - {listed[i]});
    assert |kept| == |kept.Keys| && |m| == |m.Keys|;
  }

  /**
   Eviction is by age: what is dropped was last used no later than anything that stays,
   so a bucket used at least as late as a surviving one survives, unchanged.
   */
  lemma SweepKeepsTheLatest(l: Limits, iteration: Iteration, m: Buckets, now: real, survivor: Key, key: Key)
    requires survivor in Swept(l, iteration, m, now) && key in DropRefilled(l, m, now)
    requires m[key].last >= m[survivor].last
    ensures key in Swept(l, iteration, m, now) && Swept(l, iteration, m, now)[key] == m[key]
  {
  }

  /** The keys whose buckets are full again at `now`. */
  function FullAgain(l: Limits, m: Buckets, now: real): set<Key> {
    set k | k in m && m[k].tokens + l.earned(now - m[k].last) >= l.burst
  }

  lemma DroppedAreFull(l: Limits, m: Buckets, t: real, now: real)
    requires t <= now && Settled(l, m, t)
    ensures DropRefilled(l, m, now).Keys == m.Keys - FullAgain(l, m, now)
  {
    forall k | k in m ensures Refilled(l, m[k], now) == m[k].tokens + l.earned(now - m[k].last) {
      if now == m[k].last {
        assert now - m[k].last == 0.0;
      }
    }
  }

  lemma SweptAreKept(l: Limits, iteration: Iteration, m: Buckets, now: real, kept: Buckets)
    requires ListsKeys(iteration) && |m| >= 4096 && kept == DropRefilled(l, m, now)
    ensures Swept(l, iteration, m, now).Keys <= kept.Keys
    ensures |kept| < 4096 ==> Swept(l, iteration, m, now) == kept
  {
    assert Lists(iteration(kept.Keys), kept.Keys);
  }

  /**
   What a sweep keeps: at 4096 buckets or more, only those that have not refilled, and all
   of them if they are fewer than 4096; below, everything.
   */
  lemma SweepDropsTheRefilled(l: Limits, iteration: Iteration, m: Buckets, t: real, now: real)
    requires ListsKeys(iteration) && t <= now && Settled(l, m, t)
    ensures |m| < 4096 ==> Swept(l, iteration, m, now) == m
    ensures |m| >= 4096 ==> Swept(l, iteration, m, now).Keys <= m.Keys - FullAgain(l, m, now)
    ensures |m| >= 4096 && |m.Keys - FullAgain(l, m, now)| < 4096 ==>
              Swept(l, iteration, m, now).Keys == m.Keys - FullAgain(l, m, now)
  {
    if |m| >= 4096 {
      var kept := DropRefilled(l, m, now);
      DroppedAreFull(l, m, t, now);
      SweptAreKept(l, iteration, m, now, kept);
      assert |kept| == |kept.Keys|;
    }
  }

  predicate DistinctTimes(m: Buckets) {
    forall j, k :: j in m && k in m && j != k ==> m[j].last != m[k].last
  }

  /** The listed keys used after a time. */
  function Later(m: Buckets, listed: seq<Key>, c: real): set<Key> {
    set k | k in listed && k in m && m[k].last > c
  }

  lemma LaterSnoc(m: Buckets, front: seq<Key>, last: Key, c: real)
    requires last in m && last !in front
    ensures |Later(m, front + [last], c)| == |Later(m, front, c)| + if m[last].last > c then 1 else 0
  {
    assert Later(m, front + [last], c) == Later(m, front, c) + if m[last].last > c then {last} else {};
  }

  /** They are as many as the times after it. */
  lemma {:induction false} LaterKeys(m: Buckets, listed: seq<Key>, c: real)
    requires NoDup(listed) && forall k :: k in listed ==> k in m
    ensures |Later(m, listed, c)| == |Filter(Times(m, listed), (t: real) => t > c)|
  {
    if listed != [] {
      var n := |listed| - 1;
      var front, last := listed[..n], listed[n];
      LaterKeys(m, front, c);
      assert listed == front + [last];
      LaterSnoc(m, front, last, c);
      assert Times(m, listed) == Times(m, front) + [m[last].last];
      assert Times(m, listed)[..n] == Times(m, front);
    }
  }

  lemma TimesDistinct(m: Buckets, listed: seq<Key>)
    requires Lists(listed, m.Keys) && DistinctTimes(m)
    ensures NoDup(Times(m, listed))
  {
    forall i, j | 0 <= i < j < |listed| ensures Times(m, listed)[i] != Times(m, listed)[j] {
      assert listed[i] in m && listed[j] in m && listed[i] != listed[j];
    }
  }

  /** Of distinct times in order, those after the one at position `c` are the ones behind it. */
  lemma BehindTheCut(times: seq<real>, sorted: seq<real>, c: nat)
    requires NoDup(times) && multiset(times) == multiset(sorted) && SortedBy(sorted, AtMost) && c < |sorted|
    ensures |Filter(times, (t: real) => t > sorted[c])| == |times| - c - 1
  {
    var later := (t: real) => t > sorted[c];
    NoDupPermutes(times, sorted);
    forall i | 0 <= i < |sorted| ensures later(sorted[i]) <==> i >= c + 1 {
      if i < c { assert AtMost(sorted[i], sorted[c]); }
      if i > c { assert AtMost(sorted[c], sorted[i]); }
    }
    FilterIsSuffix(sorted, c + 1, later);
    FilterPermutes(times, sorted, later);
    assert |multiset(times)| == |times| && |multiset(sorted)| == |sorted|;
    assert |multiset(Filter(times, later))| == |multiset(Filter(sorted, later))|;
  }

  lemma NoDupPermutes(a: seq<real>, b: seq<real>)
    requires NoDup(a) && multiset(a) == multiset(b)
    ensures NoDup(b)
  {
    forall i, j | 0 <= i < j < |b| ensures b[i] != b[j] {
      if b[i] == b[j] {
        TwiceCounts(b, i, j);
        NoDupCounts(a, b[i]);
      }
    }
  }

  lemma NoDupCounts(a: seq<real>, x: real)
    requires NoDup(a)
    ensures multiset(a)[x] <= 1
  {
    if x in a {
      var i :| 0 <= i < |a| && a[i] == x;
      assert x !in a[..i] && x !in a[i + 1..];
      RemoveAtMultiset(a, i);
      assert x !in RemoveAt(a, i);
    }
  }

  /** Of `n` buckets with different times the eviction keeps the `n - n / 2 - 1` used last. */
  lemma EvictionKeepsTheNewerHalf(m: Buckets, listed: seq<Key>)
    requires Lists(listed, m.Keys) && listed != [] && DistinctTimes(m)
    ensures |KeepAfter(m, Cutoff(m, listed))| == |m| - |m| / 2 - 1
  {
    var times, c := Times(m, listed), Cutoff(m, listed);
    OrderIsTotal();
    SortIsSortedPermutation(times, AtMost);
    TimesDistinct(m, listed);
    LaterKeys(m, listed, c);
    BehindTheCut(times, Sort(times, AtMost), |listed| / 2);
    var kept := KeepAfter(m, c);
    assert kept.Keys == Later(m, listed, c);
    assert |kept| == |kept.Keys| && |m| == |m.Keys|;
  }

  /** No call takes the map above 4096 buckets. */
  lemma CheckStaysBounded(l: Limits, iteration: Iteration, m: Buckets, key: Key, now: real)
    requires ListsKeys(iteration) && |m| <= 4096
    ensures |Check(l, iteration, m, key, now).0| <= 4096
  {
    var swept := Swept(l, iteration, m, now);
    var kept := DropRefilled(l, m, now);
    assert kept.Keys <= m.Keys;
    SubsetIsNoLarger(kept.Keys, m.Keys);
    assert |kept| == |kept.Keys| && |m| == |m.Keys|;
    if Evicts(l, m, now) {
      assert Lists(iteration(kept.Keys), kept.Keys);
      EvictionMakesRoom(kept, iteration(kept.Keys));
    }
    assert |swept| < SWEEP_AT;
    var after := Check(l, iteration, m, key, now).0;
    assert after.Keys == swept.Keys + {key};
    assert |after| == |after.Keys| && |swept| == |swept.Keys|;
  }

  // ----- what is available -----

  /** Buckets hold between nothing and the depth, and were last used no later than `t`. */
  predicate Settled(l: Limits, m: Buckets, t: real) {
    forall k :: k in m ==> 0.0 <= m[k].tokens <= l.burst && m[k].last <= t
  }

  /** Two spans in a row earn what the whole span does. */
  lemma SpansAdd(l: Limits, a: real, b: real, c: real)
    requires Sane(l) && a <= b <= c
    ensures l.earned(c - a) == l.earned(b - a) + l.earned(c - b)
    ensures l.earned(b - a) >= 0.0 && l.earned(c - b) >= 0.0
  {
    assert Adds(l, b - a, c - b) && Earns(l, b - a) && Earns(l, c - b);
    assert (b - a) + (c - b) == c - a;
  }

  lemma NoTimeEarnsNothing(l: Limits)
    requires Sane(l)
    ensures l.earned(0.0) == 0.0
  {
    assert Adds(l, 0.0, 0.0);
  }

  /** What is available grows at the refill rate, up to the depth. */
  lemma AvailableLater(l: Limits, m: Buckets, key: Key, t: real, now: real)
    requires Sane(l) && Settled(l, m, t) && t <= now
    ensures Available(l, m, key, now) == MinReal(Available(l, m, key, t) + l.earned(now - t), l.burst)
    ensures 0.0 <= Available(l, m, key, now) <= l.burst
  {
    SpansAdd(l, t, now, now);
    NoTimeEarnsNothing(l);
    if key in m {
      SpansAdd(l, m[key].last, t, now);
    }
  }

  /** Dropping refilled buckets changes no key's availability. */
  lemma SweepKeepsAvailable(l: Limits, m: Buckets, now: real, key: Key)
    ensures Available(l, DropRefilled(l, m, now), key, now) == Available(l, m, key, now)
  {
  }

  /** The call's sweep leaves `key` as it was: no eviction by age, or one that keeps its bucket. */
  predicate Spared(l: Limits, iteration: Iteration, m: Buckets, key: Key, now: real) {
    Evicts(l, m, now) && key in DropRefilled(l, m, now) ==> key in Swept(l, iteration, m, now)
  }

  lemma SparedKeepsAvailable(l: Limits, iteration: Iteration, m: Buckets, key: Key, now: real)
    requires Spared(l, iteration, m, key, now)
    ensures Available(l, Swept(l, iteration, m, now), key, now) == Available(l, m, key, now)
  {
    SweepKeepsAvailable(l, m, now, key);
  }

  /** A spared key's call is granted exactly when a whole token is available, and costs one. */
  lemma CheckSpends(l: Limits, iteration: Iteration, m: Buckets, caller: Key, key: Key, t: real, now: real)
    requires Sane(l) && Settled(l, m, t) && t <= now && Spared(l, iteration, m, key, now)
    ensures var (after, granted) := Check(l, iteration, m, caller, now);
            && Settled(l, after, now)
            && (caller == key ==> (granted <==> Available(l, m, key, now) >= 1.0))
            && Available(l, after, key, now)
               == Available(l, m, key, now) - if caller == key && granted then 1.0 else 0.0
  {
    AvailableLater(l, m, key, t, now);
    NoTimeEarnsNothing(l);
    SparedKeepsAvailable(l, iteration, m, key, now);
    var swept := Swept(l, iteration, m, now);
    assert Settled(l, swept, t);
    AvailableLater(l, swept, caller, t, now);
  }

  // ----- every window -----

  datatype Call = Call(key: Key, now: real)

  predicate Ordered(calls: seq<Call>, from: real) {
    && (forall i :: 0 <= i < |calls| ==> from <= calls[i].now)
    && (forall i, j :: 0 <= i < j < |calls| ==> calls[i].now <= calls[j].now)
  }

  function RunState(l: Limits, iteration: Iteration, m: Buckets, calls: seq<Call>): Buckets
    decreases |calls|, m
  {
    if calls == [] then m
    else
      var n := |calls| - 1;
      Check(l, iteration, RunState(l, iteration, m, calls[..n]), calls[n].key, calls[n].now).0
  }

  /** The calls of `key` that were granted. */
  function Grants(l: Limits, iteration: Iteration, m: Buckets, calls: seq<Call>, key: Key): nat
    decreases |calls|, m
  {
    if calls == [] then 0
    else
      var n := |calls| - 1;
      var granted := Check(l, iteration, RunState(l, iteration, m, calls[..n]), calls[n].key, calls[n].now).1;
      Grants(l, iteration, m, calls[..n], key) + if calls[n].key == key && granted then 1 else 0
  }

  /** No call evicts the bucket of `key` by age. */
  predicate SparedThroughout(l: Limits, iteration: Iteration, m: Buckets, calls: seq<Call>, key: Key)
    decreases |calls|, m
  {
    calls == [] ||
    (var n := |calls| - 1;
     && SparedThroughout(l, iteration, m, calls[..n], key)
     && Spared(l, iteration, RunState(l, iteration, m, calls[..n]), key, calls[n].now))
  }

  function EndTime(calls: seq<Call>, from: real): real {
    if calls == [] then from else calls[|calls| - 1].now
  }

  /** The grants since `from` and what is left are covered by what there was and what was earned. */
  ghost predicate PaidFor(l: Limits, start: real, grants: nat, m: Buckets, key: Key, from: real, t: real) {
    && from <= t && Settled(l, m, t)
    && grants as real + Available(l, m, key, t) <= start + l.earned(t - from)
  }

  lemma CallIsPaidFor(l: Limits, iteration: Iteration, m: Buckets, call: Call, key: Key, from: real, t: real, grants: nat,
                      start: real)
    requires Sane(l) && t <= call.now && Spared(l, iteration, m, key, call.now)
    requires PaidFor(l, start, grants, m, key, from, t)
    ensures var (after, granted) := Check(l, iteration, m, call.key, call.now);
            PaidFor(l, start, grants + if call.key == key && granted then 1 else 0, after, key, from, call.now)
  {
    AvailableLater(l, m, key, t, call.now);
    CheckSpends(l, iteration, m, call.key, key, t, call.now);
    SpansAdd(l, from, t, call.now);
  }

  lemma NothingToPay(l: Limits, m: Buckets, key: Key, from: real)
    requires Sane(l) && Settled(l, m, from)
    ensures PaidFor(l, Available(l, m, key, from), 0, m, key, from, from)
  {
    NoTimeEarnsNothing(l);
  }

  lemma OrderedSnoc(calls: seq<Call>, from: real)
    requires Ordered(calls, from) && calls != []
    ensures EndTime(calls[..|calls| - 1], from) <= calls[|calls| - 1].now == EndTime(calls, from)
  {
  }

  /** The last call's part in the state and in the grants. */
  lemma RunSnoc(l: Limits, iteration: Iteration, m: Buckets, calls: seq<Call>, key: Key)
    requires calls != []
    ensures var (n, call) := (|calls| - 1, calls[|calls| - 1]);
            var (after, granted) := Check(l, iteration, RunState(l, iteration, m, calls[..n]), call.key, call.now);
            && RunState(l, iteration, m, calls) == after
            && Grants(l, iteration, m, calls, key)
               == Grants(l, iteration, m, calls[..n], key) + if call.key == key && granted then 1 else 0
  {
  }

  /** Grants and what is left never exceed what there was and what was refilled. */
  lemma {:induction false} GrantsArePaidFor(l: Limits, iteration: Iteration, m: Buckets, calls: seq<Call>, key: Key,
                                            from: real)
    requires Sane(l) && Settled(l, m, from) && Ordered(calls, from)
    requires SparedThroughout(l, iteration, m, calls, key)
    ensures PaidFor(l, Available(l, m, key, from), Grants(l, iteration, m, calls, key),
                    RunState(l, iteration, m, calls), key, from, EndTime(calls, from))
    decreases |calls|
  {
    if calls == [] {
      NothingToPay(l, m, key, from);
    } else {
      var n := |calls| - 1;
      GrantsArePaidFor(l, iteration, m, calls[..n], key, from);
      var before, granted := RunState(l, iteration, m, calls[..n]), Grants(l, iteration, m, calls[..n], key);
      OrderedSnoc(calls, from);
      CallIsPaidFor(l, iteration, before, calls[n], key, from, EndTime(calls[..n], from), granted,
                    Available(l, m, key, from));
      RunSnoc(l, iteration, m, calls, key);
    }
  }

  /** From a settled state. */
  lemma WindowBoundFrom(l: Limits, iteration: Iteration, m: Buckets, calls: seq<Call>, key: Key, t1: real, t2: real)
    requires Sane(l) && Settled(l, m, t1) && Ordered(calls, t1) && t1 <= t2
    requires forall i :: 0 <= i < |calls| ==> calls[i].now <= t2
    requires SparedThroughout(l, iteration, m, calls, key)
    ensures Grants(l, iteration, m, calls, key) as real <= l.burst + l.earned(t2 - t1)
  {
    AvailableLater(l, m, key, t1, t1);
    GrantsArePaidFor(l, iteration, m, calls, key, t1);
    PaidBound(l, Available(l, m, key, t1), Grants(l, iteration, m, calls, key), RunState(l, iteration, m, calls), key,
              t1, EndTime(calls, t1), t2);
  }

  lemma PaidBound(l: Limits, start: real, grants: nat, m: Buckets, key: Key, from: real, t: real, t2: real)
    requires Sane(l) && PaidFor(l, start, grants, m, key, from, t) && start <= l.burst && t <= t2
    ensures grants as real <= l.burst + l.earned(t2 - from)
  {
    AvailableLater(l, m, key, t, t);
    SpansAdd(l, from, t, t2);
  }

  lemma CheckSettles(l: Limits, iteration: Iteration, m: Buckets, caller: Key, t: real, now: real)
    requires Sane(l) && Settled(l, m, t) && t <= now
    ensures Settled(l, Check(l, iteration, m, caller, now).0, now)
  {
    var swept := Swept(l, iteration, m, now);
    assert Settled(l, swept, t);
    SpendSettles(l, swept, caller, caller, t, now);
  }

  /** Every state that a run reaches from an empty limiter is settled. */
  lemma {:induction false} RunSettles(l: Limits, iteration: Iteration, calls: seq<Call>, from: real)
    requires Sane(l) && Ordered(calls, from)
    ensures from <= EndTime(calls, from)
    ensures Settled(l, RunState(l, iteration, map[], calls), EndTime(calls, from))
  {
    if calls != [] {
      var n := |calls| - 1;
      RunSettles(l, iteration, calls[..n], from);
      OrderedSnoc(calls, from);
      CheckSettles(l, iteration, RunState(l, iteration, map[], calls[..n]), calls[n].key, EndTime(calls[..n], from),
                   calls[n].now);
      RunSnoc(l, iteration, map[], calls, calls[n].key);
    }
  }

  /**
   After any run from an empty limiter, in any window [t1, t2], a key is granted
   at most `burst + per_second * (t2 - t1)` requests, as long as no call in the
   window evicts its bucket by age.
   */
  lemma WindowBound(l: Limits, iteration: Iteration, earlier: seq<Call>, calls: seq<Call>, key: Key, from: real,
                    t1: real, t2: real)
    requires Sane(l) && Ordered(earlier, from) && EndTime(earlier, from) <= t1
    requires Ordered(calls, t1) && t1 <= t2 && forall i :: 0 <= i < |calls| ==> calls[i].now <= t2
    requires SparedThroughout(l, iteration, RunState(l, iteration, map[], earlier), calls, key)
    ensures Grants(l, iteration, RunState(l, iteration, map[], earlier), calls, key) as real
            <= l.burst + l.earned(t2 - t1)
  {
    RunSettles(l, iteration, earlier, from);
    WindowBoundFrom(l, iteration, RunState(l, iteration, map[], earlier), calls, key, t1, t2);
  }

  /** From an empty limiter, any run keeps the map within 4096 buckets. */
  lemma {:induction false} RunStaysBounded(l: Limits, iteration: Iteration, calls: seq<Call>)
    requires ListsKeys(iteration)
    ensures |RunState(l, iteration, map[], calls)| <= 4096
  {
    if calls != [] {
      var n := |calls| - 1;
      RunStaysBounded(l, iteration, calls[..n]);
      CheckStaysBounded(l, iteration, RunState(l, iteration, map[], calls[..n]), calls[n].key, calls[n].now);
    }
  }

  // ----- against the unswept limiter -----

  function PlainState(l: Limits, calls: seq<Call>): Buckets {
    if calls == [] then map[]
    else Spend(l, PlainState(l, calls[..|calls| - 1]), calls[|calls| - 1].key, calls[|calls| - 1].now).0
  }

  /** The decision on the last call. */
  predicate Granted(l: Limits, iteration: Iteration, calls: seq<Call>)
    requires calls != []
  {
    var n := |calls| - 1;
    Check(l, iteration, RunState(l, iteration, map[], calls[..n]), calls[n].key, calls[n].now).1
  }

  predicate PlainGranted(l: Limits, calls: seq<Call>)
    requires calls != []
  {
    var n := |calls| - 1;
    Spend(l, PlainState(l, calls[..n]), calls[n].key, calls[n].now).1
  }

  // ----- what is granted -----

  /** What is left at `now` after `n` calls, told by their times and by how many of them had been granted. */
  function Left(l: Limits, times: seq<real>, grants: seq<int>, n: nat, now: real): real
    requires n <= |times| < |grants|
  {
    if n == 0 then l.burst
    else
      var t := times[n - 1];
      MinReal(Left(l, times, grants, n - 1, t) - (grants[n] - grants[n - 1]) as real + l.earned(now - t), l.burst)
  }

  /** The time of call `k`, or `now` behind the last of `n` calls. */
  function TimeOf(times: seq<real>, n: nat, k: nat, now: real): real
    requires n <= |times|
  {
    if k < n then times[k] else now
  }

  /** A full bucket at call `k` and what was earned since, less the grants since. */
  function SinceCall(l: Limits, times: seq<real>, grants: seq<int>, n: nat, k: nat, now: real): real
    requires k <= n <= |times| < |grants|
  {
    l.burst + l.earned(now - TimeOf(times, n, k, now)) - (grants[n] - grants[k]) as real
  }

  predicate Ascend(times: seq<real>) {
    forall i, j :: 0 <= i < j < |times| ==> times[i] <= times[j]
  }

  lemma SinceCallStep(l: Limits, times: seq<real>, grants: seq<int>, n: nat, k: nat, now: real)
    requires Sane(l) && Ascend(times) && k < n <= |times| < |grants| && times[n - 1] <= now
    ensures SinceCall(l, times, grants, n, k, now)
            == SinceCall(l, times, grants, n - 1, k, times[n - 1]) - (grants[n] - grants[n - 1]) as real
               + l.earned(now - times[n - 1])
  {
    SpansAdd(l, times[k], times[n - 1], now);
  }

  /** From every call on, no more is left than a full bucket there would have come to. */
  lemma {:induction false} LeftAtMost(l: Limits, times: seq<real>, grants: seq<int>, n: nat, k: nat, now: real)
    requires Sane(l) && Ascend(times) && k <= n <= |times| < |grants| && (n > 0 ==> times[n - 1] <= now)
    ensures Left(l, times, grants, n, now) <= SinceCall(l, times, grants, n, k, now)
    decreases n
  {
    if k == n {
      NoTimeEarnsNothing(l);
    } else {
      LeftAtMost(l, times, grants, n - 1, k, times[n - 1]);
      SinceCallStep(l, times, grants, n, k, now);
    }
  }

  /** From the last call that found it full on, exactly that is left. */
  lemma {:induction false} LeftSinceFull(l: Limits, times: seq<real>, grants: seq<int>, n: nat, now: real) returns (k: nat)
    requires Sane(l) && Ascend(times) && n <= |times| < |grants| && (n > 0 ==> times[n - 1] <= now)
    ensures k <= n && Left(l, times, grants, n, now) == SinceCall(l, times, grants, n, k, now)
    decreases n
  {
    if Left(l, times, grants, n, now) == l.burst {
      k := n;
      NoTimeEarnsNothing(l);
    } else {
      k := LeftSinceFull(l, times, grants, n - 1, times[n - 1]);
      SinceCallStep(l, times, grants, n, k, now);
    }
  }

  /** `times[i]` is that of call `i`, and `grants[i]` is how many of the calls before it were grants to `key`. */
  ghost predicate Records(l: Limits, iteration: Iteration, calls: seq<Call>, key: Key, times: seq<real>, grants: seq<int>)
    decreases |calls|
  {
    var n := |calls|;
    && n <= |times| < |grants| && grants[n] == Grants(l, iteration, map[], calls, key)
    && (n > 0 ==> times[n - 1] == calls[n - 1].now && Records(l, iteration, calls[..n - 1], key, times, grants))
  }

  /** The key's bucket holds `left` at `now`, and no bucket was used after `t`. */
  ghost predicate Holds(l: Limits, m: Buckets, key: Key, t: real, now: real, left: real) {
    && t <= now && Settled(l, m, t)
    && Available(l, m, key, now) == left
  }

  /** What a key can spend some time after a call, in terms of what it could spend at the call. */
  lemma CallLeaves(l: Limits, iteration: Iteration, m: Buckets, call: Call, key: Key, t: real, now: real, left: real,
                   grant: int)
    requires Sane(l) && call.now <= now && Spared(l, iteration, m, key, call.now) && Holds(l, m, key, t, call.now, left)
    requires grant == if call.key == key && Check(l, iteration, m, call.key, call.now).1 then 1 else 0
    ensures Holds(l, Check(l, iteration, m, call.key, call.now).0, key, call.now, now,
                  MinReal(left - grant as real + l.earned(now - call.now), l.burst))
  {
    CheckSpends(l, iteration, m, call.key, key, t, call.now);
    AvailableLater(l, Check(l, iteration, m, call.key, call.now).0, key, call.now, now);
  }

  /** A run is an earlier one and a call, a grant to the key of nothing or one. */
  ghost predicate Follows(l: Limits, iteration: Iteration, earlier: seq<Call>, call: Call, key: Key, before: Buckets,
                          after: Buckets, grant: int) {
    && before == RunState(l, iteration, map[], earlier)
    && after == Check(l, iteration, before, call.key, call.now).0
    && grant == (if call.key == key && Check(l, iteration, before, call.key, call.now).1 then 1 else 0)
  }

  lemma LastFollows(l: Limits, iteration: Iteration, calls: seq<Call>, earlier: seq<Call>, call: Call, key: Key)
    returns (before: Buckets, after: Buckets, grant: int)
    requires calls == earlier + [call]
    ensures Follows(l, iteration, earlier, call, key, before, after, grant)
    ensures after == RunState(l, iteration, map[], calls)
    ensures Grants(l, iteration, map[], calls, key) == Grants(l, iteration, map[], earlier, key) + grant
  {
    assert calls[..|earlier|] == earlier;
    before := RunState(l, iteration, map[], earlier);
    after := Check(l, iteration, before, call.key, call.now).0;
    grant := if call.key == key && Check(l, iteration, before, call.key, call.now).1 then 1 else 0;
    RunSnoc(l, iteration, map[], calls, key);
  }

  lemma LastIsSpared(l: Limits, iteration: Iteration, calls: seq<Call>, earlier: seq<Call>, call: Call, key: Key)
    requires calls == earlier + [call] && SparedThroughout(l, iteration, map[], calls, key)
    ensures SparedThroughout(l, iteration, map[], earlier, key)
    ensures Spared(l, iteration, RunState(l, iteration, map[], earlier), key, call.now)
  {
    assert calls[..|earlier|] == earlier;
  }

  lemma LastIsLatest(calls: seq<Call>, earlier: seq<Call>, call: Call, from: real)
    requires calls == earlier + [call] && Ordered(calls, from)
    ensures Ordered(earlier, from) && EndTime(earlier, from) <= call.now == EndTime(calls, from)
  {
    assert calls[..|earlier|] == earlier;
    assert forall i :: 0 <= i < |earlier| ==> earlier[i] == calls[i];
    assert earlier != [] ==> earlier[|earlier| - 1] == calls[|earlier| - 1];
    assert calls[|earlier|] == call;
  }

  lemma FollowingLeaves(l: Limits, iteration: Iteration, earlier: seq<Call>, call: Call, key: Key, before: Buckets,
                        after: Buckets, t: real, now: real, left: real, grant: int)
    requires Follows(l, iteration, earlier, call, key, before, after, grant)
    requires Sane(l) && call.now <= now && Spared(l, iteration, before, key, call.now)
    requires Holds(l, before, key, t, call.now, left)
    ensures Holds(l, after, key, call.now, now, MinReal(left - grant as real + l.earned(now - call.now), l.burst))
  {
    CallLeaves(l, iteration, before, call, key, t, now, left, grant);
  }

  lemma LeftAfterCall(l: Limits, iteration: Iteration, earlier: seq<Call>, call: Call, key: Key, before: Buckets,
                      after: Buckets, t: real, now: real, times: seq<real>, grants: seq<int>, grant: int)
    requires Follows(l, iteration, earlier, call, key, before, after, grant)
    requires Sane(l) && call.now <= now && Spared(l, iteration, before, key, call.now)
    requires |earlier| < |times| < |grants| && times[|earlier|] == call.now
    requires grants[|earlier| + 1] - grants[|earlier|] == grant
    requires Holds(l, before, key, t, call.now, Left(l, times, grants, |earlier|, call.now))
    ensures Holds(l, after, key, call.now, now, Left(l, times, grants, |earlier| + 1, now))
  {
    FollowingLeaves(l, iteration, earlier, call, key, before, after, t, now,
                    Left(l, times, grants, |earlier|, call.now), grant);
  }

  lemma RecordsStep(l: Limits, iteration: Iteration, calls: seq<Call>, earlier: seq<Call>, call: Call, key: Key,
                    times: seq<real>, grants: seq<int>)
    requires Records(l, iteration, calls, key, times, grants) && calls == earlier + [call]
    ensures Records(l, iteration, earlier, key, times, grants)
    ensures times[|earlier|] == call.now && |calls| == |earlier| + 1
    ensures grants[|earlier| + 1] - grants[|earlier|]
            == Grants(l, iteration, map[], calls, key) - Grants(l, iteration, map[], earlier, key)
  {
    assert calls[..|earlier|] == earlier;
  }

  /** What the last call was, and that the run before it meets what the run does. */
  lemma LastOfRun(l: Limits, iteration: Iteration, calls: seq<Call>, key: Key, from: real, times: seq<real>,
                  grants: seq<int>)
    returns (earlier: seq<Call>, call: Call, before: Buckets, after: Buckets, grant: int)
    requires Ordered(calls, from) && SparedThroughout(l, iteration, map[], calls, key) && calls != []
    requires Records(l, iteration, calls, key, times, grants)
    ensures calls == earlier + [call] && call.now == EndTime(calls, from) && |earlier| + 1 == |calls|
    ensures Ordered(earlier, from) && EndTime(earlier, from) <= call.now
    ensures SparedThroughout(l, iteration, map[], earlier, key) && Spared(l, iteration, before, key, call.now)
    ensures Records(l, iteration, earlier, key, times, grants) && times[|earlier|] == call.now
    ensures grants[|earlier| + 1] - grants[|earlier|] == grant
    ensures Follows(l, iteration, earlier, call, key, before, after, grant)
    ensures after == RunState(l, iteration, map[], calls) && before == RunState(l, iteration, map[], earlier)
  {
    earlier, call := calls[..|calls| - 1], calls[|calls| - 1];
    LastIsLatest(calls, earlier, call, from);
    LastIsSpared(l, iteration, calls, earlier, call, key);
    RecordsStep(l, iteration, calls, earlier, call, key, times, grants);
    before, after, grant := LastFollows(l, iteration, calls, earlier, call, key);
  }

  /** What is left is what the key's bucket holds. */
  lemma {:induction false} LeftIsHeld(l: Limits, iteration: Iteration, calls: seq<Call>, key: Key, from: real, now: real,
                                      times: seq<real>, grants: seq<int>, m: Buckets)
    requires Sane(l) && Ordered(calls, from) && EndTime(calls, from) <= now
    requires SparedThroughout(l, iteration, map[], calls, key) && Records(l, iteration, calls, key, times, grants)
    requires m == RunState(l, iteration, map[], calls)
    ensures Holds(l, m, key, EndTime(calls, from), now, Left(l, times, grants, |calls|, now))
    decreases |calls|
  {
    if calls == [] {
      NothingSpent(l, times, grants, key, from, now);
    } else {
      var earlier, call, before, after, grant := LastOfRun(l, iteration, calls, key, from, times, grants);
      LeftIsHeld(l, iteration, earlier, key, from, call.now, times, grants, before);
      LeftAfterCall(l, iteration, earlier, call, key, before, after, EndTime(earlier, from), now, times, grants, grant);
    }
  }

  lemma NothingSpent(l: Limits, times: seq<real>, grants: seq<int>, key: Key, from: real, now: real)
    requires |times| < |grants| && from <= now
    ensures Holds(l, map[], key, from, now, Left(l, times, grants, 0, now))
  {
  }

  lemma {:induction false} RecordedTime(l: Limits, iteration: Iteration, calls: seq<Call>, key: Key,
                                         times: seq<real>, grants: seq<int>, k: nat)
    requires Records(l, iteration, calls, key, times, grants) && k < |calls|
    ensures times[k] == calls[k].now
    decreases |calls|
  {
    if k < |calls| - 1 {
      RecordedTime(l, iteration, calls[..|calls| - 1], key, times, grants, k);
    }
  }

  /** The recorded times ascend to the last call's. */
  lemma RecordsTimes(l: Limits, iteration: Iteration, calls: seq<Call>, key: Key, from: real, times: seq<real>,
                     grants: seq<int>)
    requires Records(l, iteration, calls, key, times, grants) && Ordered(calls, from) && |times| == |calls|
    ensures Ascend(times) && (calls != [] ==> times[|calls| - 1] == EndTime(calls, from))
  {
    forall k: nat | k < |calls| ensures times[k] == calls[k].now {
      RecordedTime(l, iteration, calls, key, times, grants, k);
    }
  }

  /** The decision on one more call is whether a whole token is there. */
  lemma NextIsGrantedIff(l: Limits, iteration: Iteration, calls: seq<Call>, key: Key, from: real, now: real)
    requires Sane(l) && Ordered(calls, from) && EndTime(calls, from) <= now
    requires SparedThroughout(l, iteration, map[], calls + [Call(key, now)], key)
    ensures SparedThroughout(l, iteration, map[], calls, key)
    ensures Granted(l, iteration, calls + [Call(key, now)])
            <==> Available(l, RunState(l, iteration, map[], calls), key, now) >= 1.0
  {
    assert (calls + [Call(key, now)])[..|calls|] == calls;
    RunSettles(l, iteration, calls, from);
    CheckSpends(l, iteration, RunState(l, iteration, map[], calls), key, key, EndTime(calls, from), now);
  }

  /**
   A call is granted exactly when, counted from every earlier call on, the grants and
   one more stay within the burst and what was earned since: a caller within its rate is
   never refused, and one beyond it always is, while its bucket is not evicted by age.
   */
  lemma GrantedIff(l: Limits, iteration: Iteration, calls: seq<Call>, key: Key, from: real, now: real, times: seq<real>,
                   grants: seq<int>)
    requires Sane(l) && Ordered(calls, from) && EndTime(calls, from) <= now
    requires SparedThroughout(l, iteration, map[], calls + [Call(key, now)], key)
    requires Records(l, iteration, calls, key, times, grants) && |times| == |calls|
    ensures Granted(l, iteration, calls + [Call(key, now)])
            <==> forall k: nat :: k < |calls| ==>
                   (grants[|calls|] - grants[k]) as real + 1.0 <= l.burst + l.earned(now - times[k])
  {
    var n := |calls|;
    NextIsGrantedIff(l, iteration, calls, key, from, now);
    LeftIsHeld(l, iteration, calls, key, from, now, times, grants, RunState(l, iteration, map[], calls));
    RecordsTimes(l, iteration, calls, key, from, times, grants);
    WholeTokenIff(l, times, grants, n, now);
  }

  lemma WholeTokenIff(l: Limits, times: seq<real>, grants: seq<int>, n: nat, now: real)
    requires Sane(l) && Ascend(times) && n <= |times| < |grants| && (n > 0 ==> times[n - 1] <= now)
    ensures Left(l, times, grants, n, now) >= 1.0
            <==> forall k: nat :: k < n ==> (grants[n] - grants[k]) as real + 1.0 <= l.burst + l.earned(now - times[k])
  {
    if Left(l, times, grants, n, now) >= 1.0 {
      forall k: nat | k < n ensures (grants[n] - grants[k]) as real + 1.0 <= l.burst + l.earned(now - times[k]) {
        LeftAtMost(l, times, grants, n, k, now);
      }
    } else {
      var k := LeftSinceFull(l, times, grants, n, now);
      NoTimeEarnsNothing(l);
      assert k < n;
      assert !((grants[n] - grants[k]) as real + 1.0 <= l.burst + l.earned(now - times[k]));
    }
  }

  lemma SpendSettles(l: Limits, m: Buckets, caller: Key, key: Key, t: real, now: real)
    requires Sane(l) && Settled(l, m, t) && t <= now
    ensures var (after, granted) := Spend(l, m, caller, now);
            && Settled(l, after, now)
            && Available(l, after, key, now)
               == Available(l, m, key, now) - if caller == key && granted then 1.0 else 0.0
  {
    NoTimeEarnsNothing(l);
    AvailableLater(l, m, caller, t, now);
    AvailableLater(l, m, key, t, now);
  }

  /** The two limiters agree on what a spared key has. */
  lemma {:induction false} AgreesWithPlain(l: Limits, iteration: Iteration, calls: seq<Call>, key: Key, from: real)
    requires Sane(l) && Ordered(calls, from) && SparedThroughout(l, iteration, map[], calls, key)
    ensures var end := EndTime(calls, from);
            && Settled(l, RunState(l, iteration, map[], calls), end) && Settled(l, PlainState(l, calls), end)
            && Available(l, RunState(l, iteration, map[], calls), key, end)
               == Available(l, PlainState(l, calls), key, end)
  {
    if calls != [] {
      var n := |calls| - 1;
      var a, b := RunState(l, iteration, map[], calls[..n]), PlainState(l, calls[..n]);
      var t, now := EndTime(calls[..n], from), calls[n].now;
      AgreesWithPlain(l, iteration, calls[..n], key, from);
      AvailableLater(l, a, key, t, now);
      AvailableLater(l, b, key, t, now);
      CheckSpends(l, iteration, a, calls[n].key, key, t, now);
      SpendSettles(l, b, calls[n].key, key, t, now);
    }
  }

  /**
   Sweeping out refilled buckets never changes a decision: as long as a key's
   bucket is not evicted by age, every call on it is decided as by a limiter
   that never sweeps at all.
   */
  lemma SweepNeverChangesDecision(l: Limits, iteration: Iteration, calls: seq<Call>, from: real)
    requires Sane(l) && Ordered(calls, from) && calls != []
    requires SparedThroughout(l, iteration, map[], calls, calls[|calls| - 1].key)
    ensures Granted(l, iteration, calls) == PlainGranted(l, calls)
  {
    var n := |calls| - 1;
    var key, now, t := calls[n].key, calls[n].now, EndTime(calls[..n], from);
    AgreesWithPlain(l, iteration, calls[..n], key, from);
    AvailableLater(l, RunState(l, iteration, map[], calls[..n]), key, t, now);
    AvailableLater(l, PlainState(l, calls[..n]), key, t, now);
    CheckSpends(l, iteration, RunState(l, iteration, map[], calls[..n]), key, key, t, now);
  }
}
