/** The two request limiters. Trimming old entries cannot be told apart from keeping every entry for ever. */
module RateLimit {
  import opened Common

  const SECOND: int := 1_000_000_000
  const CAPACITY: nat := 4096

  datatype Entry = Entry(windowStart: int, count: nat, lastSeen: int)
  type Table<!K> = map<K, Entry>

  /** One call of Allow: the clock reading and what the caller passes (or the limiter was built with). */
  datatype Call<K> = Call(key: K, now: int, limit: int, window: int)
  datatype Answer = Answer(allowed: bool, retry: int)

  /** The dynamic limiter does not look at calls without a limit. A capacity of None stands for no trimming at all. */
  datatype Limiter = Limiter(dynamic: bool, capacity: Option<nat>)

  function Counted<K>(entries: Table<K>, c: Call<K>): Entry {
    if c.key !in entries || c.now - entries[c.key].windowStart >= c.window then Entry(c.now, 1, c.now)
    else Entry(entries[c.key].windowStart, entries[c.key].count + 1, c.now)
  }

  function Trimmed<K>(entries: Table<K>, now: int, window: int): Table<K> {
    map k | k in entries && !(entries[k].lastSeen < now - 2 * window) :: entries[k]
  }

  function Verdict(e: Entry, now: int, limit: int, window: int): Answer {
    if e.count <= limit then Answer(true, 0)
    else
      var retry := window - (now - e.windowStart);
      Answer(false, if retry < SECOND then SECOND else retry)
  }

  function AnswerTo<K>(l: Limiter, entries: Table<K>, c: Call<K>): Answer {
    if l.dynamic && c.limit <= 0 then Answer(true, 0) else Verdict(Counted(entries, c), c.now, c.limit, c.window)
  }

  function Next<K>(l: Limiter, entries: Table<K>, c: Call<K>): Table<K> {
    if l.dynamic && c.limit <= 0 then entries
    else
      var recorded := entries[c.key := Counted(entries, c)];
      if l.capacity.Some? && |recorded| > l.capacity.value then Trimmed(recorded, c.now, c.window) else recorded
  }

  /** The deletion loop of both limiters, in whatever order the map is walked. */
  method Prune<K(==)>(entries: Table<K>, now: int, window: int) returns (kept: Table<K>)
    ensures kept == Trimmed(entries, now, window)
  {
    kept := entries;
    var cutoff := now - 2 * window;
    var rest := entries.Keys;
    while rest != {}
      invariant rest <= entries.Keys
      invariant forall k :: k in kept <==> k in entries && (k in rest || !(entries[k].lastSeen < cutoff))
      invariant forall k :: k in kept ==> kept[k] == entries[k]
      decreases |rest|
    {
      var k :| k in rest;
      if entries[k].lastSeen < cutoff { kept := kept - {k}; }
      rest := rest - {k};
    }
  }

  class FixedWindowLimiter<K(==)> {
    var entries: Table<K>
    const limit: int
    const window: int

    constructor (limit: int, window: int)
      ensures entries == map[] && this.limit == limit && this.window == window
    {
      entries, this.limit, this.window := map[], limit, window;
    }

    method Allow(now: int, key: K) returns (allowed: bool, retry: int)
      modifies this`entries
      ensures entries == Next(Limiter(false, Some(CAPACITY)), old(entries), Call(key, now, limit, window))
      ensures Answer(allowed, retry) == AnswerTo(Limiter(false, Some(CAPACITY)), old(entries), Call(key, now, limit, window))
    {
      var entry := if key in entries then entries[key] else Entry(now, 0, now);
      if key !in entries || now - entry.windowStart >= window {
        entry := entry.(windowStart := now, count := 0);
      }
      entry := entry.(count := entry.count + 1, lastSeen := now);
      entries := entries[key := entry];
      if |entries| > CAPACITY {
        entries := Prune(entries, now, window);
      }
      if entry.count <= limit { return true, 0; }
      retry := window - (now - entry.windowStart);
      if retry < SECOND { retry := SECOND; }
      allowed := false;
    }
  }

  class DynamicLimiter<K(==)> {
    var entries: Table<K>

    constructor ()
      ensures entries == map[]
    {
      entries := map[];
    }

    method Allow(now: int, key: K, limit: int, window: int) returns (allowed: bool, retry: int)
      modifies this
      ensures entries == Next(Limiter(true, Some(CAPACITY)), old(entries), Call(key, now, limit, window))
      ensures Answer(allowed, retry) == AnswerTo(Limiter(true, Some(CAPACITY)), old(entries), Call(key, now, limit, window))
    {
      if limit <= 0 { return true, 0; }
      var entry := if key in entries then entries[key] else Entry(now, 0, now);
      if key !in entries || now - entry.windowStart >= window {
        entry := entry.(windowStart := now, count := 0);
      }
      entry := entry.(count := entry.count + 1, lastSeen := now);
      entries := entries[key := entry];
      if |entries| > CAPACITY {
        entries := Prune(entries, now, window);
      }
      if entry.count <= limit { return true, 0; }
      retry := window - (now - entry.windowStart);
      if retry < SECOND { retry := SECOND; }
      allowed := false;
    }
  }

  // ---------------------------------------------------------------------------------------------
  // Runs

  function After<K>(l: Limiter, calls: seq<Call<K>>): Table<K> {
    if calls == [] then map[] else Next(l, After(l, calls[..|calls| - 1]), calls[|calls| - 1])
  }

  function AnswerAt<K(==)>(l: Limiter, calls: seq<Call<K>>, i: nat): Answer
    requires i < |calls|
  {
    AnswerTo(l, After(l, calls[..i]), calls[i])
  }

  ghost predicate Ordered<K(!new)>(calls: seq<Call<K>>) {
    forall i, j :: 0 <= i < j < |calls| ==> calls[i].now <= calls[j].now
  }

  ghost predicate WindowsWithin<K(!new)>(calls: seq<Call<K>>, lo: int, hi: int) {
    forall i :: 0 <= i < |calls| ==> lo <= calls[i].window <= hi
  }

  /** The larger window is at most twice the smaller and one clock unit, or no window is positive. */
  predicate Close(lo: int, hi: int) { hi <= 2 * lo + 1 || hi <= 0 }

  /** What trimming has removed is so old that the next call of the key opens a new window anyway. */
  ghost predicate Same<K(!new)>(entries: Table<K>, ideal: Table<K>, clock: int, hi: int) {
    && (forall k :: k in entries ==> k in ideal && entries[k] == ideal[k])
    && (forall k :: k in ideal ==> ideal[k].windowStart <= ideal[k].lastSeen <= clock)
    && (forall k :: k in ideal && k !in entries ==> clock - ideal[k].windowStart >= hi)
  }

  lemma StepKeepsSame<K(!new)>(l: Limiter, entries: Table<K>, ideal: Table<K>, clock: int, c: Call<K>, lo: int, hi: int)
    requires Same(entries, ideal, clock, hi) && clock <= c.now && lo <= c.window <= hi && Close(lo, hi)
    ensures AnswerTo(l, entries, c) == AnswerTo(l.(capacity := None), ideal, c)
    ensures Same(Next(l, entries, c), Next(l.(capacity := None), ideal, c), c.now, hi)
  {
    assert Counted(entries, c) == Counted(ideal, c);
  }

  lemma {:induction false} RunKeepsSame<K(!new)>(l: Limiter, calls: seq<Call<K>>, lo: int, hi: int, clock: int)
    requires Ordered(calls) && WindowsWithin(calls, lo, hi) && Close(lo, hi)
    requires forall i :: 0 <= i < |calls| ==> calls[i].now <= clock
    ensures Same(After(l, calls), After(l.(capacity := None), calls), clock, hi)
  {
    hide Next;
    if calls == [] {
    } else {
      var n := |calls| - 1;
      RunKeepsSame(l, calls[..n], lo, hi, calls[n].now);
      StepKeepsSame(l, After(l, calls[..n]), After(l.(capacity := None), calls[..n]), calls[n].now, calls[n], lo, hi);
    }
  }

  /** While the windows are close, each answer is the one given without trimming. */
  lemma TrimmingIsInvisible<K(!new)>(l: Limiter, calls: seq<Call<K>>, lo: int, hi: int, i: nat)
    requires Ordered(calls) && WindowsWithin(calls, lo, hi) && Close(lo, hi) && i < |calls|
    ensures AnswerAt(l, calls, i) == AnswerAt(l.(capacity := None), calls, i)
  {
    hide Next, AnswerTo;
    RunKeepsSame(l, calls[..i], lo, hi, calls[i].now);
    StepKeepsSame(l, After(l, calls[..i]), After(l.(capacity := None), calls[..i]), calls[i].now, calls[i], lo, hi);
  }

  // ---------------------------------------------------------------------------------------------
  // Windows that are not close

  /** The first call of n different keys, all at time 0. */
  function Fillers(n: nat, window: int): seq<Call<nat>> {
    if n == 0 then [] else Fillers(n - 1, window) + [Call(n - 1, 0, 1, window)]
  }

  lemma {:induction false} FillersAre(n: nat, window: int)
    ensures |Fillers(n, window)| == n
    ensures forall i :: 0 <= i < n ==> Fillers(n, window)[i] == Call(i, 0, 1, window)
  {
    if n == 0 {
    } else {
      FillersAre(n - 1, window);
    }
  }

  /** The table holds the fillers and nothing else. */
  ghost predicate Filled(t: Table<nat>, n: nat) {
    |t| == n && (forall k :: k in t <==> 0 <= k < n) && forall k :: k in t ==> t[k] == Entry(0, 1, 0)
  }

  /** A table with room for the fillers holds them all. */
  lemma {:induction false} FillersFill(l: Limiter, n: nat, window: int)
    requires l.capacity.Some? ==> n <= l.capacity.value
    ensures Filled(After(l, Fillers(n, window)), n)
  {
    hide *;
    FillersUnfold(l, n, window);
    if n == 0 {
    } else {
      FillersFill(l, n - 1, window);
      AfterAppend(l, Fillers(n - 1, window), Call(n - 1, 0, 1, window));
      OneMoreFiller(l, After(l, Fillers(n - 1, window)), n - 1, window);
    }
  }

  lemma FillersUnfold(l: Limiter, n: nat, window: int)
    ensures n == 0 ==> Filled(After(l, Fillers(n, window)), n)
    ensures n > 0 ==> Fillers(n, window) == Fillers(n - 1, window) + [Call(n - 1, 0, 1, window)]
  {
    if n > 0 { hide After, Filled; }
  }

  lemma OneMoreFiller(l: Limiter, t: Table<nat>, n: nat, window: int)
    requires (l.capacity.Some? ==> n < l.capacity.value) && Filled(t, n)
    ensures Filled(Next(l, t, Call(n, 0, 1, window)), n + 1)
  {
    assert n !in t;
  }

  lemma AfterAppend(l: Limiter, calls: seq<Call<nat>>, c: Call<nat>)
    ensures After(l, calls + [c]) == Next(l, After(l, calls), c)
  {
    hide Next;
    assert (calls + [c])[..|calls|] == calls;
  }

  /** A full table, a fresh key with the small window when the fillers are just stale for it, and the first key again. */
  function Disagreement(lo: int, hi: int, capacity: nat): seq<Call<nat>> {
    var later := if lo >= 0 then 2 * lo + 1 else 0;
    Fillers(capacity, hi) + [Call(capacity, later, 1, lo)] + [Call(0, later, 1, hi)]
  }

  lemma DisagreementIsRun(lo: int, hi: int, capacity: nat)
    requires lo <= hi
    ensures var calls := Disagreement(lo, hi, capacity); |calls| == capacity + 2 && Ordered(calls) && WindowsWithin(calls, lo, hi)
  {
    FillersAre(capacity, hi);
    hide Fillers;
  }

  /** The trimming limiter has forgotten the first key and lets it through; without trimming it is refused. */
  lemma TrimmingIsVisible(dynamic: bool, lo: int, hi: int, capacity: nat)
    requires lo <= hi && !Close(lo, hi) && capacity >= 1
    ensures var calls := Disagreement(lo, hi, capacity);
            && |calls| == capacity + 2
            && AnswerAt(Limiter(dynamic, Some(capacity)), calls, capacity + 1).allowed
            && !AnswerAt(Limiter(dynamic, None), calls, capacity + 1).allowed
  {
    var trimming, ideal := Limiter(dynamic, Some(capacity)), Limiter(dynamic, None);
    var fillers, later := Fillers(capacity, hi), if lo >= 0 then 2 * lo + 1 else 0;
    var newcomer := Call(capacity, later, 1, lo);
    FillersAre(capacity, hi);
    FillersFill(trimming, capacity, hi);
    FillersFill(ideal, capacity, hi);
    AfterAppend(trimming, fillers, newcomer);
    AfterAppend(ideal, fillers, newcomer);
    hide After, Fillers;
    var calls := Disagreement(lo, hi, capacity);
    assert calls[..capacity + 1] == fillers + [newcomer];
    assert 0 !in After(trimming, fillers + [newcomer]);
    assert After(ideal, fillers + [newcomer])[0] == Entry(0, 1, 0);
  }

  /**
   * Trimming is invisible exactly for close windows: for every capacity, every answer of every ordered run with windows
   * between lo and hi is the one given without trimming if and only if lo and hi are close.
   */
  lemma TrimmingIsInvisibleExactly(dynamic: bool, lo: int, hi: int, capacity: nat)
    requires lo <= hi && capacity >= 1
    ensures Close(lo, hi) <==>
            forall calls: seq<Call<nat>>, i: nat :: Ordered(calls) && WindowsWithin(calls, lo, hi) && i < |calls| ==>
              AnswerAt(Limiter(dynamic, Some(capacity)), calls, i) == AnswerAt(Limiter(dynamic, None), calls, i)
  {
    hide AnswerAt, Ordered, WindowsWithin, Disagreement;
    var l := Limiter(dynamic, Some(capacity));
    if Close(lo, hi) {
      forall calls: seq<Call<nat>>, i: nat | Ordered(calls) && WindowsWithin(calls, lo, hi) && i < |calls|
        ensures AnswerAt(l, calls, i) == AnswerAt(Limiter(dynamic, None), calls, i)
      {
        TrimmingIsInvisible(l, calls, lo, hi, i);
      }
    } else {
      DisagreementIsRun(lo, hi, capacity);
      TrimmingIsVisible(dynamic, lo, hi, capacity);
    }
  }

  // ---------------------------------------------------------------------------------------------
  // How many calls get through

  ghost predicate Fixed<K(!new)>(calls: seq<Call<K>>, limit: int, window: int) {
    forall i :: 0 <= i < |calls| ==> calls[i].limit == limit && calls[i].window == window
  }

  /** The number of calls of the key let through with a clock reading in [from, to). */
  ghost function Admitted<K>(l: Limiter, calls: seq<Call<K>>, key: K, from: int, to: int): nat {
    if calls == [] then 0
    else
      var n := |calls| - 1;
      Admitted(l, calls[..n], key, from, to) +
      (if calls[n].key == key && from <= calls[n].now < to && AnswerTo(l, After(l, calls[..n]), calls[n]).allowed then 1 else 0)
  }

  /** The number of its calls then, admitted or not. */
  ghost function Called<K>(calls: seq<Call<K>>, key: K, from: int, to: int): nat {
    if calls == [] then 0
    else
      var n := |calls| - 1;
      Called(calls[..n], key, from, to) + (if calls[n].key == key && from <= calls[n].now < to then 1 else 0)
  }

  ghost predicate Past<K(!new)>(calls: seq<Call<K>>, to: int) { forall i :: 0 <= i < |calls| ==> calls[i].now < to }

  lemma {:induction false} AdmittedSplits<K>(l: Limiter, calls: seq<Call<K>>, key: K, a: int, b: int, c: int)
    requires a <= b <= c
    ensures Admitted(l, calls, key, a, c) == Admitted(l, calls, key, a, b) + Admitted(l, calls, key, b, c)
  {
    if calls != [] { AdmittedSplits(l, calls[..|calls| - 1], key, a, b, c); }
  }

  lemma {:induction false} AdmittedOnlyWhenCalled<K>(l: Limiter, calls: seq<Call<K>>, key: K, from: int, to: int)
    requires l.capacity == None && !l.dynamic && key !in After(l, calls)
    ensures Admitted(l, calls, key, from, to) == 0
  {
    if calls != [] { AdmittedOnlyWhenCalled(l, calls[..|calls| - 1], key, from, to); }
  }

  function Min(a: nat, b: nat): nat { if a < b then a else b }

  function Quota(limit: int): nat { if limit > 0 then limit else 0 }

  /** What every call keeps, for one key: bounds for the current window, the one before it, and any interval. */
  ghost predicate Bounded<K(!new)>(calls: seq<Call<K>>, key: K, limit: int, window: int, from: int, to: int) {
    var l := Limiter(false, None);
    var admitted := Admitted(l, calls, key, from, to);
    && (key !in After(l, calls) ==> admitted == 0)
    && (key in After(l, calls) ==>
          var e := After(l, calls)[key];
          && e.count >= 1
          && (e.windowStart <= from ==> admitted <= e.count && admitted <= Quota(limit))
          && (e.windowStart < from ==> admitted < e.count && admitted <= Quota(limit - 1))
          && (to <= e.windowStart && e.windowStart - window < from ==> admitted <= Quota(limit - 1))
          && (e.windowStart + window <= from ==> admitted == 0))
    && (to <= from + window ==> admitted <= Quota(2 * limit - 1))
  }

  lemma {:induction false} EveryRunBounded<K(!new)>(calls: seq<Call<K>>, key: K, limit: int, window: int, from: int, to: int)
    requires Ordered(calls) && Fixed(calls, limit, window) && window > 0 && from <= to
    ensures Bounded(calls, key, limit, window, from, to)
    decreases |calls|, 0
  {
    if calls == [] {
    } else {
      var n := |calls| - 1;
      EveryRunBounded(calls[..n], key, limit, window, from, to);
      if calls[n].key == key { CallKeepsBounded(calls, key, limit, window, from, to); }
    }
  }

  lemma {:induction false} CallKeepsBounded<K(!new)>(calls: seq<Call<K>>, key: K, limit: int, window: int, from: int, to: int)
    requires Ordered(calls) && Fixed(calls, limit, window) && window > 0 && from <= to
    requires calls != [] && calls[|calls| - 1].key == key
    requires Bounded(calls[..|calls| - 1], key, limit, window, from, to)
    ensures Bounded(calls, key, limit, window, from, to)
    decreases |calls| - 1, 1
  {
    var l := Limiter(false, None);
    var n := |calls| - 1;
    var before, c := calls[..n], calls[n];
    RunKeepsSame(l, before, window, window, c.now);
    var t := After(l, before);
    assert After(l, calls) == Next(l, t, c);
    assert After(l, calls)[key] == Counted(t, c);
    if key in t && from <= c.now < to && from < t[key].windowStart {
      var start := t[key].windowStart;
      AdmittedSplits(l, before, key, from, start, to);
      EveryRunBounded(before, key, limit, window, from, start);
      EveryRunBounded(before, key, limit, window, start, to);
    }
    hide After, Next, Same;
  }

  /** The count is the number of calls in the current window, and the first of them are the ones let through. */
  ghost predicate Exact<K(!new)>(calls: seq<Call<K>>, key: K, limit: int, window: int, from: int, to: int) {
    var l := Limiter(false, None);
    var called := Called(calls, key, from, to);
    && (key !in After(l, calls) ==> called == 0)
    && (key in After(l, calls) ==>
          var e := After(l, calls)[key];
          && (e.windowStart + window <= from ==> called == 0)
          && (e.windowStart == from && Past(calls, to) ==>
                e.count == called && Admitted(l, calls, key, from, to) == Min(called, Quota(limit))))
  }

  lemma {:induction false} EveryRunExact<K(!new)>(calls: seq<Call<K>>, key: K, limit: int, window: int, from: int, to: int)
    requires Ordered(calls) && Fixed(calls, limit, window) && window > 0 && from <= to
    ensures Exact(calls, key, limit, window, from, to)
  {
    if calls == [] {
    } else {
      var l := Limiter(false, None);
      var n := |calls| - 1;
      var before, c := calls[..n], calls[n];
      EveryRunExact(before, key, limit, window, from, to);
      EveryRunBounded(before, key, limit, window, from, to);
      RunKeepsSame(l, before, window, window, c.now);
      var t := After(l, before);
      assert After(l, calls) == Next(l, t, c);
      assert c.key == key ==> After(l, calls)[key] == Counted(t, c);
      hide After, Same;
    }
  }

  lemma {:induction false} AdmittedAlike<K(!new)>(l: Limiter, calls: seq<Call<K>>, key: K, limit: int, window: int, from: int, to: int)
    requires Ordered(calls) && Fixed(calls, limit, window) && window > 0
    ensures Admitted(l, calls, key, from, to) == Admitted(l.(capacity := None), calls, key, from, to)
  {
    if calls == [] {
    } else {
      var n := |calls| - 1;
      AdmittedAlike(l, calls[..n], key, limit, window, from, to);
      TrimmingIsInvisible(l, calls, window, window, n);
      hide After, AnswerTo;
    }
  }

  /**
   * A limiter that trims lets through exactly the first limit calls of a key in each window, and at most
   * 2 * limit - 1 in any interval as long as the window (none when the limit is not positive).
   */
  lemma AdmissionBounds<K(!new)>(calls: seq<Call<K>>, key: K, limit: int, window: int, from: int, to: int)
    requires Ordered(calls) && Fixed(calls, limit, window) && window > 0 && from <= to
    ensures var l := Limiter(false, Some(CAPACITY));
            && (to <= from + window ==> Admitted(l, calls, key, from, to) <= Quota(2 * limit - 1))
            && (key in After(l, calls) && After(l, calls)[key].windowStart == from && Past(calls, to) ==>
                  Admitted(l, calls, key, from, to) == Min(Called(calls, key, from, to), Quota(limit)))
  {
    var l := Limiter(false, Some(CAPACITY));
    AdmittedAlike(l, calls, key, limit, window, from, to);
    EveryRunBounded(calls, key, limit, window, from, to);
    EveryRunExact(calls, key, limit, window, from, to);
    if calls != [] { RunKeepsSame(l, calls, window, window, calls[|calls| - 1].now); }
    hide After, Admitted;
  }

  /** The end of the window that call i falls in. */
  function WindowEnd<K(==)>(l: Limiter, calls: seq<Call<K>>, i: nat): int
    requires i < |calls|
  {
    Counted(After(l, calls[..i]), calls[i]).windowStart + calls[i].window
  }

  lemma {:induction false} QuietCallsKeepTheWindow<K(!new)>(calls: seq<Call<K>>, key: K, limit: int, window: int, i: nat, j: nat)
    requires Ordered(calls) && Fixed(calls, limit, window) && i < j <= |calls| && calls[i].key == key
    requires forall m :: i < m < j && calls[m].key == key ==> calls[m].now < WindowEnd(Limiter(false, None), calls, i)
    ensures var t, e := After(Limiter(false, None), calls[..j]), Counted(After(Limiter(false, None), calls[..i]), calls[i]);
            key in t && t[key].windowStart == e.windowStart && t[key].count >= e.count
    decreases j
  {
    hide Next;
    var l := Limiter(false, None);
    var n: nat := j - 1;
    assert calls[..j][..n] == calls[..n];
    assert After(l, calls[..j]) == Next(l, After(l, calls[..n]), calls[n]);
    if i < n { QuietCallsKeepTheWindow(calls, key, limit, window, i, n); }
    hide After;
    QuietStep(After(l, calls[..n]), calls[n], key);
  }

  /** A call of the key is counted; no call that falls in the key's window opens another. */
  lemma QuietStep<K(!new)>(t: Table<K>, c: Call<K>, key: K)
    ensures var u := Next(Limiter(false, None), t, c);
            && (c.key == key ==> key in u && u[key] == Counted(t, c))
            && (key in t && (c.key == key ==> c.now < t[key].windowStart + c.window) ==>
                  key in u && u[key].windowStart == t[key].windowStart && u[key].count >= t[key].count)
  {
  }

  /**
   * After a refused call of a key, its later calls are refused until the window ends and the first one after
   * that is let through; waiting for the returned retry always reaches the end of the window, and is no longer
   * than needed unless it was raised to a second.
   */
  lemma RetryIsExact<K(!new)>(calls: seq<Call<K>>, key: K, limit: int, window: int, i: nat, j: nat)
    requires Ordered(calls) && Fixed(calls, limit, window) && window > 0 && limit >= 1
    requires i < j < |calls| && calls[i].key == key && calls[j].key == key
    requires !AnswerAt(Limiter(false, Some(CAPACITY)), calls, i).allowed
    requires forall m :: i < m < j && calls[m].key == key ==> calls[m].now < WindowEnd(Limiter(false, Some(CAPACITY)), calls, i)
    ensures var l := Limiter(false, Some(CAPACITY));
            var retry := AnswerAt(l, calls, i).retry;
            && (AnswerAt(l, calls, j).allowed <==> calls[j].now >= WindowEnd(l, calls, i))
            && WindowEnd(l, calls, i) <= calls[i].now + retry
            && (retry > SECOND ==> WindowEnd(l, calls, i) == calls[i].now + retry)
            && retry >= 1_000_000_000 && (retry > 1_000_000_000 ==> WindowEnd(l, calls, i) == calls[i].now + retry)
  {
    var l, ideal := Limiter(false, Some(CAPACITY)), Limiter(false, None);
    TrimmingIsInvisible(l, calls, window, window, i);
    TrimmingIsInvisible(l, calls, window, window, j);
    WindowEndAlike(calls, window, i);
    QuietCallsKeepTheWindow(calls, key, limit, window, i, j);
    hide After;
  }

  lemma WindowEndAlike<K(!new)>(calls: seq<Call<K>>, window: int, i: nat)
    requires Ordered(calls) && WindowsWithin(calls, window, window) && window > 0 && i < |calls|
    ensures WindowEnd(Limiter(false, Some(CAPACITY)), calls, i) == WindowEnd(Limiter(false, None), calls, i)
  {
    RunKeepsSame(Limiter(false, Some(CAPACITY)), calls[..i], window, window, calls[i].now);
    hide After;
  }

  /** Who is let through need not wait. Without a limit everybody is, and it leaves no trace; with one the call is counted. */
  lemma OnlyLimitedCallsCount<K>(entries: Table<K>, c: Call<K>)
    ensures var l := Limiter(true, Some(CAPACITY));
            && (c.limit <= 0 ==> AnswerTo(l, entries, c).allowed && Next(l, entries, c) == entries)
            && (AnswerTo(l, entries, c).allowed ==> AnswerTo(l, entries, c).retry == 0)
            && (c.limit > 0 && |entries| < 4096 ==> c.key in Next(l, entries, c) && Next(l, entries, c)[c.key].lastSeen == c.now)
    ensures var l := Limiter(false, Some(CAPACITY));
            && (AnswerTo(l, entries, c).allowed ==> AnswerTo(l, entries, c).retry == 0)
            && (|entries| < 4096 ==> c.key in Next(l, entries, c) && Next(l, entries, c)[c.key].lastSeen == c.now)
  {
    assert |entries[c.key := Counted(entries, c)]| <= |entries| + 1;
  }

  /**
   * Room is made only beyond the capacity, and only by dropping keys not seen for two windows; and it is made by every
   * counted call, so that what is beyond the capacity has been seen since.
   */
  lemma OnlyIdleAreDropped<K>(l: Limiter, entries: Table<K>, c: Call<K>, key: K)
    requires key != c.key
    ensures var t := Next(l, entries, c);
            && (key in t ==> key in entries && t[key] == entries[key])
            && (key in entries && key !in t ==>
                  && l.capacity.Some? && |entries.Keys + {c.key}| > l.capacity.value
                  && entries[key].lastSeen < c.now - 2 * c.window)
            && (key in t && l.capacity.Some? && |t| > l.capacity.value && !(l.dynamic && c.limit <= 0) ==>
                  t[key].lastSeen >= c.now - 2 * c.window)
  {
    var recorded := entries[c.key := Counted(entries, c)];
    assert recorded.Keys == entries.Keys + {c.key} && |recorded| == |recorded.Keys|;
  }
}
