/** The two-generation map of pending sessions, and the exact one-shot map it stands for. */
module DecayMap {
  import opened Common

  /** A pending sign-in; CreatedAt is read when the entry is built. */
  datatype Session<V> = Session(createdAt: int, data: V)

  /** The fields of a DecayMap. lastInsert is None before the first insert. */
  datatype Cache<K, V> = Cache(epoch: int, period: int, even: map<K, Session<V>>, odd: map<K, Session<V>>,
                               generation: nat, lastInsert: Option<int>)
  {
    function Half(parity: nat): map<K, Session<V>> { if parity % 2 == 0 then even else odd }

    function WithHalf(parity: nat, half: map<K, Session<V>>): Cache<K, V> {
      if parity % 2 == 0 then this.(even := half) else this.(odd := half)
    }
  }

  /** NewDecayMap. */
  function Fresh<K, V>(epoch: int, period: int): Cache<K, V> { Cache(epoch, period, map[], map[], 0, None) }

  function Generation(epoch: int, period: int, t: int): (g: nat)
    requires period > 0 && epoch <= t
  {
    DivNonNegative(t - epoch, period);
    (t - epoch) / period
  }

  lemma DivNonNegative(x: int, p: int)
    requires x >= 0 && p > 0
    ensures x / p >= 0 && x / p * p <= x < (x / p + 1) * p
  {
    assert x == x / p * p + x % p;
  }

  /** The first part of DecayMap.Set: halves whose generation is over are emptied. An unsigned difference below zero counts as large. */
  function Sweep<K, V>(c: Cache<K, V>, now: int): Cache<K, V>
    requires c.period > 0 && c.epoch <= now
  {
    var g := Generation(c.epoch, c.period, now);
    var swept :=
      if g < c.generation || g - c.generation >= 2 then c.(even := map[], odd := map[], generation := g)
      else if g - c.generation == 1 then c.WithHalf(g, map[]).(generation := g)
      else c;
    swept.(lastInsert := Some(now))
  }

  /** The second part: the key moves to the half of the current generation. */
  function Insert<K, V>(c: Cache<K, V>, g: nat, key: K, value: Session<V>): Cache<K, V> {
    var cleared := c.WithHalf(g + 1, c.Half(g + 1) - {key});
    cleared.WithHalf(g, cleared.Half(g)[key := value])
  }

  /** DecayMap.Set. */
  function SetIn<K, V>(c: Cache<K, V>, now: int, key: K, value: Session<V>): Cache<K, V>
    requires c.period > 0 && c.epoch <= now
  {
    if c.lastInsert.Some? && now < c.lastInsert.value then c
    else Insert(Sweep(c, now), Generation(c.epoch, c.period, now), key, value)
  }

  /** DecayMap.Pop. */
  function PopFrom<K, V>(c: Cache<K, V>, key: K): (Option<Session<V>>, Cache<K, V>) {
    if key in c.even then (Some(c.even[key]), c.(even := c.even - {key}))
    else if key in c.odd then (Some(c.odd[key]), c.(odd := c.odd - {key}))
    else (None, c)
  }

  /** popPendingSession: whatever was stored is gone, but only a young session is returned. */
  function PopPending<K, V>(c: Cache<K, V>, now: int, key: K): (Option<Session<V>>, Cache<K, V>) {
    var (found, rest) := PopFrom(c, key);
    (if found.Some? && now - found.value.createdAt < c.period then found else None, rest)
  }

  /** The class as the source has it: two maps indexed by the parity of the generation. */
  class DecayMap<K(==), V> {
    const epoch: int
    const period: int
    var maps: seq<map<K, Session<V>>>
    var generation: nat
    var lastInsert: Option<int>

    predicate Valid()
      reads this
    {
      period > 0 && |maps| == 2
    }

    function State(): Cache<K, V>
      reads this
      requires Valid()
    {
      Cache(epoch, period, maps[0], maps[1], generation, lastInsert)
    }

    constructor (epoch: int, period: int)
      requires period > 0
      ensures Valid() && State() == Fresh<K, V>(epoch, period)
    {
      this.epoch, this.period := epoch, period;
      maps := [map[], map[]];
      generation := 0;
      lastInsert := None;
    }

    method Set(now: int, key: K, value: Session<V>)
      requires Valid() && epoch <= now
      modifies this
      ensures Valid() && State() == SetIn(old(State()), now, key, value)
    {
      if lastInsert.Some? && now < lastInsert.value { return; }
      lastInsert := Some(now);
      DivNonNegative(now - epoch, period);
      var curGen: nat := (now - epoch) / period;
      var genDelta := curGen - generation;
      if genDelta < 0 || genDelta >= 2 {
        maps := [map[], map[]];
        generation := curGen;
      } else if genDelta == 1 {
        maps := maps[curGen % 2 := map[]];
        generation := curGen;
      }
      var other := (curGen + 1) % 2;
      maps := maps[other := maps[other] - {key}];
      maps := maps[curGen % 2 := maps[curGen % 2][key := value]];
    }

    method Pop(key: K) returns (r: Option<Session<V>>)
      requires Valid()
      modifies this
      ensures Valid() && (r, State()) == PopFrom(old(State()), key)
    {
      if key in maps[0] {
        r := Some(maps[0][key]);
        maps := maps[0 := maps[0] - {key}];
      } else if key in maps[1] {
        r := Some(maps[1][key]);
        maps := maps[1 := maps[1] - {key}];
      } else {
        r := None;
      }
    }
  }

  // ---------------------------------------------------------------------------------------------
  // The ideal

  /** What was set and not popped since, with the time of the Set call. Nothing is ever trimmed. */
  datatype Kept<V> = Kept(setAt: int, session: Session<V>)
  type Ideal<!K, V> = map<K, Kept<V>>

  datatype Event<K, V> = SetEvent(now: int, key: K, session: Session<V>) | PopEvent(now: int, key: K)

  predicate GoodEvent<K, V>(e: Event<K, V>, clock: int) {
    clock <= e.now && (e.SetEvent? ==> e.now <= e.session.createdAt)
  }

  /** A stored entry agrees with the ideal and sits in the half of the generation it was set in: this one or the last. */
  ghost predicate EntryAgrees<K, V>(c: Cache<K, V>, entry: Session<V>, parity: nat, ideal: Ideal<K, V>, key: K) {
    && c.period > 0 && key in ideal && ideal[key].session == entry && c.lastInsert.Some?
    && c.epoch <= ideal[key].setAt <= c.lastInsert.value && ideal[key].setAt <= entry.createdAt
    && var g := Generation(c.epoch, c.period, ideal[key].setAt); g % 2 == parity && c.generation - 1 <= g <= c.generation
  }

  /** Nothing young is missing: an entry the cache has lost was set at least a period before the latest insert. */
  ghost predicate Covered<K, V>(c: Cache<K, V>, ideal: Ideal<K, V>, key: K)
    requires key in ideal
  {
    && c.lastInsert.Some? && c.epoch <= ideal[key].setAt <= c.lastInsert.value
    && ideal[key].setAt <= ideal[key].session.createdAt
    && (key in c.even || key in c.odd || c.lastInsert.value - ideal[key].setAt >= c.period)
  }

  /** The generation is the one of the latest insert. */
  ghost predicate Dated<K, V>(c: Cache<K, V>, clock: int) {
    && c.period > 0 && c.epoch <= clock
    && match c.lastInsert
       case Some(t) => c.epoch <= t <= clock && c.generation == Generation(c.epoch, c.period, t)
       case None => c.generation == 0
  }

  ghost predicate Refines<K(!new), V>(c: Cache<K, V>, ideal: Ideal<K, V>, clock: int) {
    && Dated(c, clock)
    && (forall k :: k in c.even ==> EntryAgrees(c, c.even[k], 0, ideal, k))
    && (forall k :: k in c.odd ==> EntryAgrees(c, c.odd[k], 1, ideal, k))
    && (forall k :: k in ideal ==> Covered(c, ideal, k))
  }

  /** Times in generations two apart are more than a period apart; in adjacent ones, less than two. */
  lemma GenerationGap(epoch: int, period: int, t: int, u: int)
    requires period > 0 && epoch <= t <= u
    ensures Generation(epoch, period, t) <= Generation(epoch, period, u)
    ensures Generation(epoch, period, u) - Generation(epoch, period, t) >= 2 ==> u - t > period
    ensures Generation(epoch, period, u) - Generation(epoch, period, t) <= 1 ==> u - t < 2 * period
  {
    var g, h := Generation(epoch, period, t), Generation(epoch, period, u);
    InGeneration(epoch, period, t);
    InGeneration(epoch, period, u);
    hide Generation;
    if h < g { NotBackwards(g, h, t - epoch, u - epoch, period); }
    if h - g >= 2 { FarApart(g, h, t - epoch, u - epoch, period); }
    if h - g <= 1 { CloseBy(g, h, t - epoch, u - epoch, period); }
  }

  /** A generation begins at g * period. */
  lemma InGeneration(epoch: int, period: int, t: int)
    requires period > 0 && epoch <= t
    ensures var g := Generation(epoch, period, t); g * period <= t - epoch < g * period + period
  {
    DivNonNegative(t - epoch, period);
    var g := Generation(epoch, period, t);
    assert (g + 1) * period == g * period + period;
  }

  lemma NotBackwards(g: nat, h: nat, x: int, y: int, p: int)
    requires p > 0 && h < g && g * p <= x && y < h * p + p
    ensures y < x
  {
    MulLess(h + 1, g, p);
    assert (h + 1) * p == h * p + p;
  }

  lemma FarApart(g: nat, h: nat, x: int, y: int, p: int)
    requires p > 0 && g + 2 <= h && x < g * p + p && h * p <= y
    ensures y - x > p
  {
    MulLess(g + 2, h, p);
    assert (g + 2) * p == g * p + p + p;
  }

  lemma CloseBy(g: nat, h: nat, x: int, y: int, p: int)
    requires p > 0 && h <= g + 1 && g * p <= x && y < h * p + p
    ensures y - x < 2 * p
  {
    MulLess(h, g + 1, p);
    assert (g + 1) * p == g * p + p;
  }

  lemma MulLess(a: int, b: int, p: int)
    requires a <= b && p > 0
    ensures a * p <= b * p
  {
  }

  lemma SweepKeepsEntry<K, V>(c: Cache<K, V>, ideal: Ideal<K, V>, clock: int, now: int, key: K)
    requires Dated(c, clock) && clock <= now
    requires key in c.even ==> EntryAgrees(c, c.even[key], 0, ideal, key)
    requires key in c.odd ==> EntryAgrees(c, c.odd[key], 1, ideal, key)
    ensures var d := Sweep(c, now);
            && (key in d.even ==> EntryAgrees(d, d.even[key], 0, ideal, key))
            && (key in d.odd ==> EntryAgrees(d, d.odd[key], 1, ideal, key))
  {
    hide Generation;
    SweepGeneration(c, clock, now);
  }

  lemma SweepCovers<K, V>(c: Cache<K, V>, ideal: Ideal<K, V>, clock: int, now: int, key: K)
    requires Dated(c, clock) && clock <= now && key in ideal && Covered(c, ideal, key)
    requires key in c.even ==> EntryAgrees(c, c.even[key], 0, ideal, key)
    requires key in c.odd ==> EntryAgrees(c, c.odd[key], 1, ideal, key)
    ensures Covered(Sweep(c, now), ideal, key)
  {
    hide Generation;
    SweepGeneration(c, clock, now);
    GenerationGap(c.epoch, c.period, ideal[key].setAt, now);
  }

  lemma SweepRefines<K(!new), V>(c: Cache<K, V>, ideal: Ideal<K, V>, clock: int, now: int)
    requires Refines(c, ideal, clock) && clock <= now
    ensures Refines(Sweep(c, now), ideal, now)
  {
    hide Generation, EntryAgrees, Covered, Sweep;
    var d := Sweep(c, now);
    SweepGeneration(c, clock, now);
    forall k | k in d.even ensures EntryAgrees(d, d.even[k], 0, ideal, k) { SweepKeepsEntry(c, ideal, clock, now, k); }
    forall k | k in d.odd ensures EntryAgrees(d, d.odd[k], 1, ideal, k) { SweepKeepsEntry(c, ideal, clock, now, k); }
    forall k | k in ideal ensures Covered(d, ideal, k) { SweepCovers(c, ideal, clock, now, k); }
  }

  lemma SweepGeneration<K, V>(c: Cache<K, V>, clock: int, now: int)
    requires Dated(c, clock) && clock <= now
    ensures c.generation <= Generation(c.epoch, c.period, now)
    ensures Dated(Sweep(c, now), now) && Sweep(c, now).lastInsert == Some(now)
  {
    if c.lastInsert.Some? { GenerationGap(c.epoch, c.period, c.lastInsert.value, now); }
    hide Generation;
  }

  lemma InsertRefines<K(!new), V>(c: Cache<K, V>, ideal: Ideal<K, V>, now: int, key: K, session: Session<V>)
    requires Refines(c, ideal, now) && c.lastInsert == Some(now) && now <= session.createdAt
    ensures Refines(Insert(c, c.generation, key, session), ideal[key := Kept(now, session)], now)
  {
    hide Generation, EntryAgrees, Covered, Insert;
    var d, ideal' := Insert(c, c.generation, key, session), ideal[key := Kept(now, session)];
    assert Dated(d, now) by { InsertDates(c, key, session); }
    forall k ensures k in d.even ==> EntryAgrees(d, d.even[k], 0, ideal', k)
             ensures k in d.odd ==> EntryAgrees(d, d.odd[k], 1, ideal', k)
             ensures k in ideal' ==> Covered(d, ideal', k)
    {
      InsertOne(c, ideal, now, key, session, k);
    }
  }

  lemma InsertDates<K, V>(c: Cache<K, V>, key: K, session: Session<V>)
    ensures var d := Insert(c, c.generation, key, session);
            d.epoch == c.epoch && d.period == c.period && d.lastInsert == c.lastInsert && d.generation == c.generation
  {
  }

  /** What an insert does to the entries of one key. */
  lemma InsertOne<K(!new), V>(c: Cache<K, V>, ideal: Ideal<K, V>, now: int, key: K, session: Session<V>, k: K)
    requires Refines(c, ideal, now) && c.lastInsert == Some(now) && now <= session.createdAt
    ensures var d, ideal' := Insert(c, c.generation, key, session), ideal[key := Kept(now, session)];
            && (k in d.even ==> EntryAgrees(d, d.even[k], 0, ideal', k))
            && (k in d.odd ==> EntryAgrees(d, d.odd[k], 1, ideal', k))
            && (k in ideal' ==> Covered(d, ideal', k))
  {
    hide Generation;
  }

  lemma SetRefines<K(!new), V>(c: Cache<K, V>, ideal: Ideal<K, V>, clock: int, now: int, key: K, session: Session<V>)
    requires Refines(c, ideal, clock) && clock <= now <= session.createdAt
    ensures Refines(SetIn(c, now, key, session), ideal[key := Kept(now, session)], now)
  {
    SweepRefines(c, ideal, clock, now);
    SweepGeneration(c, clock, now);
    hide Generation, Insert, Sweep;
    InsertRefines(Sweep(c, now), ideal, now, key, session);
  }

  /** What the cache answers against what the ideal would answer. */
  ghost predicate PopAgrees<K, V>(r: Option<Session<V>>, ideal: Ideal<K, V>, now: int, key: K, period: int) {
    && (r.Some? ==> key in ideal && r.value == ideal[key].session && now - ideal[key].session.createdAt < period)
    && (key in ideal && now - ideal[key].setAt < period ==> r.Some?)
  }

  lemma PopRefines<K(!new), V>(c: Cache<K, V>, ideal: Ideal<K, V>, clock: int, now: int, key: K)
    requires Refines(c, ideal, clock) && clock <= now
    ensures PopAgrees(PopPending(c, now, key).0, ideal, now, key, c.period)
    ensures Refines(PopPending(c, now, key).1, ideal - {key}, now)
  {
    hide Generation;
  }

  /** A key is in at most one half, and no stored entry is two periods old at the latest insert. */
  lemma HalvesAreYoungAndDisjoint<K(!new), V>(c: Cache<K, V>, ideal: Ideal<K, V>, clock: int, key: K)
    requires Refines(c, ideal, clock)
    ensures !(key in c.even && key in c.odd)
    ensures key in c.even || key in c.odd ==>
              key in ideal && c.lastInsert.Some? && c.lastInsert.value - ideal[key].setAt < 2 * c.period
  {
    hide Generation;
    if key in c.even || key in c.odd { GenerationGap(c.epoch, c.period, ideal[key].setAt, c.lastInsert.value); }
  }

  /** The state after a series of events. */
  function CacheAfter<K, V>(c: Cache<K, V>, events: seq<Event<K, V>>): Cache<K, V>
    requires c.period > 0 && forall i :: 0 <= i < |events| ==> c.epoch <= events[i].now
    ensures CacheAfter(c, events).period == c.period && CacheAfter(c, events).epoch == c.epoch
  {
    if events == [] then c
    else
      var before, e := CacheAfter(c, events[..|events| - 1]), events[|events| - 1];
      match e
      case SetEvent(now, key, session) => SetIn(before, now, key, session)
      case PopEvent(now, key) => PopPending(before, now, key).1
  }

  function IdealAfter<K, V>(events: seq<Event<K, V>>): Ideal<K, V> {
    if events == [] then map[]
    else
      var before, e := IdealAfter(events[..|events| - 1]), events[|events| - 1];
      match e
      case SetEvent(now, key, session) => before[key := Kept(now, session)]
      case PopEvent(_, key) => before - {key}
  }

  /** Times never run back, and each session is built at or after the time handed to Set. */
  ghost predicate Monotone<K, V>(events: seq<Event<K, V>>, epoch: int) {
    && (forall i :: 0 <= i < |events| ==> GoodEvent(events[i], epoch))
    && (forall i, j :: 0 <= i < j < |events| ==> events[i].now <= events[j].now)
  }

  lemma {:induction false} RunRefines<K(!new), V>(epoch: int, period: int, events: seq<Event<K, V>>)
    requires period > 0 && Monotone(events, epoch)
    ensures Refines(CacheAfter(Fresh<K, V>(epoch, period), events), IdealAfter(events),
                    if events == [] then epoch else events[|events| - 1].now)
  {
    hide Refines, SetIn, PopPending;
    var start := Fresh<K, V>(epoch, period);
    if events == [] {
      EmptyRefines<K, V>(epoch, period);
    } else {
      var n := |events| - 1;
      RunRefines(epoch, period, events[..n]);
      var c, ideal := CacheAfter(start, events[..n]), IdealAfter(events[..n]);
      var clock := if n == 0 then epoch else events[n - 1].now;
      match events[n]
      case SetEvent(now, key, session) => SetRefines(c, ideal, clock, now, key, session);
      case PopEvent(now, key) => PopRefines(c, ideal, clock, now, key);
    }
  }

  lemma EmptyRefines<K(!new), V>(epoch: int, period: int)
    requires period > 0
    ensures Refines(Fresh<K, V>(epoch, period), map[], epoch)
  {
  }

  /**
   * After any events with times that never run back, a pop returns a session only if that very session
   * was set for the key, not popped or replaced since, and is younger than one period; and it does return
   * it whenever the Set call was less than one period ago. Where a session is created at the time handed
   * to Set the two ages are one, and the pop succeeds exactly when the key was set less than a period ago.
   */
  lemma PopIsExact<K(!new), V>(epoch: int, period: int, events: seq<Event<K, V>>, now: int, key: K)
    requires period > 0 && Monotone(events, epoch) && epoch <= now
    requires forall i :: 0 <= i < |events| ==> events[i].now <= now
    ensures var r := PopPending(CacheAfter(Fresh<K, V>(epoch, period), events), now, key).0;
            PopAgrees(r, IdealAfter(events), now, key, period)
    ensures var r := PopPending(CacheAfter(Fresh<K, V>(epoch, period), events), now, key).0;
            var ideal := IdealAfter(events);
            (key in ideal ==> ideal[key].session.createdAt == ideal[key].setAt) ==>
              (r.Some? <==> key in ideal && now - ideal[key].setAt < period)
  {
    hide Refines, PopPending;
    RunRefines(epoch, period, events);
    var clock := if events == [] then epoch else events[|events| - 1].now;
    PopRefines(CacheAfter(Fresh<K, V>(epoch, period), events), IdealAfter(events), clock, now, key);
  }

  /** A session can be popped once. */
  lemma PopIsOneShot<K, V>(c: Cache<K, V>, now: int, later: int, key: K)
    requires !(key in c.even && key in c.odd)
    ensures PopPending(PopPending(c, now, key).1, later, key).0 == None
  {
  }

  /** In every run a key is in at most one half, and what is stored was set less than two periods before the latest insert. */
  lemma StoredEntriesAreYoung<K(!new), V>(epoch: int, period: int, events: seq<Event<K, V>>, key: K)
    requires period > 0 && Monotone(events, epoch)
    ensures var c := CacheAfter(Fresh<K, V>(epoch, period), events);
            var ideal := IdealAfter(events);
            && !(key in c.even && key in c.odd)
            && (key in c.even || key in c.odd ==>
                  key in ideal && c.lastInsert.Some? && c.lastInsert.value - ideal[key].setAt < 2 * period)
  {
    hide Refines;
    RunRefines(epoch, period, events);
    var clock := if events == [] then epoch else events[|events| - 1].now;
    HalvesAreYoungAndDisjoint(CacheAfter(Fresh<K, V>(epoch, period), events), IdealAfter(events), clock, key);
  }
}
