/** The TTL cache, plain and sharded, against a timed map that never forgets.

    The plain cache is the machine below with one shard.  A Get is three steps,
    because the lock is given up between them: read the entry, look at the clock,
    and, if the entry had expired, look again under the write lock. */
module Cache {
  import opened Common

  datatype Item<T> = Item(value: T, expiration: int)

  /** A Get under way.  `since` is the number of steps taken before it began. */
  datatype Getter<T> =
    | Reading(key: string, item: Option<Item<T>>, since: nat)
    | Rechecking(key: string, since: nat)

  datatype State<T> = State(shards: seq<map<string, Item<T>>>, getters: map<nat, Getter<T>>, clock: int, steps: nat)

  /** `lag`: Set and Cleanup read the time before they take the lock. */
  datatype Event<T> =
    | Tick(dt: nat)
    | Set(key: string, value: T, ttl: int, lag: nat)
    | Delete(key: string)
    | Purge(shard: nat, lag: nat)
    | Read(g: nat, key: string)
    | Check(g: nat)
    | Recheck(g: nat)

  datatype Reply<T> = Silent | Miss | Hit(value: T)

  type Sharding = string -> int

  predicate Dead<T>(item: Item<T>, now: int) {
    item.expiration > 0 && now > item.expiration
  }

  /** The time read `lag` before the clock; the clock starts at 1. */
  function Earlier(clock: int, lag: nat): int {
    if lag < clock then clock - lag else 1
  }

  function NewItem<T>(value: T, ttl: int, now: int): Item<T> {
    Item(value, if ttl > 0 then now + ttl else 0)
  }

  function Start<T>(n: nat): State<T> {
    State(seq(n, _ => map[]), map[], 1, 0)
  }

  predicate InRange(sh: Sharding, n: nat, key: string) {
    0 <= sh(key) < n
  }

  function Find<T>(s: State<T>, sh: Sharding, key: string): Option<Item<T>>
    requires InRange(sh, |s.shards|, key)
  {
    var shard := s.shards[sh(key)];
    if key in shard then Some(shard[key]) else None
  }

  function Alive<T>(shard: map<string, Item<T>>, now: int): map<string, Item<T>> {
    map k | k in shard && !Dead(shard[k], now) :: shard[k]
  }

  /** One atomic step.  A step on a key outside the shard range panics before it
      does anything, and a step that is not enabled changes nothing. */
  function Act<T>(sh: Sharding, s: State<T>, e: Event<T>): State<T> {
    match e
    case Tick(dt) => s.(clock := s.clock + dt)
    case Set(k, v, ttl, lag) =>
      if !InRange(sh, |s.shards|, k) then s
      else s.(shards := s.shards[sh(k) := s.shards[sh(k)][k := NewItem(v, ttl, Earlier(s.clock, lag))]])
    case Delete(k) =>
      if !InRange(sh, |s.shards|, k) then s
      else s.(shards := s.shards[sh(k) := s.shards[sh(k)] - {k}])
    case Purge(i, lag) =>
      if i >= |s.shards| then s
      else s.(shards := s.shards[i := Alive(s.shards[i], Earlier(s.clock, lag))])
    case Read(g, k) =>
      if g in s.getters || !InRange(sh, |s.shards|, k) then s
      else s.(getters := s.getters[g := Reading(k, Find(s, sh, k), s.steps)])
    case Check(g) =>
      if g in s.getters && s.getters[g].Reading? then
        if ReplyOf(sh, s, e).Silent? then
          s.(getters := s.getters[g := Rechecking(s.getters[g].key, s.getters[g].since)])
        else s.(getters := s.getters - {g})
      else s
    case Recheck(g) =>
      if g in s.getters && s.getters[g].Rechecking? && InRange(sh, |s.shards|, s.getters[g].key) then
        var k := s.getters[g].key;
        var t := s.(getters := s.getters - {g});
        if ReplyOf(sh, s, e).Miss? then t.(shards := s.shards[sh(k) := s.shards[sh(k)] - {k}]) else t
      else s
  }

  /** What a Get returns in this step, if it returns. */
  function ReplyOf<T>(sh: Sharding, s: State<T>, e: Event<T>): Reply<T> {
    match e
    case Check(g) =>
      if g in s.getters && s.getters[g].Reading? then
        match s.getters[g].item
        case None => Miss
        case Some(item) => if Dead(item, s.clock) then Silent else Hit(item.value)
      else Silent
    case Recheck(g) =>
      if g in s.getters && s.getters[g].Rechecking? && InRange(sh, |s.shards|, s.getters[g].key) then
        AtomicGet(sh, s, s.getters[g].key)
      else Silent
    case _ => Silent
  }

  /** A Get that nothing interrupts. */
  function AtomicGet<T>(sh: Sharding, s: State<T>, key: string): Reply<T>
    requires InRange(sh, |s.shards|, key)
  {
    match Find(s, sh, key)
    case None => Miss
    case Some(item) => if Dead(item, s.clock) then Miss else Hit(item.value)
  }

  function Step<T>(sh: Sharding, s: State<T>, e: Event<T>): State<T> {
    Act(sh, s, e).(steps := s.steps + 1)
  }

  function Run<T>(sh: Sharding, n: nat, evs: seq<Event<T>>): State<T> {
    if evs == [] then Start(n) else Step(sh, Run(sh, n, evs[..|evs| - 1]), evs[|evs| - 1])
  }

  // The timed map

  function Now<T>(evs: seq<Event<T>>): int {
    if evs == [] then 1
    else Now(evs[..|evs| - 1]) + if evs[|evs| - 1].Tick? then evs[|evs| - 1].dt else 0
  }

  /** Values and deadlines as Set and Delete left them; nothing is ever purged. */
  function Ideal<T>(evs: seq<Event<T>>): map<string, Item<T>> {
    if evs == [] then map[]
    else
      var before := evs[..|evs| - 1];
      match evs[|evs| - 1]
      case Set(k, v, ttl, lag) => Ideal(before)[k := NewItem(v, ttl, Earlier(Now(before), lag))]
      case Delete(k) => Ideal(before) - {k}
      case _ => Ideal(before)
  }

  function Lookup<T>(m: map<string, Item<T>>, key: string, now: int): Reply<T> {
    if key in m && !Dead(m[key], now) then Hit(m[key].value) else Miss
  }

  /** What the timed map answers after `evs`. */
  function Spec<T>(evs: seq<Event<T>>, key: string): Reply<T> {
    Lookup(Ideal(evs), key, Now(evs))
  }

  ghost predicate KeysInRange<T>(sh: Sharding, n: nat, evs: seq<Event<T>>) {
    forall e :: e in evs ==> (e.Set? || e.Delete? || e.Read? ==> InRange(sh, n, e.key))
  }

  /** A stored entry is the timed map's; a missing one has expired there. */
  ghost predicate RefinesAt<T>(shard: map<string, Item<T>>, ideal: map<string, Item<T>>, now: int, key: string) {
    && (key in shard ==> key in ideal && shard[key] == ideal[key])
    && (key !in shard && key in ideal ==> Dead(ideal[key], now))
  }

  lemma {:induction false} ClockIsNow<T>(sh: Sharding, n: nat, evs: seq<Event<T>>)
    ensures var s := Run(sh, n, evs);
            s.clock == Now(evs) >= 1 && s.steps == |evs| && |s.shards| == n
  {
    if evs != [] {
      ClockIsNow(sh, n, evs[..|evs| - 1]);
    }
  }

  ghost predicate OwnShardOnly<T>(sh: Sharding, s: State<T>, key: string) {
    forall i :: 0 <= i < |s.shards| && i != sh(key) ==> key !in s.shards[i]
  }

  lemma StaysInShard<T>(sh: Sharding, s: State<T>, e: Event<T>, key: string)
    requires e.Set? || e.Delete? || e.Read? ==> InRange(sh, |s.shards|, e.key)
    requires OwnShardOnly(sh, s, key)
    ensures |Step(sh, s, e).shards| == |s.shards| && OwnShardOnly(sh, Step(sh, s, e), key)
  {
  }

  lemma OneMoreStep<T>(sh: Sharding, s: State<T>, evs: seq<Event<T>>, e: Event<T>, key: string)
    requires InRange(sh, |s.shards|, key) && s.clock == Now(evs) >= 1
    requires e.Set? || e.Delete? || e.Read? ==> InRange(sh, |s.shards|, e.key)
    requires RefinesAt(s.shards[sh(key)], Ideal(evs), Now(evs), key) && OwnShardOnly(sh, s, key)
    ensures |Step(sh, s, e).shards| == |s.shards|
    ensures RefinesAt(Step(sh, s, e).shards[sh(key)], Ideal(evs + [e]), Now(evs + [e]), key)
    ensures OwnShardOnly(sh, Step(sh, s, e), key)
  {
    StaysInShard(sh, s, e, key);
    assert (evs + [e])[..|evs|] == evs;
  }

  /** Refinement: after any run every key is stored in its own shard only, and
      there exactly as in the timed map unless it has expired. */
  lemma {:induction false} Refinement<T>(sh: Sharding, n: nat, evs: seq<Event<T>>, key: string)
    requires KeysInRange(sh, n, evs) && InRange(sh, n, key)
    ensures |Run(sh, n, evs).shards| == n
    ensures RefinesAt(Run(sh, n, evs).shards[sh(key)], Ideal(evs), Now(evs), key)
    ensures forall i :: 0 <= i < n && i != sh(key) ==> key !in Run(sh, n, evs).shards[i]
  {
    if evs != [] {
      var before, e := evs[..|evs| - 1], evs[|evs| - 1];
      Refinement(sh, n, before, key);
      ClockIsNow(sh, n, before);
      assert e in evs && evs == before + [e];
      assert OwnShardOnly(sh, Run(sh, n, before), key);
      OneMoreStep(sh, Run(sh, n, before), before, e, key);
    }
  }

  /** Reading begins a Get with the entry as it is.  Looking at the clock then
      ends it, unless the entry read has expired. */
  lemma FirstPhase<T>(sh: Sharding, s: State<T>, g: nat, key: string)
    requires InRange(sh, |s.shards|, key) && g !in s.getters
    ensures var shard, r := s.shards[sh(key)], Step(sh, s, Read(g, key));
            var t := Step(sh, r, Check(g));
            && r.shards == t.shards == s.shards && g in r.getters
            && (if key in shard && 0 < shard[key].expiration < s.clock then
                  && ReplyOf(sh, r, Check(g)) == Silent
                  && t.getters == s.getters[g := Rechecking(key, s.steps)]
                else
                  && ReplyOf(sh, r, Check(g)) == (if key in shard then Hit(shard[key].value) else Miss)
                  && t.getters == s.getters)
  {
    assert s.getters[g := Reading(key, Find(s, sh, key), s.steps)] - {g} == s.getters;
  }

  /** Looking again always ends the Get: with the value of an entry that has not
      expired, or by removing the one that has. */
  lemma SecondPhase<T>(sh: Sharding, s: State<T>, g: nat)
    requires g in s.getters && s.getters[g].Rechecking? && InRange(sh, |s.shards|, s.getters[g].key)
    ensures var key, t := s.getters[g].key, Step(sh, s, Recheck(g));
            var shard := s.shards[sh(key)];
            && t.getters == s.getters - {g}
            && (if key in shard && !(0 < shard[key].expiration < s.clock) then
                  ReplyOf(sh, s, Recheck(g)) == Hit(shard[key].value) && t.shards == s.shards
                else
                  ReplyOf(sh, s, Recheck(g)) == Miss && t.shards == s.shards[sh(key) := shard - {key}])
  {
  }

  /** An uninterrupted Get answers as the timed map does. */
  lemma AtomicGetIsSpec<T>(sh: Sharding, n: nat, evs: seq<Event<T>>, key: string)
    requires KeysInRange(sh, n, evs) && InRange(sh, n, key)
    ensures |Run(sh, n, evs).shards| == n && AtomicGet(sh, Run(sh, n, evs), key) == Spec(evs, key)
  {
    Refinement(sh, n, evs, key);
    ClockIsNow(sh, n, evs);
  }

  /** Plain and sharded agree: two caches that saw the same writes at the same
      times answer alike, whatever their shards, cleanups and Gets. */
  lemma CachesAgree<T>(sh: Sharding, n: nat, evs: seq<Event<T>>,
                       sh': Sharding, n': nat, evs': seq<Event<T>>, key: string)
    requires KeysInRange(sh, n, evs) && InRange(sh, n, key)
    requires KeysInRange(sh', n', evs') && InRange(sh', n', key)
    requires Ideal(evs) == Ideal(evs') && Now(evs) == Now(evs')
    ensures |Run(sh, n, evs).shards| == n && |Run(sh', n', evs').shards| == n'
    ensures AtomicGet(sh, Run(sh, n, evs), key) == AtomicGet(sh', Run(sh', n', evs'), key)
  {
    AtomicGetIsSpec(sh, n, evs, key);
    AtomicGetIsSpec(sh', n', evs', key);
  }

  lemma {:induction false} SpecIgnores<T>(evs: seq<Event<T>>, e: Event<T>, more: seq<Event<T>>)
    requires !e.Tick? && !e.Set? && !e.Delete?
    ensures Ideal(evs + [e] + more) == Ideal(evs + more) && Now(evs + [e] + more) == Now(evs + more)
  {
    var a, b := evs + [e] + more, evs + more;
    if more == [] {
      assert a[..|a| - 1] == evs && b == evs;
    } else {
      SpecIgnores(evs, e, more[..|more| - 1]);
      assert a[..|a| - 1] == evs + [e] + more[..|more| - 1] && b[..|b| - 1] == evs + more[..|more| - 1];
    }
  }

  /** A cleanup (or a Get, with its lazy deletion) never changes a later answer. */
  lemma CleanupIsInvisible<T>(sh: Sharding, n: nat, evs: seq<Event<T>>, e: Event<T>, more: seq<Event<T>>, key: string)
    requires !e.Tick? && !e.Set? && !e.Delete?
    requires KeysInRange(sh, n, evs + [e] + more) && InRange(sh, n, key)
    ensures |Run(sh, n, evs + [e] + more).shards| == |Run(sh, n, evs + more).shards| == n
    ensures AtomicGet(sh, Run(sh, n, evs + [e] + more), key) == AtomicGet(sh, Run(sh, n, evs + more), key)
  {
    SpecIgnores(evs, e, more);
    assert forall x :: x in evs + more ==> x in evs + [e] + more;
    AtomicGetIsSpec(sh, n, evs + [e] + more, key);
    AtomicGetIsSpec(sh, n, evs + more, key);
  }

  lemma {:induction false} KeptUntilRewritten<T>(evs: seq<Event<T>>, key: string, value: T,
                                                    ttl: int, lag: nat, more: seq<Event<T>>)
    requires forall e :: e in more ==> !(e.Set? && e.key == key) && e != Delete(key)
    ensures var all := evs + [Set(key, value, ttl, lag)] + more;
            && key in Ideal(all) && Ideal(all)[key] == NewItem(value, ttl, Earlier(Now(evs), lag))
            && Now(all) >= Now(evs) >= 1
  {
    var first := evs + [Set(key, value, ttl, lag)];
    var all := first + more;
    if more == [] {
      assert all == first && first[..|evs|] == evs;
      assert evs[..|evs|] == evs;
      NowPositive(evs);
    } else {
      assert all[..|all| - 1] == first + more[..|more| - 1];
      assert all[|all| - 1] == more[|more| - 1] && more[|more| - 1] in more;
      KeptUntilRewritten(evs, key, value, ttl, lag, more[..|more| - 1]);
    }
  }

  lemma {:induction false} NowPositive<T>(evs: seq<Event<T>>)
    ensures Now(evs) >= 1
  {
    if evs != [] {
      NowPositive(evs[..|evs| - 1]);
    }
  }

  /** The life of an entry: until its key is written again, whatever else is done
      to the cache, a Get returns the value exactly as long as no more than the
      ttl has passed since Set looked at the clock, and for ever without a ttl. */
  lemma EntryLifetime<T>(sh: Sharding, n: nat, evs: seq<Event<T>>, key: string, value: T,
                         ttl: int, lag: nat, more: seq<Event<T>>)
    requires lag < Now(evs)
    requires forall e :: e in more ==> !(e.Set? && e.key == key) && e != Delete(key)
    requires KeysInRange(sh, n, evs + [Set(key, value, ttl, lag)] + more) && InRange(sh, n, key)
    ensures var all := evs + [Set(key, value, ttl, lag)] + more;
            && |Run(sh, n, all).shards| == n
            && AtomicGet(sh, Run(sh, n, all), key)
               == (if ttl <= 0 || Now(all) - (Now(evs) - lag) <= ttl then Hit(value) else Miss)
  {
    var all := evs + [Set(key, value, ttl, lag)] + more;
    KeptUntilRewritten(evs, key, value, ttl, lag, more);
    AtomicGetIsSpec(sh, n, all, key);
  }

  lemma {:induction false} GoneUntilRewritten<T>(evs: seq<Event<T>>, key: string, more: seq<Event<T>>)
    requires forall e :: e in more ==> !(e.Set? && e.key == key)
    ensures key !in Ideal(evs + [Delete(key)] + more)
  {
    var all := evs + [Delete(key)] + more;
    if more == [] {
      assert all == evs + [Delete(key)] && all[..|evs|] == evs;
    } else {
      assert all[..|all| - 1] == evs + [Delete(key)] + more[..|more| - 1];
      assert all[|all| - 1] == more[|more| - 1] && more[|more| - 1] in more;
      GoneUntilRewritten(evs, key, more[..|more| - 1]);
    }
  }

  /** A deleted key is not found again until it is set. */
  lemma DeletedIsGone<T>(sh: Sharding, n: nat, evs: seq<Event<T>>, key: string, more: seq<Event<T>>)
    requires forall e :: e in more ==> !(e.Set? && e.key == key)
    requires KeysInRange(sh, n, evs + [Delete(key)] + more) && InRange(sh, n, key)
    ensures |Run(sh, n, evs + [Delete(key)] + more).shards| == n
    ensures AtomicGet(sh, Run(sh, n, evs + [Delete(key)] + more), key) == Miss
  {
    GoneUntilRewritten(evs, key, more);
    AtomicGetIsSpec(sh, n, evs + [Delete(key)] + more, key);
  }

  /** A cleanup drops exactly the entries of its shard whose deadline has passed. */
  lemma PurgeDropsExpired<T>(sh: Sharding, s: State<T>, i: nat, lag: nat)
    requires i < |s.shards| && lag < s.clock
    ensures |Step(sh, s, Purge(i, lag)).shards| == |s.shards|
    ensures KeepsUnexpired(s.shards[i], Step(sh, s, Purge(i, lag)).shards[i], s.clock - lag)
    ensures forall j :: 0 <= j < |s.shards| && j != i ==> Step(sh, s, Purge(i, lag)).shards[j] == s.shards[j]
  {
  }

  /** Only Delete removes a live entry: Get and Cleanup drop an entry only if it
      has expired at the moment of the deletion. */
  lemma OnlyExpiredAreDropped<T>(sh: Sharding, n: nat, evs: seq<Event<T>>, e: Event<T>, key: string)
    requires InRange(sh, n, key) && e != Delete(key)
    ensures |Run(sh, n, evs).shards| == |Run(sh, n, evs + [e]).shards| == n
    ensures var s, s' := Run(sh, n, evs), Run(sh, n, evs + [e]);
            key in s.shards[sh(key)] && key !in s'.shards[sh(key)] ==> Dead(s.shards[sh(key)][key], s.clock)
  {
    var all := evs + [e];
    assert all[..|all| - 1] == evs;
    ClockIsNow(sh, n, evs);
    ClockIsNow(sh, n, all);
  }

  // Gets under interleaving

  /** The reply a Get that has read its entry may still give is the timed map's
      answer at the moment of the read. */
  ghost predicate GetterInv<T>(evs: seq<Event<T>>, gt: Getter<T>) {
    && gt.since <= |evs|
    && (gt.Reading? ==>
          match gt.item
          case None => Spec(evs[..gt.since], gt.key) == Miss
          case Some(item) => Dead(item, Now(evs)) || Spec(evs[..gt.since], gt.key) == Hit(item.value))
  }

  lemma {:induction false} NowGrows<T>(evs: seq<Event<T>>, i: nat)
    requires i <= |evs|
    ensures Now(evs[..i]) <= Now(evs)
  {
    if i < |evs| {
      assert evs[..|evs| - 1][..i] == evs[..i];
      NowGrows(evs[..|evs| - 1], i);
    } else {
      assert evs[..i] == evs;
    }
  }

  lemma {:induction false} GettersSound<T>(sh: Sharding, n: nat, evs: seq<Event<T>>, g: nat)
    requires KeysInRange(sh, n, evs) && g in Run(sh, n, evs).getters
    ensures GetterInv(evs, Run(sh, n, evs).getters[g]) && InRange(sh, n, Run(sh, n, evs).getters[g].key)
  {
    var before, e := evs[..|evs| - 1], evs[|evs| - 1];
    var s := Run(sh, n, before);
    ClockIsNow(sh, n, before);
    ClockIsNow(sh, n, evs);
    assert e in evs;
    if g in s.getters {
      GettersSound(sh, n, before, g);
      assert evs[..s.getters[g].since] == before[..s.getters[g].since];
      NowGrows(evs, |before|);
    } else {
      assert e.Read? && e.g == g;
      assert evs[..|before|] == before;
      AtomicGetIsSpec(sh, n, before, e.key);
      NowGrows(evs, |before|);
    }
  }

  /** Linearizability: whatever runs between its steps, a Get returns what the
      timed map answers at some instant between its first step and its return. */
  lemma GetIsLinearizable<T>(sh: Sharding, n: nat, evs: seq<Event<T>>, e: Event<T>)
    requires KeysInRange(sh, n, evs) && !ReplyOf(sh, Run(sh, n, evs), e).Silent?
    ensures e.Check? || e.Recheck?
    ensures e.g in Run(sh, n, evs).getters
    ensures var gt := Run(sh, n, evs).getters[e.g];
            exists i :: gt.since <= i <= |evs| && ReplyOf(sh, Run(sh, n, evs), e) == Spec(evs[..i], gt.key)
  {
    var s := Run(sh, n, evs);
    var gt := s.getters[e.g];
    ClockIsNow(sh, n, evs);
    GettersSound(sh, n, evs, e.g);
    if e.Check? {
      assert ReplyOf(sh, s, e) == Spec(evs[..gt.since], gt.key);
    } else {
      AtomicGetIsSpec(sh, n, evs, gt.key);
      assert evs[..|evs|] == evs;
    }
  }

  // The cache objects

  /** Every key of `items` is the timed map's, and what is missing has expired. */
  ghost predicate Refines<T>(items: map<string, Item<T>>, ideal: map<string, Item<T>>, now: int) {
    forall k :: k in items || k in ideal ==> RefinesAt(items, ideal, now, k)
  }

  class PlainCache<T> {
    var items: map<string, Item<T>>
    ghost var ideal: map<string, Item<T>>
    ghost var clock: int

    ghost predicate Valid()
      reads this
    {
      clock >= 1 && Refines(items, ideal, clock)
    }

    constructor ()
      ensures Valid() && ideal == map[] && clock == 1
    {
      items, ideal, clock := map[], map[], 1;
    }

    ghost method Advance(now: int)
      requires Valid() && clock <= now
      modifies this`clock
      ensures Valid() && clock == now
    {
      clock := now;
    }

    method SetItem(key: string, value: T, ttl: int, now: int)
      requires Valid() && 1 <= now <= clock
      modifies this`items, this`ideal
      ensures Valid() && ideal == old(ideal)[key := NewItem(value, ttl, now)]
    {
      var exp := 0;
      if ttl > 0 {
        exp := now + ttl;
      }
      items := items[key := Item(value, exp)];
      ideal := ideal[key := Item(value, exp)];
    }

    /** First phase of Get, under the read lock; when it is not done the lock is
        given up and other calls may come in before the second phase. */
    method ReadPhase(key: string, now: int) returns (done: bool, r: Reply<T>)
      requires Valid() && clock <= now
      modifies this`clock
      ensures Valid() && clock == now && ideal == old(ideal)
      ensures done ==> r == Lookup(ideal, key, now)
      ensures !done <==> key in items && Dead(items[key], now)
    {
      clock := now;
      if key !in items {
        return true, Miss;
      }
      var item := items[key];
      if item.expiration > 0 && now > item.expiration {
        return false, Silent;
      }
      return true, Hit(item.value);
    }

    /** Second phase, under the write lock, whatever happened since the first: it
        answers for its own instant and drops the entry only if that has expired. */
    method RecheckPhase(key: string, now: int) returns (r: Reply<T>)
      requires Valid() && clock <= now
      modifies this`items, this`clock
      ensures Valid() && clock == now && ideal == old(ideal)
      ensures r == Lookup(ideal, key, now)
      ensures items == if key in old(items) && Dead(old(items)[key], now) then old(items) - {key} else old(items)
    {
      clock := now;
      if key !in items {
        return Miss;
      }
      var item := items[key];
      if item.expiration > 0 && now > item.expiration {
        items := items - {key};
        return Miss;
      }
      return Hit(item.value);
    }

    /** Get when no other call comes in between the phases. */
    method GetItem(key: string, now: int, later: int) returns (r: Reply<T>)
      requires Valid() && clock <= now <= later
      modifies this`items, this`clock
      ensures Valid() && ideal == old(ideal)
      ensures r == Lookup(ideal, key, now)
      ensures items == if key in old(items) && Dead(old(items)[key], now) then old(items) - {key} else old(items)
    {
      var done;
      done, r := ReadPhase(key, now);
      if !done {
        r := RecheckPhase(key, later);
      }
    }

    method DeleteItem(key: string)
      requires Valid()
      modifies this`items, this`ideal
      ensures Valid() && ideal == old(ideal) - {key}
    {
      items := items - {key};
      ideal := ideal - {key};
    }

    method Cleanup(now: int)
      requires Valid() && now <= clock
      modifies this`items
      ensures Valid() && items == Alive(old(items), now) && KeepsUnexpired(old(items), items, now)
    {
      items := PurgeLoop(items, now);
    }
  }

  /** `kept` is `items` without the entries whose deadline has passed. */
  predicate KeepsUnexpired<T(==)>(items: map<string, Item<T>>, kept: map<string, Item<T>>, now: int) {
    && (forall k :: k in kept ==> k in items && kept[k] == items[k])
    && (forall k :: k in items ==> (k !in kept <==> 0 < items[k].expiration < now))
  }

  /** The cleanup loop over one item map. */
  method PurgeLoop<T>(items: map<string, Item<T>>, now: int) returns (kept: map<string, Item<T>>)
    ensures kept == Alive(items, now)
    ensures KeepsUnexpired(items, kept, now)
  {
    kept := items;
    var todo := items.Keys;
    while todo != {}
      invariant todo <= items.Keys && kept.Keys <= items.Keys
      invariant forall k :: k in items ==> (k in kept <==> k in todo || !Dead(items[k], now))
      invariant forall k :: k in kept ==> kept[k] == items[k]
      decreases todo
    {
      var k :| k in todo;
      var v := items[k];
      if v.expiration > 0 && now > v.expiration {
        kept := kept - {k};
      }
      todo := todo - {k};
    }
  }

  class ShardedCache<T> {
    const shardOf: Sharding
    var shards: seq<map<string, Item<T>>>
    ghost var ideal: map<string, Item<T>>
    ghost var clock: int

    ghost predicate Valid()
      reads this
    {
      && |shards| == 32 && clock >= 1
      && (forall i, k :: 0 <= i < 32 && k in shards[i] ==> shardOf(k) == i)
      && (forall k :: InRange(shardOf, 32, k) ==> RefinesAt(shards[shardOf(k)], ideal, clock, k))
      && (forall k :: k in ideal ==> InRange(shardOf, 32, k))
    }

    constructor (shardOf: Sharding)
      ensures Valid() && ideal == map[] && this.shardOf == shardOf
    {
      this.shardOf := shardOf;
      shards, ideal, clock := seq(32, _ => map[]), map[], 1;
    }

    ghost method Advance(now: int)
      requires Valid() && clock <= now
      modifies this`clock
      ensures Valid() && clock == now
    {
      clock := now;
    }

    /** False when the shard index is out of range and the call panics. */
    method SetItem(key: string, value: T, ttl: int, now: int) returns (ok: bool)
      requires Valid() && 1 <= now <= clock
      modifies this`shards, this`ideal
      ensures Valid() && (ok <==> InRange(shardOf, 32, key))
      ensures ideal == if ok then old(ideal)[key := NewItem(value, ttl, now)] else old(ideal)
    {
      var shard := shardOf(key);
      if !(0 <= shard < |shards|) {
        return false;
      }
      var exp := 0;
      if ttl > 0 {
        exp := now + ttl;
      }
      shards := shards[shard := shards[shard][key := Item(value, exp)]];
      ideal := ideal[key := Item(value, exp)];
      return true;
    }

    /** First phase of Get, under the read lock: only reads the entry.  Whenever
        the time is looked at later, either the entry has expired by then or it is
        the timed map's answer for the instant of the read. */
    method ReadPhase(key: string, now: int) returns (ok: bool, item: Option<Item<T>>)
      requires Valid() && clock <= now
      modifies this`clock
      ensures Valid() && clock == now && ideal == old(ideal) && (ok <==> InRange(shardOf, 32, key))
      ensures ok ==> item == if key in shards[shardOf(key)] then Some(shards[shardOf(key)][key]) else None
      ensures ok && item.None? ==> Lookup(ideal, key, now) == Miss
      ensures forall t :: ok && item.Some? && t >= now && !Dead(item.value, t) ==>
                Lookup(ideal, key, now) == Hit(item.value.value)
    {
      clock := now;
      var shard := shardOf(key);
      if !(0 <= shard < |shards|) {
        return false, None;
      }
      if key in shards[shard] {
        return true, Some(shards[shard][key]);
      }
      return true, None;
    }

    /** Second phase, under the write lock, whatever happened since the first. */
    method RecheckPhase(key: string, now: int) returns (r: Reply<T>)
      requires Valid() && clock <= now && InRange(shardOf, 32, key)
      modifies this`shards, this`clock
      ensures Valid() && clock == now && ideal == old(ideal)
      ensures r == Lookup(ideal, key, now)
      ensures var i := shardOf(key);
              shards == if key in old(shards)[i] && Dead(old(shards)[i][key], now)
                        then old(shards)[i := old(shards)[i] - {key}] else old(shards)
    {
      clock := now;
      var shard := shardOf(key);
      if key !in shards[shard] {
        return Miss;
      }
      var item := shards[shard][key];
      if item.expiration > 0 && now > item.expiration {
        shards := shards[shard := shards[shard] - {key}];
        return Miss;
      }
      return Hit(item.value);
    }

    /** Get when no other call comes in between: it reads at `start`, looks
        at the time `now` and, if need be, again at `later`. */
    method GetItem(key: string, start: int, now: int, later: int) returns (ok: bool, r: Reply<T>)
      requires Valid() && clock <= start <= now <= later
      modifies this`shards, this`clock
      ensures Valid() && ideal == old(ideal) && (ok <==> InRange(shardOf, 32, key))
      ensures ok ==> r == Lookup(ideal, key, now)
      ensures !ok ==> shards == old(shards)
      ensures ok ==> var i := shardOf(key);
                     shards == if key in old(shards)[i] && Dead(old(shards)[i][key], now)
                               then old(shards)[i := old(shards)[i] - {key}] else old(shards)
    {
      var item;
      ok, item := ReadPhase(key, start);
      Advance(now);
      r := Silent;
      if ok {
        match item
        case None => r := Miss;
        case Some(it) =>
          if it.expiration > 0 && now > it.expiration {
            r := RecheckPhase(key, later);
          } else {
            r := Hit(it.value);
          }
      }
    }

    method DeleteItem(key: string) returns (ok: bool)
      requires Valid()
      modifies this`shards, this`ideal
      ensures Valid() && (ok <==> InRange(shardOf, 32, key))
      ensures ideal == if ok then old(ideal) - {key} else old(ideal)
    {
      var shard := shardOf(key);
      if !(0 <= shard < |shards|) {
        return false;
      }
      shards := shards[shard := shards[shard] - {key}];
      ideal := ideal - {key};
      return true;
    }

    method Cleanup(now: int)
      requires Valid() && now <= clock
      modifies this`shards
      ensures Valid() && forall i :: 0 <= i < 32 ==> shards[i] == Alive(old(shards)[i], now)
      ensures forall i :: 0 <= i < 32 ==> KeepsUnexpired(old(shards)[i], shards[i], now)
    {
      var i := 0;
      while i < |shards|
        invariant 0 <= i <= |shards| == 32
        invariant forall j :: 0 <= j < 32 ==> shards[j] == if j < i then Alive(old(shards)[j], now) else old(shards)[j]
        invariant forall j :: 0 <= j < i ==> KeepsUnexpired(old(shards)[j], shards[j], now)
      {
        var kept := PurgeLoop(shards[i], now);
        shards := shards[i := kept];
        i := i + 1;
      }
    }
  }
}
