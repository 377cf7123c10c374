/** The in-memory rate limiter: a per-key counter with a two-phase cleanup.

    Every operation is one atomic step (one critical section).  The clock only
    moves by `Tick`, so any sequence of events is a run. */
module RateLimit {
  datatype Config = Config(rate: int, window: int)

  datatype Visitor = Visitor(count: int, lastSeen: int)

  /** `expired` is the list a cleanup pass carries from its scan (read lock) to
      its delete (write lock); it is empty when no pass is under way. */
  datatype State = State(visitors: map<string, Visitor>, expired: set<string>, clock: int)

  /** `Scan(lag)`: cleanup reads the time before it takes the lock, so the time
      it compares with may be `lag` behind the clock. */
  datatype Event = Tick(dt: nat) | Call(key: string) | Scan(lag: nat) | Delete

  const INITIAL := State(map[], {}, 0)

  predicate LiveAt(cfg: Config, v: Visitor, now: int) {
    now - v.lastSeen <= cfg.window
  }

  predicate HasLive(cfg: Config, s: State, key: string) {
    key in s.visitors && LiveAt(cfg, s.visitors[key], s.clock)
  }

  /** The decision of isAllowed. */
  predicate Admits(cfg: Config, s: State, key: string) {
    HasLive(cfg, s, key) ==> s.visitors[key].count < cfg.rate
  }

  function Expired(cfg: Config, visitors: map<string, Visitor>, now: int): set<string> {
    set k | k in visitors && !LiveAt(cfg, visitors[k], now)
  }

  function Step(cfg: Config, s: State, e: Event): State {
    match e
    case Tick(dt) => s.(clock := s.clock + dt)
    case Call(key) =>
      if !Admits(cfg, s, key) then s
      else
        var n := if HasLive(cfg, s, key) then s.visitors[key].count + 1 else 1;
        s.(visitors := s.visitors[key := Visitor(n, s.clock)])
    case Scan(lag) =>
      // one cleaner: a new pass starts only when the previous one is over
      if s.expired != {} then s else s.(expired := Expired(cfg, s.visitors, s.clock - lag))
    case Delete => s.(visitors := s.visitors - s.expired, expired := {})
  }

  function Run(cfg: Config, evs: seq<Event>): State {
    if evs == [] then INITIAL else Step(cfg, Run(cfg, evs[..|evs| - 1]), evs[|evs| - 1])
  }

  /** Calls for `key` let through at a time in [a, b]. */
  function Allowed(cfg: Config, evs: seq<Event>, key: string, a: int, b: int): nat {
    if evs == [] then 0
    else
      var before := evs[..|evs| - 1];
      var s := Run(cfg, before);
      Allowed(cfg, before, key, a, b)
      + if evs[|evs| - 1] == Call(key) && Admits(cfg, s, key) && a <= s.clock <= b then 1 else 0
  }

  /** Deletions at a time in [a, b] that drop an entry of `key` that had been
      refreshed after the scan and was live again. */
  function LiveDeletions(cfg: Config, evs: seq<Event>, key: string, a: int, b: int): nat {
    if evs == [] then 0
    else
      var before := evs[..|evs| - 1];
      var s := Run(cfg, before);
      LiveDeletions(cfg, before, key, a, b)
      + if evs[|evs| - 1].Delete? && key in s.expired && HasLive(cfg, s, key) && a <= s.clock <= b then 1 else 0
  }

  /** What the limiter really enforces per entry: the first call of an entry is
      let through without looking at the rate. */
  function Cap(cfg: Config): int {
    if cfg.rate >= 1 then cfg.rate else 1
  }

  lemma {:induction false} CountsCapped(cfg: Config, evs: seq<Event>, key: string)
    ensures var s := Run(cfg, evs);
            key in s.visitors ==> && 1 <= s.visitors[key].count <= (if cfg.rate >= 1 then cfg.rate else 1)
                                  && s.visitors[key].lastSeen <= s.clock
  {
    if evs != [] {
      CountsCapped(cfg, evs[..|evs| - 1], key);
    }
  }

  /** The calls of the interval are covered by what the entry of `key` counts
      plus one full allowance if a live entry was thrown away; and after such a
      loss the running or next cleanup pass cannot list the key again before the
      interval ends. */
  ghost predicate Covered(cfg: Config, evs: seq<Event>, key: string, a: int, b: int) {
    var s := Run(cfg, evs);
    var lost := LiveDeletions(cfg, evs, key, a, b);
    && lost <= 1
    && Allowed(cfg, evs, key, a, b) <= Cap(cfg) * (1 + lost)
    && (s.clock <= b ==>
          && Allowed(cfg, evs, key, a, b) <= Cap(cfg) * lost +
             (if key in s.visitors && s.visitors[key].lastSeen >= a then s.visitors[key].count else 0)
          && (lost == 1 ==> a <= s.clock && key !in s.expired && (key in s.visitors ==> s.visitors[key].lastSeen >= a)))
  }

  lemma {:induction false} CoveredAlways(cfg: Config, evs: seq<Event>, key: string, a: int, b: int)
    requires b - a <= cfg.window
    ensures Covered(cfg, evs, key, a, b)
  {
    if evs != [] {
      var before := evs[..|evs| - 1];
      CoveredAlways(cfg, before, key, a, b);
      CountsCapped(cfg, before, key);
      CountsCapped(cfg, evs, key);
    }
  }

  /** Main bound: in every run, an interval no longer than the window lets
      through at most one allowance, plus one more if a cleanup threw away a live
      entry inside it, which happens at most once. */
  lemma {:induction false} IntervalBound(cfg: Config, evs: seq<Event>, key: string, a: int, b: int)
    requires b - a <= cfg.window
    ensures LiveDeletions(cfg, evs, key, a, b) <= 1
    ensures Allowed(cfg, evs, key, a, b)
            <= (if cfg.rate >= 1 then cfg.rate else 1) * (1 + LiveDeletions(cfg, evs, key, a, b))
    ensures Allowed(cfg, evs, key, a, b) <= 2 * if cfg.rate >= 1 then cfg.rate else 1
  {
    CoveredAlways(cfg, evs, key, a, b);
  }

  /** No call for `key` is let through while a pass holds `key` in its list. */
  predicate Undisturbed(cfg: Config, evs: seq<Event>, key: string) {
    evs == [] ||
    var before := evs[..|evs| - 1];
    && Undisturbed(cfg, before, key)
    && !(evs[|evs| - 1] == Call(key) && Admits(cfg, Run(cfg, before), key) && key in Run(cfg, before).expired)
  }

  lemma {:induction false} UndisturbedListedIsStale(cfg: Config, evs: seq<Event>, key: string)
    requires Undisturbed(cfg, evs, key)
    ensures key in Run(cfg, evs).expired ==> !HasLive(cfg, Run(cfg, evs), key)
  {
    if evs != [] {
      UndisturbedListedIsStale(cfg, evs[..|evs| - 1], key);
    }
  }

  /** With no call in the gap between scan and delete, one allowance is the bound. */
  lemma {:induction false} UndisturbedBound(cfg: Config, evs: seq<Event>, key: string, a: int, b: int)
    requires b - a <= cfg.window && Undisturbed(cfg, evs, key)
    ensures LiveDeletions(cfg, evs, key, a, b) == 0
    ensures Allowed(cfg, evs, key, a, b) <= if cfg.rate >= 1 then cfg.rate else 1
  {
    if evs != [] {
      UndisturbedBound(cfg, evs[..|evs| - 1], key, a, b);
      UndisturbedListedIsStale(cfg, evs[..|evs| - 1], key);
    }
    IntervalBound(cfg, evs, key, a, b);
  }

  /** Scan and delete as one step: every scan is followed at once by its delete. */
  predicate AtomicCleanup(evs: seq<Event>) {
    forall i :: 0 <= i < |evs| - 1 && evs[i].Scan? ==> evs[i + 1].Delete?
  }

  lemma {:induction false} AtomicHoldsNothing(cfg: Config, evs: seq<Event>, key: string)
    requires AtomicCleanup(evs)
    ensures Undisturbed(cfg, evs, key)
    ensures Run(cfg, evs).expired != {} ==> evs != [] && evs[|evs| - 1].Scan?
  {
    if evs != [] {
      var before := evs[..|evs| - 1];
      AtomicHoldsNothing(cfg, before, key);
      if before != [] && before[|before| - 1].Scan? {
        assert evs[|before| - 1].Scan?;
      }
    }
  }

  lemma AtomicCleanupBound(cfg: Config, evs: seq<Event>, key: string, a: int, b: int)
    requires b - a <= cfg.window
    requires forall i :: 0 <= i < |evs| - 1 && evs[i].Scan? ==> evs[i + 1].Delete?
    ensures Allowed(cfg, evs, key, a, b) <= if cfg.rate >= 1 then cfg.rate else 1
  {
    AtomicHoldsNothing(cfg, evs, key);
    UndisturbedBound(cfg, evs, key, a, b);
  }

  /** `n` calls of `key`. */
  function Calls(key: string, n: nat): seq<Event> {
    if n == 0 then [] else Calls(key, n - 1) + [Call(key)]
  }

  function BurstPrefix(cfg: Config, key: string): seq<Event>
    requires cfg.window >= 0
  {
    [Call(key), Tick(cfg.window + 1), Scan(0)]
  }

  function Burst(cfg: Config, key: string): seq<Event>
    requires cfg.rate >= 1 && cfg.window >= 0
  {
    BurstPrefix(cfg, key) + Calls(key, cfg.rate) + [Delete] + Calls(key, cfg.rate)
  }

  lemma CallsSnoc(evs: seq<Event>, key: string, n: nat)
    requires n >= 1
    ensures evs + Calls(key, n) == (evs + Calls(key, n - 1)) + [Call(key)]
  {
  }

  function AfterCalls(s: State, key: string, n: nat): State {
    if n == 0 then s else s.(visitors := s.visitors[key := Visitor(n, s.clock)])
  }

  /** `evs'` goes on from `evs` with `n` calls, all let through at one instant. */
  ghost predicate LetThrough(cfg: Config, evs: seq<Event>, evs': seq<Event>, key: string, n: nat, a: int, b: int) {
    && Allowed(cfg, evs', key, a, b) == Allowed(cfg, evs, key, a, b) + n
    && Run(cfg, evs') == AfterCalls(Run(cfg, evs), key, n)
  }

  lemma OneMoreCall(cfg: Config, evs: seq<Event>, evs': seq<Event>, key: string, n: nat, a: int, b: int)
    requires cfg.window >= 0 && n < cfg.rate && a <= Run(cfg, evs).clock <= b
    requires !HasLive(cfg, Run(cfg, evs), key) && LetThrough(cfg, evs, evs', key, n, a, b)
    ensures LetThrough(cfg, evs, evs' + [Call(key)], key, n + 1, a, b)
  {
    var all := evs' + [Call(key)];
    assert all[..|all| - 1] == evs';
  }

  /** `n` more calls within the allowance are all let through at the same instant. */
  lemma {:induction false} CallsLetThrough(cfg: Config, evs: seq<Event>, key: string, n: nat, a: int, b: int)
    requires cfg.window >= 0 && n <= cfg.rate && !HasLive(cfg, Run(cfg, evs), key)
    requires a <= Run(cfg, evs).clock <= b
    ensures LetThrough(cfg, evs, evs + Calls(key, n), key, n, a, b)
  {
    if n == 0 {
      assert evs + Calls(key, n) == evs;
    } else {
      CallsLetThrough(cfg, evs, key, n - 1, a, b);
      OneMoreCall(cfg, evs, evs + Calls(key, n - 1), key, n - 1, a, b);
      CallsSnoc(evs, key, n);
    }
  }

  lemma BurstPrefixRuns(cfg: Config, key: string)
    requires cfg.rate >= 1 && cfg.window >= 0
    ensures var t := cfg.window + 1;
            && Run(cfg, BurstPrefix(cfg, key)) == State(map[key := Visitor(1, 0)], {key}, t)
            && Allowed(cfg, BurstPrefix(cfg, key), key, t, t) == 0
  {
    var t := cfg.window + 1;
    var p1, p2 := [Call(key)], [Call(key), Tick(t)];
    var p := BurstPrefix(cfg, key);
    assert p1[..0] == [] && p2[..1] == p1 && p[..2] == p2;
    assert Run(cfg, p1) == State(map[key := Visitor(1, 0)], {}, 0);
    assert Run(cfg, p2) == State(map[key := Visitor(1, 0)], {}, t);
    assert Expired(cfg, map[key := Visitor(1, 0)], t) == {key};
    assert Allowed(cfg, p1, key, t, t) == 0;
  }

  /** The documented limit of `rate` fails for the two-phase cleanup: for every
      positive rate and every window, a run that lets 2 * rate calls through in a
      single instant. */
  lemma BurstReachesTwice(cfg: Config, key: string)
    requires cfg.rate >= 1 && cfg.window >= 0
    ensures var t := cfg.window + 1;
            && Allowed(cfg, Burst(cfg, key), key, t, t) == 2 * cfg.rate
            && LiveDeletions(cfg, Burst(cfg, key), key, t, t) == 1
  {
    var t := cfg.window + 1;
    var listed := BurstPrefix(cfg, key);
    var refreshed := listed + Calls(key, cfg.rate);
    BurstPrefixRuns(cfg, key);
    CallsLetThrough(cfg, listed, key, cfg.rate, t, t);
    CallsLetThrough(cfg, refreshed + [Delete], key, cfg.rate, t, t);
    TwiceNeedsLoss(cfg, Burst(cfg, key), key, t);
  }

  lemma TwiceNeedsLoss(cfg: Config, evs: seq<Event>, key: string, t: int)
    requires cfg.rate >= 1 && cfg.window >= 0 && Allowed(cfg, evs, key, t, t) == 2 * cfg.rate
    ensures LiveDeletions(cfg, evs, key, t, t) == 1
  {
    IntervalBound(cfg, evs, key, t, t);
  }

  /** A pass lists exactly the keys not seen within the window before the time it
      read, and its delete drops exactly those. */
  lemma PassDropsIdle(cfg: Config, s: State, lag: nat, key: string)
    requires s.expired == {}
    ensures var listed := Step(cfg, s, Scan(lag));
            && listed.visitors == s.visitors
            && (key in listed.expired
                <==> key in s.visitors && s.clock - lag - s.visitors[key].lastSeen > cfg.window)
            && Step(cfg, listed, Delete).visitors == s.visitors - listed.expired
            && Step(cfg, listed, Delete).expired == {}
  {
  }

  // When exactly the limit breaks

  /** A delete and then `n` calls, all at one instant. */
  function DeleteThenCalls(evs: seq<Event>, key: string, n: nat): seq<Event> {
    evs + [Delete] + Calls(key, n)
  }

  lemma {:induction false} LastCallWasLetThrough(cfg: Config, evs: seq<Event>, key: string)
    ensures var s := Run(cfg, evs);
            key in s.visitors ==>
              && s.visitors[key].lastSeen <= s.clock
              && Allowed(cfg, evs, key, s.visitors[key].lastSeen, s.clock) >= 1
  {
    if evs != [] {
      var before := evs[..|evs| - 1];
      var s, s' := Run(cfg, before), Run(cfg, evs);
      LastCallWasLetThrough(cfg, before, key);
      if key in s'.visitors && key in s.visitors && s'.visitors[key] == s.visitors[key] {
        var seen := s.visitors[key].lastSeen;
        AllowedMonotone(cfg, before, key, seen, s.clock, seen, s'.clock);
      }
    }
  }

  lemma {:induction false} LossesMonotone(cfg: Config, evs: seq<Event>, key: string, a: int, b: int, a': int)
    requires a' <= a
    ensures LiveDeletions(cfg, evs, key, a, b) <= LiveDeletions(cfg, evs, key, a', b)
  {
    if evs != [] {
      LossesMonotone(cfg, evs[..|evs| - 1], key, a, b, a');
    }
  }

  lemma {:induction false} CallsLoseNothing(cfg: Config, evs: seq<Event>, key: string, n: nat, a: int, b: int)
    ensures LiveDeletions(cfg, evs + Calls(key, n), key, a, b) == LiveDeletions(cfg, evs, key, a, b)
  {
    if n == 0 {
      assert evs + Calls(key, n) == evs;
    } else {
      var fewer := evs + Calls(key, n - 1);
      CallsLoseNothing(cfg, evs, key, n - 1, a, b);
      CallsSnoc(evs, key, n);
      assert (fewer + [Call(key)])[..|fewer|] == fewer;
    }
  }

  lemma HarmlessDelete(cfg: Config, evs: seq<Event>, key: string, n: nat, a: int)
    requires cfg.rate >= 1
    requires var s := Run(cfg, evs);
             && s.clock - cfg.window <= a <= s.clock && !(key in s.expired && HasLive(cfg, s, key))
             && LiveDeletions(cfg, evs, key, s.clock - cfg.window, s.clock) == 0
    ensures Allowed(cfg, DeleteThenCalls(evs, key, n), key, a, Run(cfg, evs).clock) <= cfg.rate
  {
    var now := Run(cfg, evs).clock;
    LossesMonotone(cfg, evs, key, a, now, now - cfg.window);
    CallsLoseNothing(cfg, evs + [Delete], key, n, a, now);
    IntervalBound(cfg, DeleteThenCalls(evs, key, n), key, a, now);
  }

  lemma HarmfulDelete(cfg: Config, evs: seq<Event>, key: string)
    requires cfg.rate >= 1 && cfg.window >= 0
    requires key in Run(cfg, evs).expired && HasLive(cfg, Run(cfg, evs), key)
    ensures var s := Run(cfg, evs);
            && s.clock - cfg.window <= s.visitors[key].lastSeen <= s.clock
            && Allowed(cfg, DeleteThenCalls(evs, key, cfg.rate), key, s.visitors[key].lastSeen, s.clock) > cfg.rate
  {
    var s := Run(cfg, evs);
    var seen := s.visitors[key].lastSeen;
    LastCallWasLetThrough(cfg, evs, key);
    CallsLetThrough(cfg, evs + [Delete], key, cfg.rate, seen, s.clock);
  }

  /** The exact condition: as long as no live entry of `key` has been thrown away
      within the window, a delete lets calls break the limit of `rate` if and only
      if it is about to throw one away, that is, if it lists the key and the key
      has a live entry again.  This is the check that is not made under the write
      lock. */
  lemma LimitBreaksIff(cfg: Config, evs: seq<Event>, key: string)
    requires cfg.rate >= 1 && cfg.window >= 0
    requires var now := Run(cfg, evs).clock; LiveDeletions(cfg, evs, key, now - cfg.window, now) == 0
    ensures var s := Run(cfg, evs);
            (exists n: nat, a :: s.clock - cfg.window <= a <= s.clock
                                 && Allowed(cfg, DeleteThenCalls(evs, key, n), key, a, s.clock) > cfg.rate)
            <==> key in s.expired && HasLive(cfg, s, key)
  {
    var s := Run(cfg, evs);
    if key in s.expired && HasLive(cfg, s, key) {
      HarmfulDelete(cfg, evs, key);
    } else {
      forall n: nat, a | s.clock - cfg.window <= a <= s.clock
        ensures Allowed(cfg, DeleteThenCalls(evs, key, n), key, a, s.clock) <= cfg.rate
      {
        HarmlessDelete(cfg, evs, key, n, a);
      }
    }
  }

  lemma {:induction false} AllowedMonotone(cfg: Config, evs: seq<Event>, key: string, a: int, b: int, a': int, b': int)
    requires a' <= a && b <= b'
    ensures Allowed(cfg, evs, key, a, b) <= Allowed(cfg, evs, key, a', b')
  {
    if evs != [] {
      AllowedMonotone(cfg, evs[..|evs| - 1], key, a, b, a', b');
    }
  }

  /** The earliest time at which the calls behind an entry can have begun. */
  function Since(cfg: Config, v: Visitor): int {
    v.lastSeen - (v.count - 1) * cfg.window
  }

  lemma SinceStep(cfg: Config, v: Visitor, now: int)
    requires LiveAt(cfg, v, now)
    ensures Since(cfg, Visitor(v.count + 1, now)) <= Since(cfg, v)
  {
    assert v.count * cfg.window == (v.count - 1) * cfg.window + cfg.window;
  }

  lemma {:induction false} CountIsBacked(cfg: Config, evs: seq<Event>, key: string)
    ensures var s := Run(cfg, evs);
            key in s.visitors ==>
              Allowed(cfg, evs, key, Since(cfg, s.visitors[key]), s.clock) >= s.visitors[key].count
  {
    if evs != [] {
      var before := evs[..|evs| - 1];
      var s, s' := Run(cfg, before), Run(cfg, evs);
      CountIsBacked(cfg, before, key);
      CountsCapped(cfg, before, key);
      if key in s'.visitors {
        var v' := s'.visitors[key];
        if key in s.visitors && v' == s.visitors[key] && evs[|evs| - 1] != Call(key) {
          AllowedMonotone(cfg, before, key, Since(cfg, v'), s.clock, Since(cfg, v'), s'.clock);
        } else {
          CallIsBacked(cfg, before, key);
          assert evs == before + [Call(key)];
        }
      }
    }
  }

  lemma CallIsBacked(cfg: Config, before: seq<Event>, key: string)
    requires var s := Run(cfg, before);
             key in s.visitors ==>
               && 1 <= s.visitors[key].count && s.visitors[key].lastSeen <= s.clock
               && Allowed(cfg, before, key, Since(cfg, s.visitors[key]), s.clock) >= s.visitors[key].count
    ensures var s' := Run(cfg, before + [Call(key)]);
            && key in s'.visitors
            && Allowed(cfg, before + [Call(key)], key, Since(cfg, s'.visitors[key]), s'.clock) >= s'.visitors[key].count
  {
    var s, evs := Run(cfg, before), before + [Call(key)];
    assert evs[..|evs| - 1] == before;
    if HasLive(cfg, s, key) && Admits(cfg, s, key) {
      var v := s.visitors[key];
      var v' := Visitor(v.count + 1, s.clock);
      SinceStep(cfg, v, s.clock);
      AllowedMonotone(cfg, before, key, Since(cfg, v), s.clock, Since(cfg, v'), s.clock);
      SinceBound(cfg, v', s.clock);
    }
  }

  lemma SinceBound(cfg: Config, v: Visitor, now: int)
    requires v.count >= 1 && v.lastSeen <= now && cfg.window >= 0
    ensures Since(cfg, v) <= now
  {
  }

  lemma SinceOfFull(cfg: Config, v: Visitor, now: int)
    requires v.count == cfg.rate && LiveAt(cfg, v, now)
    ensures Since(cfg, v) >= now - cfg.rate * cfg.window
  {
    assert (v.count - 1) * cfg.window == cfg.rate * cfg.window - cfg.window;
  }

  /** No call is refused without cause: when one is, `rate` calls were let
      through within the last `rate` windows. */
  lemma DeniedOnlyAfterRate(cfg: Config, evs: seq<Event>, key: string)
    requires !Admits(cfg, Run(cfg, evs), key) && cfg.rate >= 0
    ensures var now := Run(cfg, evs).clock;
            Allowed(cfg, evs, key, now - cfg.rate * cfg.window, now) >= cfg.rate
  {
    var s := Run(cfg, evs);
    var v := s.visitors[key];
    CountIsBacked(cfg, evs, key);
    CountsCapped(cfg, evs, key);
    if cfg.rate >= 1 {
      SinceOfFull(cfg, v, s.clock);
      AllowedMonotone(cfg, evs, key, Since(cfg, v), s.clock, s.clock - cfg.rate * cfg.window, s.clock);
    }
  }

  /** The limiter object.  `history` lists the critical sections entered so far. */
  class RateLimiter {
    const rate: int
    const window: int
    var visitors: map<string, Visitor>
    ghost var expired: set<string>
    ghost var clock: int
    ghost var history: seq<Event>

    ghost function Cfg(): Config {
      Config(rate, window)
    }

    ghost function View(): State
      reads this
    {
      State(visitors, expired, clock)
    }

    ghost predicate Valid()
      reads this
    {
      View() == Run(Cfg(), history)
    }

    constructor (rate: int, window: int)
      ensures Valid() && history == [] && this.rate == rate && this.window == window
    {
      this.rate := rate;
      this.window := window;
      visitors := map[];
      expired := {};
      clock := 0;
      history := [];
    }

    ghost method Advance(now: int)
      requires Valid() && clock <= now
      modifies this`clock, this`history
      ensures Valid() && clock == now && history == old(history) + [Tick(now - old(clock))]
    {
      history := history + [Tick(now - clock)];
      clock := now;
      assert history[..|history| - 1] == old(history);
    }

    /** isAllowed: besides implementing its step it keeps the interval bound. */
    method IsAllowed(ip: string, now: int) returns (allowed: bool)
      requires Valid() && clock <= now
      modifies this`visitors, this`clock, this`history
      ensures Valid() && clock == now && expired == old(expired)
      ensures history == old(history) + [Tick(now - old(clock)), Call(ip)]
      ensures allowed == Admits(Cfg(), old(View()).(clock := now), ip)
      ensures forall a, b :: b - a <= window ==> Allowed(Cfg(), history, ip, a, b) <= 2 * Cap(Cfg())
    {
      Advance(now);
      ghost var before := history;
      if ip in visitors && now - visitors[ip].lastSeen <= window {
        var v := visitors[ip];
        if v.count >= rate {
          allowed := false;
        } else {
          v := v.(count := v.count + 1);
          v := v.(lastSeen := now);
          visitors := visitors[ip := v];
          allowed := true;
        }
      } else {
        visitors := visitors[ip := Visitor(1, now)];
        allowed := true;
      }
      history := history + [Call(ip)];
      assert history[..|history| - 1] == before;
      forall a, b | b - a <= window
        ensures Allowed(Cfg(), history, ip, a, b) <= 2 * Cap(Cfg())
      {
        IntervalBound(Cfg(), history, ip, a, b);
      }
    }

    /** First half of cleanup, under the read lock; `now` was read earlier. */
    method CleanupScan(now: int) returns (stale: seq<string>)
      requires Valid() && expired == {} && now <= clock
      modifies this`expired, this`history
      ensures Valid() && clock == old(clock) && history == old(history) + [Scan(clock - now)]
      ensures expired == (set k | k in stale) == Expired(Cfg(), visitors, now)
      ensures forall k :: k in stale <==> k in visitors && now - visitors[k].lastSeen > window
      ensures forall i, j :: 0 <= i < j < |stale| ==> stale[i] != stale[j]
    {
      stale := [];
      var todo := visitors.Keys;
      while todo != {}
        invariant todo <= visitors.Keys
        invariant forall k :: k in stale <==> k in visitors && k !in todo && !LiveAt(Cfg(), visitors[k], now)
        invariant forall i, j :: 0 <= i < j < |stale| ==> stale[i] != stale[j]
        decreases todo
      {
        var ip :| ip in todo;
        if now - visitors[ip].lastSeen > window {
          stale := stale + [ip];
        }
        todo := todo - {ip};
      }
      expired := set k | k in stale;
      assert expired == Expired(Cfg(), visitors, now);
      history := history + [Scan(clock - now)];
      assert history[..|history| - 1] == old(history);
    }

    /** Second half of cleanup, under the write lock: no entry is looked at again. */
    method CleanupDelete(stale: seq<string>)
      requires Valid() && expired == set k | k in stale
      modifies this`visitors, this`expired, this`history
      ensures Valid() && clock == old(clock) && history == old(history) + [Delete]
      ensures visitors == old(visitors) - (set k | k in stale) && expired == {}
    {
      for i := 0 to |stale|
        invariant visitors == old(visitors) - (set k | k in stale[..i])
        invariant expired == old(expired) && clock == old(clock) && history == old(history)
      {
        assert stale[..i + 1] == stale[..i] + [stale[i]];
        visitors := visitors - {stale[i]};
      }
      assert stale[..|stale|] == stale;
      expired := {};
      history := history + [Delete];
      assert history[..|history| - 1] == old(history);
    }
  }
}
