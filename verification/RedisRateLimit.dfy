/** The Redis rate limiter over an abstract sorted-set store.

    One pipeline (trim, add, count, set the time to live) is one atomic step and
    the clock, in milliseconds, never runs backwards. */
module RedisRateLimit {
  /** A sorted-set member "now-seq" with its score; the score is `now` again. */
  datatype Member = Member(score: int, seqNo: nat)

  datatype State = State(zsets: map<string, set<Member>>, expireAt: map<string, int>, seqNo: nat, clock: nat)

  /** `Expire(key)`: the store drops a key whose time to live has run out. */
  datatype Event = Tick(dt: nat) | Request(key: string) | Expire(key: string)

  const INITIAL := State(map[], map[], 0, 0)

  function Zset(s: State, key: string): set<Member> {
    if key in s.zsets then s.zsets[key] else {}
  }

  /** ZREMRANGEBYSCORE key 0 max: both ends are included. */
  function Trim(z: set<Member>, max: int): set<Member> {
    set m | m in z && !(0 <= m.score <= max)
  }

  /** The sorted set right after the pipeline of a request made in state `s`. */
  function AfterRequest(window: nat, s: State, key: string): set<Member> {
    Trim(Zset(s, key), s.clock - window) + {Member(s.clock, s.seqNo + 1)}
  }

  predicate Admits(rate: int, window: nat, s: State, key: string) {
    |AfterRequest(window, s, key)| <= rate
  }

  function Pipeline(window: nat, s: State, key: string): State {
    s.(zsets := s.zsets[key := AfterRequest(window, s, key)],
       expireAt := s.expireAt[key := s.clock + window],
       seqNo := s.seqNo + 1)
  }

  function Step(window: nat, s: State, e: Event): State {
    match e
    case Tick(dt) => s.(clock := s.clock + dt)
    case Request(key) => Pipeline(window, s, key)
    case Expire(key) =>
      if key in s.expireAt && s.expireAt[key] <= s.clock
      then s.(zsets := s.zsets - {key}, expireAt := s.expireAt - {key})
      else s
  }

  function Run(window: nat, evs: seq<Event>): State {
    if evs == [] then INITIAL else Step(window, Run(window, evs[..|evs| - 1]), evs[|evs| - 1])
  }

  /** Every request ever made for `key`, refused ones included. */
  function Requests(window: nat, evs: seq<Event>, key: string): set<Member> {
    if evs == [] then {}
    else
      var before := evs[..|evs| - 1];
      var s := Run(window, before);
      Requests(window, before, key)
      + if evs[|evs| - 1] == Request(key) then {Member(s.clock, s.seqNo + 1)} else {}
  }

  function Between(ms: set<Member>, lo: int, hi: int): set<Member> {
    set m | m in ms && lo < m.score <= hi
  }

  /** The number of requests for `key` at a time in (lo, hi], counted one by one. */
  function CountRequests(window: nat, evs: seq<Event>, key: string, lo: int, hi: int): nat {
    if evs == [] then 0
    else
      var before := evs[..|evs| - 1];
      CountRequests(window, before, key, lo, hi)
      + if evs[|evs| - 1] == Request(key) && lo < Run(window, before).clock <= hi then 1 else 0
  }

  function CountAllowed(rate: int, window: nat, evs: seq<Event>, key: string, lo: int, hi: int): nat {
    if evs == [] then 0
    else
      var before := evs[..|evs| - 1];
      var s := Run(window, before);
      CountAllowed(rate, window, before, key, lo, hi)
      + if evs[|evs| - 1] == Request(key) && Admits(rate, window, s, key) && lo < s.clock <= hi then 1 else 0
  }

  /** No two members collide: sequence numbers only grow. */
  lemma {:induction false} MembersAreOld(window: nat, evs: seq<Event>, key: string)
    ensures forall m :: m in Requests(window, evs, key) ==>
                          0 <= m.score <= Run(window, evs).clock && m.seqNo <= Run(window, evs).seqNo
  {
    if evs != [] {
      MembersAreOld(window, evs[..|evs| - 1], key);
    }
  }

  lemma BetweenAdd(ms: set<Member>, m: Member, lo: int, hi: int)
    requires m !in ms
    ensures |Between(ms + {m}, lo, hi)| == |Between(ms, lo, hi)| + if lo < m.score <= hi then 1 else 0
  {
    if lo < m.score <= hi {
      assert Between(ms + {m}, lo, hi) == Between(ms, lo, hi) + {m};
    } else {
      assert Between(ms + {m}, lo, hi) == Between(ms, lo, hi);
    }
  }

  lemma OneMoreEvent(window: nat, evs: seq<Event>, key: string, lo: int, hi: int)
    requires evs != []
    ensures var before := evs[..|evs| - 1];
            |Between(Requests(window, evs, key), lo, hi)|
            == |Between(Requests(window, before, key), lo, hi)|
               + if evs[|evs| - 1] == Request(key) && lo < Run(window, before).clock <= hi then 1 else 0
  {
    var before := evs[..|evs| - 1];
    var s := Run(window, before);
    if evs[|evs| - 1] == Request(key) {
      MembersAreOld(window, before, key);
      BetweenAdd(Requests(window, before, key), Member(s.clock, s.seqNo + 1), lo, hi);
    } else {
      assert Requests(window, evs, key) == Requests(window, before, key);
    }
  }

  lemma {:induction false} CountIsCardinality(window: nat, evs: seq<Event>, key: string, lo: int, hi: int)
    ensures CountRequests(window, evs, key, lo, hi) == |Between(Requests(window, evs, key), lo, hi)|
  {
    if evs != [] {
      CountIsCardinality(window, evs[..|evs| - 1], key, lo, hi);
      OneMoreEvent(window, evs, key, lo, hi);
    }
  }

  /** The stored set always lies between the requests that are still inside the
      window and all requests. */
  lemma {:induction false} StoredCoversWindow(window: nat, evs: seq<Event>, key: string)
    ensures var s := Run(window, evs);
            && Between(Requests(window, evs, key), s.clock - window, s.clock) <= Zset(s, key)
            && Zset(s, key) <= Requests(window, evs, key)
            && (key in s.zsets ==> key in s.expireAt)
            && (key in s.expireAt ==>
                  forall m :: m in Requests(window, evs, key) ==> m.score <= s.expireAt[key] - window)
  {
    if evs != [] {
      StoredCoversWindow(window, evs[..|evs| - 1], key);
      MembersAreOld(window, evs[..|evs| - 1], key);
    }
  }

  lemma RequestsSnoc(window: nat, evs: seq<Event>, key: string)
    ensures var s := Run(window, evs);
            Requests(window, evs + [Request(key)], key) == Requests(window, evs, key) + {Member(s.clock, s.seqNo + 1)}
  {
    var all := evs + [Request(key)];
    assert all[..|all| - 1] == evs && all[|all| - 1] == Request(key);
  }

  /** Right after a request the set holds exactly the requests newer than the window. */
  lemma StoredIsWindow(window: nat, evs: seq<Event>, key: string)
    requires window >= 1
    ensures var now := Run(window, evs).clock;
            AfterRequest(window, Run(window, evs), key)
            == Between(Requests(window, evs + [Request(key)], key), now - window, now)
  {
    RequestsSnoc(window, evs, key);
    StoredCoversWindow(window, evs, key);
    MembersAreOld(window, evs, key);
  }

  /** What ZCARD returns is the number of requests in the last window. */
  lemma CardinalityIsCount(window: nat, evs: seq<Event>, all: seq<Event>, key: string, now: int)
    requires window >= 1 && all == evs + [Request(key)] && now == Run(window, evs).clock
    ensures |AfterRequest(window, Run(window, evs), key)| == CountRequests(window, all, key, now - window, now)
  {
    StoredIsWindow(window, evs, key);
    CountIsCardinality(window, all, key, now - window, now);
  }

  /** Exact decision: a request is let through if and only if at most `rate`
      requests, itself and the refused ones included, fall in the last window. */
  lemma DecisionIsExact(rate: int, window: nat, evs: seq<Event>, key: string)
    requires window >= 1
    ensures var now := Run(window, evs).clock;
            Admits(rate, window, Run(window, evs), key)
            <==> CountRequests(window, evs + [Request(key)], key, now - window, now) <= rate
  {
    CardinalityIsCount(window, evs, evs + [Request(key)], key, Run(window, evs).clock);
  }

  /** One more request counts as let through exactly when it is one of at most
      `rate` requests of the last window, and its time is in the interval. */
  lemma AllowedAreTheAdmitted(rate: int, window: nat, evs: seq<Event>, key: string, lo: int, hi: int)
    requires window >= 1
    ensures CountAllowed(rate, window, [], key, lo, hi) == 0
    ensures var now, all := Run(window, evs).clock, evs + [Request(key)];
            CountAllowed(rate, window, all, key, lo, hi)
            == CountAllowed(rate, window, evs, key, lo, hi)
               + if CountRequests(window, all, key, now - window, now) <= rate && lo < now <= hi then 1 else 0
  {
    DecisionIsExact(rate, window, evs, key);
    var all := evs + [Request(key)];
    assert all[..|all| - 1] == evs && all[|all| - 1] == Request(key);
  }

  lemma {:induction false} CountMonotone(rate: int, window: nat, evs: seq<Event>, key: string,
                                            lo: int, hi: int, lo': int, hi': int)
    requires lo' <= lo && (hi <= hi' || Run(window, evs).clock <= hi')
    ensures CountAllowed(rate, window, evs, key, lo, hi) <= CountRequests(window, evs, key, lo', hi')
  {
    if evs != [] {
      CountMonotone(rate, window, evs[..|evs| - 1], key, lo, hi, lo', hi');
    }
  }

  lemma LastAllowed(rate: int, window: nat, before: seq<Event>, key: string, lo: int, hi: int)
    requires var s := Run(window, before);
             hi - lo <= window && Admits(rate, window, s, key) && lo < s.clock <= hi
    ensures CountAllowed(rate, window, before + [Request(key)], key, lo, hi) <= rate
  {
    var now, all := Run(window, before).clock, before + [Request(key)];
    assert Run(window, all).clock == now by {
      assert all[..|before|] == before;
    }
    DecisionIsExact(rate, window, before, key);
    CountMonotone(rate, window, all, key, lo, hi, now - window, now);
  }

  /** Main bound: in every run, every half-open interval no longer than the
      window lets through at most `rate` requests. */
  lemma {:induction false} WindowBound(rate: int, window: nat, evs: seq<Event>, key: string, lo: int, hi: int)
    requires hi - lo <= window
    ensures CountAllowed(rate, window, evs, key, lo, hi) <= if rate >= 0 then rate else 0
  {
    if evs != [] {
      var before := evs[..|evs| - 1];
      var s := Run(window, before);
      WindowBound(rate, window, before, key, lo, hi);
      if evs[|evs| - 1] == Request(key) && Admits(rate, window, s, key) && lo < s.clock <= hi {
        assert evs == before + [Request(key)];
        LastAllowed(rate, window, before, key, lo, hi);
      }
    }
  }

  /** Refused requests are stored too: a client whose last `rate` requests, let
      through or not, all lie inside the window is refused again. */
  lemma RefusedRequestsCount(rate: nat, window: nat, evs: seq<Event>, key: string)
    requires window >= 1
    requires var now := Run(window, evs).clock; CountRequests(window, evs, key, now - window, now) >= rate
    ensures !Admits(rate, window, Run(window, evs), key)
  {
    DecisionIsExact(rate, window, evs, key);
    var all := evs + [Request(key)];
    assert all[..|all| - 1] == evs;
  }

  lemma ExactAndBounded(rate: int, window: nat, evs: seq<Event>, key: string)
    ensures var now, all := Run(window, evs).clock, evs + [Request(key)];
            && (window >= 1 ==> (Admits(rate, window, Run(window, evs), key)
                                 <==> CountRequests(window, all, key, now - window, now) <= rate))
            && forall lo, hi :: hi - lo <= window ==>
                 CountAllowed(rate, window, all, key, lo, hi) <= if rate >= 0 then rate else 0
  {
    if window >= 1 {
      DecisionIsExact(rate, window, evs, key);
    }
    forall lo, hi | hi - lo <= window
      ensures CountAllowed(rate, window, evs + [Request(key)], key, lo, hi) <= if rate >= 0 then rate else 0
    {
      WindowBound(rate, window, evs + [Request(key)], key, lo, hi);
    }
  }

  class RedisRateLimiter {
    const rate: int
    const window: nat
    var zsets: map<string, set<Member>>
    var expireAt: map<string, int>
    var seqNo: nat
    ghost var clock: nat
    ghost var history: seq<Event>

    ghost function View(): State
      reads this
    {
      State(zsets, expireAt, seqNo, clock)
    }

    ghost predicate Valid()
      reads this
    {
      View() == Run(window, history)
    }

    constructor (rate: int, window: nat)
      ensures Valid() && history == [] && this.rate == rate && this.window == window
    {
      this.rate, this.window := rate, window;
      zsets, expireAt, seqNo, clock, history := map[], map[], 0, 0, [];
    }

    ghost method Advance(now: nat)
      requires Valid() && clock <= now
      modifies this`clock, this`history
      ensures Valid() && clock == now && history == old(history) + [Tick(now - old(clock))]
    {
      history := history + [Tick(now - clock)];
      clock := now;
      assert history[..|history| - 1] == old(history);
    }

    /** The store drops a key whose time to live has run out. */
    method ExpireKey(key: string)
      requires Valid() && key in expireAt && expireAt[key] <= clock
      modifies this
      ensures Valid() && clock == old(clock) && history == old(history) + [Expire(key)]
      ensures zsets == old(zsets) - {key} && expireAt == old(expireAt) - {key} && seqNo == old(seqNo)
    {
      zsets := zsets - {key};
      expireAt := expireAt - {key};
      history := history + [Expire(key)];
      assert history[..|history| - 1] == old(history);
    }

    /** The four commands of the pipeline, in order. */
    method Exec(key: string, now: nat) returns (count: nat)
      requires clock == now
      modifies this`zsets, this`expireAt, this`seqNo
      ensures View() == Pipeline(window, old(View()), key)
      ensures count == |AfterRequest(window, old(View()), key)|
      ensures expireAt == old(expireAt)[key := now + window] && seqNo == old(seqNo) + 1
    {
      ghost var s := View();
      var windowStart := now - window;
      var z := if key in zsets then zsets[key] else {};
      z := Trim(z, windowStart);
      seqNo := seqNo + 1;
      z := z + {Member(now, seqNo)};
      assert z == AfterRequest(window, s, key);
      count := |z|;
      zsets := zsets[key := z];
      expireAt := expireAt[key := now + window];
    }

    method IsAllowed(key: string, now: nat) returns (allowed: bool)
      requires Valid() && clock <= now
      modifies this
      ensures Valid() && clock == now
      ensures history == old(history) + [Tick(now - old(clock)), Request(key)]
      ensures window >= 1 ==> (allowed <==> CountRequests(window, history, key, now - window, now) <= rate)
      ensures forall lo, hi :: hi - lo <= window ==>
                CountAllowed(rate, window, history, key, lo, hi) <= if rate >= 0 then rate else 0
    {
      Advance(now);
      var count := Exec(key, now);
      allowed := count <= rate;
      ExactAndBounded(rate, window, history, key);
      ghost var all := history + [Request(key)];
      assert all[..|all| - 1] == history;
      history := all;
    }
  }
}
