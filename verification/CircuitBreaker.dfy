/** The circuit breaker: three states, counters and a timer.  Each method body is
    one critical section, so callers interleave between methods only. */
module CircuitBreaker {
  datatype BreakerState = Closed | HalfOpen | Open

  datatype Config = Config(maxFailures: int, resetTimeout: int, halfOpenMax: int)

  datatype State = State(state: BreakerState, failures: int, successes: int, halfOpenCount: int,
                         lastFailureTime: int, clock: int)

  datatype Event = Tick(dt: nat) | Allow | Success | Failure | Reset

  const INITIAL := State(Closed, 0, 0, 0, 0, 0)
  const DEFAULT_TIMEOUT := 30_000_000_000

  /** NewCircuitBreaker replaces non-positive settings. */
  function Normalize(c: Config): (n: Config)
    ensures if c.maxFailures >= 1 then n.maxFailures == c.maxFailures else n.maxFailures == 1
    ensures if c.resetTimeout >= 1 then n.resetTimeout == c.resetTimeout else n.resetTimeout == 30_000_000_000
    ensures if c.halfOpenMax >= 1 then n.halfOpenMax == c.halfOpenMax else n.halfOpenMax == 1
  {
    Config(if c.maxFailures <= 0 then 1 else c.maxFailures,
           if c.resetTimeout <= 0 then DEFAULT_TIMEOUT else c.resetTimeout,
           if c.halfOpenMax <= 0 then 1 else c.halfOpenMax)
  }

  predicate Admits(c: Config, s: State) {
    match s.state
    case Closed => true
    case Open => s.clock - s.lastFailureTime > c.resetTimeout
    case HalfOpen => s.halfOpenCount < c.halfOpenMax
  }

  function Step(c: Config, s: State, e: Event): State {
    match e
    case Tick(dt) => s.(clock := s.clock + dt)
    case Allow =>
      if !Admits(c, s) || s.state.Closed? then s
      else if s.state.Open? then s.(state := HalfOpen, halfOpenCount := 1, successes := 0)
      else s.(halfOpenCount := s.halfOpenCount + 1)
    case Success =>
      var t := s.(successes := s.successes + 1);
      if s.state.HalfOpen? && s.halfOpenCount >= c.halfOpenMax then
        t.(state := Closed, failures := 0, halfOpenCount := 0)
      else if s.state.Closed? then t.(failures := 0)
      else t
    case Failure =>
      var t := s.(failures := s.failures + 1, lastFailureTime := s.clock);
      if s.state.HalfOpen? || (s.state.Closed? && t.failures >= c.maxFailures) then
        t.(state := Open, halfOpenCount := 0)
      else t
    case Reset => s.(state := Closed, failures := 0, successes := 0, halfOpenCount := 0)
  }

  function RunFrom(c: Config, s: State, evs: seq<Event>): State {
    if evs == [] then s else Step(c, RunFrom(c, s, evs[..|evs| - 1]), evs[|evs| - 1])
  }

  function Run(cfg: Config, evs: seq<Event>): State {
    RunFrom(Normalize(cfg), INITIAL, evs)
  }

  // Independent readings of a run

  /** Failures recorded since the last recorded success or Reset. */
  function Streak(evs: seq<Event>): nat {
    if evs == [] then 0
    else match evs[|evs| - 1]
      case Success => 0
      case Reset => 0
      case Failure => Streak(evs[..|evs| - 1]) + 1
      case _ => Streak(evs[..|evs| - 1])
  }

  function Elapsed(evs: seq<Event>): nat {
    if evs == [] then 0
    else Elapsed(evs[..|evs| - 1]) + if evs[|evs| - 1].Tick? then evs[|evs| - 1].dt else 0
  }

  /** The time of the latest recorded failure, if there was one. */
  function LatestFailure(evs: seq<Event>): (t: int)
    ensures -1 <= t <= Elapsed(evs)
  {
    if evs == [] then -1
    else if evs[|evs| - 1].Failure? then Elapsed(evs)
    else LatestFailure(evs[..|evs| - 1])
  }

  /** Calls admitted in the half-open episode the run ends in, the call that
      opened it included; 0 outside an episode. */
  function EpisodeAdmits(cfg: Config, evs: seq<Event>): nat {
    if evs == [] || !Run(cfg, evs).state.HalfOpen? then 0
    else
      var before := evs[..|evs| - 1];
      EpisodeAdmits(cfg, before)
      + if evs[|evs| - 1].Allow? && Admits(Normalize(cfg), Run(cfg, before)) then 1 else 0
  }

  /** Successes recorded since the last half-open episode began or the last Reset. */
  function SuccessesSince(cfg: Config, evs: seq<Event>): nat {
    if evs == [] then 0
    else
      var before := evs[..|evs| - 1];
      match evs[|evs| - 1]
      case Success => SuccessesSince(cfg, before) + 1
      case Reset => 0
      case Allow =>
        if Run(cfg, before).state.Open? && Run(cfg, evs).state.HalfOpen? then 0 else SuccessesSince(cfg, before)
      case _ => SuccessesSince(cfg, before)
  }

  lemma {:induction false} SuccessesMatch(cfg: Config, evs: seq<Event>)
    ensures Run(cfg, evs).successes == SuccessesSince(cfg, evs)
  {
    if evs != [] {
      SuccessesMatch(cfg, evs[..|evs| - 1]);
    }
  }

  /** The sharp shape of every reachable state. */
  lemma {:induction false} ReachableShape(cfg: Config, evs: seq<Event>)
    ensures var c, s := Normalize(cfg), Run(cfg, evs);
            && (s.state.Closed? <==> s.failures < c.maxFailures)
            && (if s.state.HalfOpen? then 1 <= s.halfOpenCount <= c.halfOpenMax else s.halfOpenCount == 0)
            && (s.state.Closed? ==> s.failures == Streak(evs))
            && s.clock == Elapsed(evs)
            && (!s.state.Closed? ==> s.lastFailureTime == LatestFailure(evs) >= 0)
            && s.halfOpenCount == EpisodeAdmits(cfg, evs)
  {
    if evs != [] {
      ReachableShape(cfg, evs[..|evs| - 1]);
      LatestFailureSurvives(cfg, evs);
    }
  }

  lemma {:induction false} LatestFailureSurvives(cfg: Config, evs: seq<Event>)
    ensures LatestFailure(evs) >= 0 ==> Run(cfg, evs).lastFailureTime == LatestFailure(evs)
    ensures Run(cfg, evs).clock == Elapsed(evs)
  {
    if evs != [] {
      LatestFailureSurvives(cfg, evs[..|evs| - 1]);
    }
  }

  /** A closed breaker trips on exactly the maxFailures-th failure in a row, and
      on nothing else. */
  lemma TripsExactly(cfg: Config, evs: seq<Event>, e: Event)
    requires Run(cfg, evs).state.Closed?
    ensures !Run(cfg, evs + [e]).state.Closed? <==> e.Failure? && Streak(evs + [e]) == Normalize(cfg).maxFailures
    ensures Run(cfg, evs + [e]).state.Closed? || Run(cfg, evs + [e]).state.Open?
  {
    var all := evs + [e];
    assert all[..|all| - 1] == evs;
    ReachableShape(cfg, evs);
    ReachableShape(cfg, all);
  }

  /** One half-open episode admits at most halfOpenMax calls. */
  lemma EpisodeBound(cfg: Config, evs: seq<Event>)
    ensures EpisodeAdmits(cfg, evs) <= Normalize(cfg).halfOpenMax
  {
    ReachableShape(cfg, evs);
  }

  /** An open breaker admits a call only when more than the reset timeout has
      passed since the latest recorded failure. */
  lemma AdmittedFromOpenOnlyAfterTimeout(cfg: Config, evs: seq<Event>)
    requires Run(cfg, evs).state.Open?
    ensures Admits(Normalize(cfg), Run(cfg, evs))
            <==> Elapsed(evs) - LatestFailure(evs) > Normalize(cfg).resetTimeout && LatestFailure(evs) >= 0
  {
    ReachableShape(cfg, evs);
  }

  lemma {:induction false} RunSplit(c: Config, s: State, evs: seq<Event>, more: seq<Event>)
    ensures RunFrom(c, s, evs + more) == RunFrom(c, RunFrom(c, s, evs), more)
  {
    if more == [] {
      assert evs + more == evs;
    } else {
      var all := evs + more;
      assert all[..|all| - 1] == evs + more[..|more| - 1];
      RunSplit(c, s, evs, more[..|more| - 1]);
    }
  }

  /** Quiet period: once open, whatever happens short of Reset, the breaker stays
      open and admits nothing until the timeout after the failure has passed. */
  lemma {:induction false} QuietPeriod(c: Config, s: State, more: seq<Event>)
    requires s.state.Open? && s.lastFailureTime <= s.clock
    requires Reset !in more
    requires RunFrom(c, s, more).clock <= s.lastFailureTime + c.resetTimeout
    ensures var t := RunFrom(c, s, more);
            t.state.Open? && !Admits(c, t) && s.lastFailureTime <= t.lastFailureTime <= t.clock
  {
    if more != [] {
      QuietPeriod(c, s, more[..|more| - 1]);
    }
  }

  // Sequential use

  /** Execute with a function that returns: admission, then the outcome. */
  function Execute(c: Config, s: State, fails: bool): State {
    if !Admits(c, s) then s else Step(c, Step(c, s, Allow), if fails then Failure else Success)
  }

  function Probes(c: Config, s: State, n: nat): State {
    if n == 0 then s else Execute(c, Probes(c, s, n - 1), false)
  }

  lemma {:induction false} ProbesShape(c: Config, s: State, n: nat)
    requires s.state.Open? && Admits(c, s) && c.halfOpenMax >= 1 && n >= 1
    ensures var t := Probes(c, s, n);
            if n < c.halfOpenMax then t.state == HalfOpen && t.halfOpenCount == n
            else t.state == Closed && t.failures == 0 && t.halfOpenCount == 0
  {
    if n > 1 {
      ProbesShape(c, s, n - 1);
    } else {
      assert Probes(c, s, 0) == s;
    }
  }

  /** Sequential probes close the breaker after exactly halfOpenMax successes in
      a row, and one failing probe before that opens it again. */
  lemma SequentialProbes(c: Config, s: State, n: nat)
    requires s.state.Open? && Admits(c, s) && c.halfOpenMax >= 1
    ensures Probes(c, s, n).state.Closed? <==> n >= c.halfOpenMax
    ensures n < c.halfOpenMax ==> Execute(c, Probes(c, s, n), true).state.Open?
  {
    if n >= 1 {
      ProbesShape(c, s, n);
    }
  }

  // Concurrent use

  lemma {:induction false} AdmitAll(c: Config, s: State, n: nat)
    requires s.state.Open? && Admits(c, s) && 1 <= n <= c.halfOpenMax
    ensures RunFrom(c, s, seq(n, _ => Allow)) == s.(state := HalfOpen, successes := 0, halfOpenCount := n)
  {
    var evs := seq(n, _ => Allow);
    assert evs[..n - 1] == seq(n - 1, _ => Allow);
    if n > 1 {
      AdmitAll(c, s, n - 1);
    }
  }

  /** A full episode whose probes never report (they panicked) admits nothing any
      more, however long callers wait: only a late report or Reset gets it out. */
  lemma {:induction false} SilentEpisodeStaysShut(c: Config, s: State, more: seq<Event>)
    requires s.state.HalfOpen? && s.halfOpenCount >= c.halfOpenMax
    requires forall e :: e in more ==> e.Tick? || e.Allow?
    ensures var t := RunFrom(c, s, more);
            t.state.HalfOpen? && t.halfOpenCount == s.halfOpenCount && !Admits(c, t)
  {
    if more != [] {
      SilentEpisodeStaysShut(c, s, more[..|more| - 1]);
    }
  }

  /** What gets a full episode moving: a report, late or not, or Reset. */
  predicate Unblocks(e: Event) {
    e.Success? || e.Failure? || e.Reset?
  }

  lemma {:induction false} FirstUnblock(more: seq<Event>) returns (k: nat)
    requires exists e :: e in more && Unblocks(e)
    ensures k < |more| && Unblocks(more[k]) && forall j :: 0 <= j < k ==> !Unblocks(more[j])
  {
    if Unblocks(more[0]) {
      k := 0;
    } else {
      assert more == [more[0]] + more[1..];
      var rest := FirstUnblock(more[1..]);
      k := rest + 1;
      assert forall j :: 1 <= j < k ==> more[j] == more[1..][j - 1];
    }
  }

  /** Right after such an event the breaker admits a call: at once, or once the
      timeout has passed. */
  lemma UnblockedAdmits(c: Config, s: State, evs: seq<Event>, e: Event, dt: nat)
    requires Unblocks(e) && RunFrom(c, s, evs).state.HalfOpen?
    requires RunFrom(c, s, evs).halfOpenCount >= c.halfOpenMax && dt > c.resetTimeout
    ensures Admits(c, RunFrom(c, s, evs + [e] + [Tick(dt)]))
  {
    var one := evs + [e];
    assert one[..|evs|] == evs && (one + [Tick(dt)])[..|one|] == one;
  }

  lemma WaitingDoesNotHelp(c: Config, s: State, evs: seq<Event>, dt: nat)
    requires s.state.HalfOpen? && s.halfOpenCount >= c.halfOpenMax
    requires forall e :: e in evs ==> !Unblocks(e)
    ensures !Admits(c, RunFrom(c, s, evs + [Tick(dt)]))
  {
    SilentEpisodeStaysShut(c, s, evs + [Tick(dt)]);
  }

  /** A full episode admits another call at some point of what follows, after
      any wait, if and only if a report arrives, from whatever call, or Reset is
      called. */
  lemma FullEpisodeAdmitsIff(c: Config, s: State, more: seq<Event>)
    requires s.state.HalfOpen? && s.halfOpenCount >= c.halfOpenMax
    ensures (exists k: nat, dt: nat :: k <= |more| && Admits(c, RunFrom(c, s, more[..k] + [Tick(dt)])))
            <==> exists e :: e in more && Unblocks(e)
  {
    if exists e :: e in more && Unblocks(e) {
      var k := FirstUnblock(more);
      var dt: nat := if c.resetTimeout >= 0 then c.resetTimeout + 1 else 0;
      SilentEpisodeStaysShut(c, s, more[..k]);
      UnblockedAdmits(c, s, more[..k], more[k], dt);
      assert more[..k + 1] == more[..k] + [more[k]];
    } else {
      forall k: nat, dt: nat | k <= |more| ensures !Admits(c, RunFrom(c, s, more[..k] + [Tick(dt)])) {
        WaitingDoesNotHelp(c, s, more[..k], dt);
      }
    }
  }

  /** A success closes a half-open breaker if and only if the allowance is used
      up, whoever reports it and whoever else has reported. */
  lemma SuccessClosesIff(cfg: Config, evs: seq<Event>)
    requires Run(cfg, evs).state.HalfOpen?
    ensures Run(cfg, evs + [Success]).state.Closed? <==> EpisodeAdmits(cfg, evs) == Normalize(cfg).halfOpenMax
  {
    ReachableShape(cfg, evs);
    assert (evs + [Success])[..|evs|] == evs;
  }

  // Whose report it is.  The breaker does not know which call reports; here every
  // request and report carries its call.

  /** `call` means nothing for Tick and Reset. */
  datatype Tagged = Tagged(event: Event, call: nat)

  function Events(ts: seq<Tagged>): (evs: seq<Event>)
    ensures |evs| == |ts|
  {
    seq(|ts|, i requires 0 <= i < |ts| => ts[i].event)
  }

  function After(cfg: Config, ts: seq<Tagged>): State {
    if ts == [] then INITIAL else Step(Normalize(cfg), After(cfg, ts[..|ts| - 1]), ts[|ts| - 1].event)
  }

  /** The calls make no difference to the breaker. */
  lemma {:induction false} AfterIsRun(cfg: Config, ts: seq<Tagged>)
    ensures After(cfg, ts) == Run(cfg, Events(ts))
  {
    if ts != [] {
      AfterIsRun(cfg, ts[..|ts| - 1]);
      assert Events(ts)[..|ts| - 1] == Events(ts[..|ts| - 1]);
    }
  }

  /** Every request is a call of its own. */
  ghost predicate OwnCalls(ts: seq<Tagged>) {
    forall i, j :: 0 <= i < j < |ts| && ts[i].event.Allow? && ts[j].event.Allow? ==> ts[i].call != ts[j].call
  }

  predicate Reports(t: Tagged) {
    t.event.Success? || t.event.Failure?
  }

  /** The calls admitted in the half-open episode the run ends in that have not
      reported since. */
  function ProbesOut(cfg: Config, ts: seq<Tagged>): set<nat> {
    if ts == [] || !After(cfg, ts).state.HalfOpen? then {}
    else
      var before, t := ts[..|ts| - 1], ts[|ts| - 1];
      if t.event.Allow? && Admits(Normalize(cfg), After(cfg, before)) then ProbesOut(cfg, before) + {t.call}
      else if Reports(t) then ProbesOut(cfg, before) - {t.call}
      else ProbesOut(cfg, before)
  }

  /** The successes of that episode reported by its own probes. */
  function OwnReports(cfg: Config, ts: seq<Tagged>): nat {
    if ts == [] || !After(cfg, ts).state.HalfOpen? then 0
    else
      var before, t := ts[..|ts| - 1], ts[|ts| - 1];
      OwnReports(cfg, before) + if t.event.Success? && t.call in ProbesOut(cfg, before) then 1 else 0
  }

  lemma AfterSnoc(cfg: Config, ts: seq<Tagged>, t: Tagged)
    ensures After(cfg, ts + [t]) == Step(Normalize(cfg), After(cfg, ts), t.event)
  {
    assert (ts + [t])[..|ts|] == ts;
  }

  lemma {:induction false} ProbesWereRequests(cfg: Config, ts: seq<Tagged>, d: nat)
    requires d in ProbesOut(cfg, ts)
    ensures exists i :: 0 <= i < |ts| && ts[i] == Tagged(Allow, d)
  {
    var n := |ts| - 1;
    if d in ProbesOut(cfg, ts[..n]) {
      ProbesWereRequests(cfg, ts[..n], d);
      var i :| 0 <= i < n && ts[..n][i] == Tagged(Allow, d);
      assert ts[i] == Tagged(Allow, d);
    } else {
      assert ts[n] == Tagged(Allow, d);
    }
  }

  lemma EpisodeSnoc(cfg: Config, ts: seq<Tagged>, t: Tagged)
    ensures EpisodeAdmits(cfg, Events(ts + [t]))
            == if !After(cfg, ts + [t]).state.HalfOpen? then 0
               else EpisodeAdmits(cfg, Events(ts))
                    + if t.event.Allow? && Admits(Normalize(cfg), After(cfg, ts)) then 1 else 0
  {
    AfterIsRun(cfg, ts + [t]);
    AfterIsRun(cfg, ts);
    assert Events(ts + [t]) == Events(ts) + [t.event];
    assert (Events(ts) + [t.event])[..|ts|] == Events(ts);
  }

  lemma NotYetRequested(ts: seq<Tagged>, t: Tagged)
    requires OwnCalls(ts + [t]) && t.event.Allow?
    ensures !exists i :: 0 <= i < |ts| && ts[i] == Tagged(Allow, t.call)
  {
    var all := ts + [t];
    forall i | 0 <= i < |ts| ensures ts[i] != Tagged(Allow, t.call) {
      assert all[i] == ts[i] && all[|ts|] == t;
    }
  }

  lemma ProbesSnoc(cfg: Config, ts: seq<Tagged>, t: Tagged)
    requires OwnCalls(ts + [t]) && After(cfg, ts + [t]).state.HalfOpen?
    ensures |ProbesOut(cfg, ts + [t])| + OwnReports(cfg, ts + [t])
            == |ProbesOut(cfg, ts)| + OwnReports(cfg, ts)
               + if t.event.Allow? && Admits(Normalize(cfg), After(cfg, ts)) then 1 else 0
  {
    var all := ts + [t];
    AfterSnoc(cfg, ts, t);
    assert all[..|ts|] == ts;
    if t.event.Allow? && t.call in ProbesOut(cfg, ts) {
      NotYetRequested(ts, t);
      ProbesWereRequests(cfg, ts, t.call);
    }
  }

  /** The calls an episode has admitted are out or have reported. */
  lemma {:induction false} ProbesBalance(cfg: Config, ts: seq<Tagged>)
    requires OwnCalls(ts)
    ensures |ProbesOut(cfg, ts)| + OwnReports(cfg, ts) == EpisodeAdmits(cfg, Events(ts))
  {
    if ts != [] {
      var before, t := ts[..|ts| - 1], ts[|ts| - 1];
      assert ts == before + [t];
      ProbesBalance(cfg, before);
      EpisodeSnoc(cfg, before, t);
      if After(cfg, ts).state.HalfOpen? {
        ProbesSnoc(cfg, before, t);
      }
    }
  }

  /** A report that closes the breaker finds the episode's probes all in if and
      only if it is the halfOpenMax-th report of the probes themselves; in general
      the others that are still out are the ones missing to that number. */
  lemma ClosesWithAllInIff(cfg: Config, ts: seq<Tagged>, c: nat)
    requires OwnCalls(ts) && After(cfg, ts).state.HalfOpen?
    ensures var max := Normalize(cfg).halfOpenMax;
            var own := OwnReports(cfg, ts) + if c in ProbesOut(cfg, ts) then 1 else 0;
            var closed := After(cfg, ts + [Tagged(Success, c)]).state.Closed?;
            && (closed ==> |ProbesOut(cfg, ts) - {c}| == max - own)
            && (closed && ProbesOut(cfg, ts) - {c} == {} <==> own == max)
  {
    AfterIsRun(cfg, ts);
    AfterIsRun(cfg, ts + [Tagged(Success, c)]);
    assert Events(ts + [Tagged(Success, c)]) == Events(ts) + [Success];
    SuccessClosesIff(cfg, Events(ts));
    EpisodeBound(cfg, Events(ts));
    ProbesBalance(cfg, ts);
    assert c in ProbesOut(cfg, ts) ==> |ProbesOut(cfg, ts) - {c}| == |ProbesOut(cfg, ts)| - 1;
    assert c !in ProbesOut(cfg, ts) ==> ProbesOut(cfg, ts) - {c} == ProbesOut(cfg, ts);
  }

  // A late report

  /** Calls are numbered from 0 to `last`, and call 0 has not reported. */
  ghost predicate Numbered(ts: seq<Tagged>, last: nat) {
    && OwnCalls(ts) && ts != [] && ts[0] == Tagged(Allow, 0)
    && (forall i :: 0 <= i < |ts| ==> ts[i].call <= last && !(Reports(ts[i]) && ts[i].call == 0))
  }

  function FailedState(cfg: Config, k: nat): State {
    State(if k < Normalize(cfg).maxFailures then Closed else Open, k, 0, 0, 0, 0)
  }

  lemma FailsOnce(cfg: Config, ts: seq<Tagged>, k: nat)
    requires 1 <= k <= Normalize(cfg).maxFailures
    requires Numbered(ts, k - 1) && After(cfg, ts) == FailedState(cfg, k - 1)
    ensures var more := ts + [Tagged(Allow, k)] + [Tagged(Failure, k)];
            Numbered(more, k) && After(cfg, more) == FailedState(cfg, k)
  {
    var allowed := ts + [Tagged(Allow, k)];
    AfterSnoc(cfg, ts, Tagged(Allow, k));
    AfterSnoc(cfg, allowed, Tagged(Failure, k));
  }

  lemma FirstCall(cfg: Config)
    ensures Numbered([Tagged(Allow, 0)], 0) && After(cfg, [Tagged(Allow, 0)]) == FailedState(cfg, 0)
  {
    AfterSnoc(cfg, [], Tagged(Allow, 0));
    assert [] + [Tagged(Allow, 0)] == [Tagged(Allow, 0)];
  }

  /** Call 0 is admitted, then calls 1 to `k` are admitted and fail. */
  lemma {:induction false} FailingRun(cfg: Config, k: nat) returns (ts: seq<Tagged>)
    requires k <= Normalize(cfg).maxFailures
    ensures Numbered(ts, k) && After(cfg, ts) == FailedState(cfg, k)
  {
    if k == 0 {
      ts := [Tagged(Allow, 0)];
      FirstCall(cfg);
    } else {
      var before := FailingRun(cfg, k - 1);
      ts := before + [Tagged(Allow, k)] + [Tagged(Failure, k)];
      FailsOnce(cfg, before, k);
    }
  }

  /** `n` probes have been admitted, and neither they nor call 0 have reported. */
  ghost predicate AllOut(cfg: Config, ts: seq<Tagged>, n: nat) {
    var c := Normalize(cfg);
    && 0 !in ProbesOut(cfg, ts) && |ProbesOut(cfg, ts)| == n
    && After(cfg, ts) == State(if n == 0 then Open else HalfOpen, c.maxFailures, 0, n, 0, c.resetTimeout + 1)
  }

  ghost predicate ProbesAt(cfg: Config, ts: seq<Tagged>, n: nat) {
    Numbered(ts, Normalize(cfg).maxFailures + n) && AllOut(cfg, ts, n)
  }

  lemma TimeoutPasses(cfg: Config, ts: seq<Tagged>)
    requires Numbered(ts, Normalize(cfg).maxFailures)
    requires After(cfg, ts) == FailedState(cfg, Normalize(cfg).maxFailures)
    ensures ProbesAt(cfg, ts + [Tagged(Tick(Normalize(cfg).resetTimeout + 1), 0)], 0)
  {
    var c := Normalize(cfg);
    var t := Tagged(Tick(c.resetTimeout + 1), 0);
    AfterSnoc(cfg, ts, t);
  }

  lemma ProbeGoesOut(cfg: Config, ts: seq<Tagged>, d: nat)
    requires After(cfg, ts + [Tagged(Allow, d)]).state.HalfOpen? && Admits(Normalize(cfg), After(cfg, ts))
    requires forall i :: 0 <= i < |ts| ==> ts[i].call < d
    ensures d !in ProbesOut(cfg, ts) && ProbesOut(cfg, ts + [Tagged(Allow, d)]) == ProbesOut(cfg, ts) + {d}
  {
    assert (ts + [Tagged(Allow, d)])[..|ts|] == ts;
    if d in ProbesOut(cfg, ts) {
      ProbesWereRequests(cfg, ts, d);
    }
  }

  lemma OneMoreOut(cfg: Config, ts: seq<Tagged>, n: nat, d: nat)
    requires n < Normalize(cfg).halfOpenMax && AllOut(cfg, ts, n) && d > 0
    requires forall i :: 0 <= i < |ts| ==> ts[i].call < d
    ensures AllOut(cfg, ts + [Tagged(Allow, d)], n + 1)
  {
    AfterSnoc(cfg, ts, Tagged(Allow, d));
    ProbeGoesOut(cfg, ts, d);
  }

  lemma OneMoreProbe(cfg: Config, ts: seq<Tagged>, n: nat)
    requires n < Normalize(cfg).halfOpenMax && ProbesAt(cfg, ts, n)
    ensures ProbesAt(cfg, ts + [Tagged(Allow, Normalize(cfg).maxFailures + n + 1)], n + 1)
  {
    var last := Normalize(cfg).maxFailures + n;
    OneMoreOut(cfg, ts, n, last + 1);
  }

  lemma WaitingRun(cfg: Config) returns (ts: seq<Tagged>)
    ensures ProbesAt(cfg, ts, 0)
  {
    var failed := FailingRun(cfg, Normalize(cfg).maxFailures);
    ts := failed + [Tagged(Tick(Normalize(cfg).resetTimeout + 1), 0)];
    TimeoutPasses(cfg, failed);
  }

  /** The breaker trips, the timeout passes, and `n` probes are admitted. */
  lemma {:induction false} ProbingRun(cfg: Config, n: nat) returns (ts: seq<Tagged>)
    requires n <= Normalize(cfg).halfOpenMax
    ensures ProbesAt(cfg, ts, n)
  {
    if n == 0 {
      ts := WaitingRun(cfg);
    } else {
      var before := ProbingRun(cfg, n - 1);
      ts := before + [Tagged(Allow, Normalize(cfg).maxFailures + n)];
      OneMoreProbe(cfg, before, n - 1);
    }
  }

  /** For every configuration there is a run in which the breaker closes although
      not one probe of the episode has reported: the success comes from call 0,
      which was admitted before the breaker tripped and reports for the first time. */
  lemma LateSuccessCloses(cfg: Config)
    ensures exists ts, last ::
              && Numbered(ts, last) && After(cfg, ts).state.HalfOpen?
              && |ProbesOut(cfg, ts) - {0}| == Normalize(cfg).halfOpenMax
              && After(cfg, ts + [Tagged(Success, 0)]).state.Closed?
  {
    var max := Normalize(cfg).halfOpenMax;
    var ts := ProbingRun(cfg, max);
    AfterSnoc(cfg, ts, Tagged(Success, 0));
    assert ProbesOut(cfg, ts) - {0} == ProbesOut(cfg, ts);
    assert Numbered(ts, Normalize(cfg).maxFailures + max);
  }

  lemma CountersMatchHistory(cfg: Config, evs: seq<Event>)
    ensures var s := Run(cfg, evs);
            && (s.state.Closed? ==> s.failures == Streak(evs))
            && (s.state.Open? ==> s.lastFailureTime == LatestFailure(evs))
            && (s.state.Closed? <==> s.failures < Normalize(cfg).maxFailures)
  {
    ReachableShape(cfg, evs);
  }

  lemma NextRequest(cfg: Config, evs: seq<Event>, dt: nat)
    ensures EpisodeAdmits(cfg, evs + [Tick(dt), Allow]) <= Normalize(cfg).halfOpenMax
    ensures var s := Run(cfg, evs);
            s.state.Open? ==> s.lastFailureTime == LatestFailure(evs)
  {
    EpisodeBound(cfg, evs + [Tick(dt), Allow]);
    CountersMatchHistory(cfg, evs);
  }

  class Breaker {
    const given: Config
    const config: Config
    var state: BreakerState
    var failures: int
    var successes: int
    var halfOpenCount: int
    var lastFailureTime: int
    ghost var clock: int
    ghost var history: seq<Event>

    ghost function View(): State
      reads this
    {
      State(state, failures, successes, halfOpenCount, lastFailureTime, clock)
    }

    ghost predicate Valid()
      reads this
    {
      config == Normalize(given) && View() == Run(given, history)
    }

    constructor (given: Config)
      ensures Valid() && history == [] && this.given == given && state == Closed
    {
      var c := given;
      if c.maxFailures <= 0 {
        c := c.(maxFailures := 1);
      }
      if c.halfOpenMax <= 0 {
        c := c.(halfOpenMax := 1);
      }
      if c.resetTimeout <= 0 {
        c := c.(resetTimeout := DEFAULT_TIMEOUT);
      }
      this.given, config := given, c;
      state, failures, successes, halfOpenCount, lastFailureTime, clock := Closed, 0, 0, 0, 0, 0;
      history := [];
    }

    lemma RunOfAppend(h: seq<Event>, e: Event)
      ensures Run(given, h + [e]) == Step(Normalize(given), Run(given, h), e)
    {
      assert (h + [e])[..|h|] == h;
    }

    ghost method Record(e: Event, before: State)
      requires config == Normalize(given)
      requires before == Run(given, history) && View() == Step(config, before, e)
      modifies this`history
      ensures Valid() && history == old(history) + [e]
    {
      RunOfAppend(history, e);
      history := history + [e];
    }

    ghost method Advance(now: int)
      requires Valid() && clock <= now
      modifies this`clock, this`history
      ensures Valid() && clock == now && history == old(history) + [Tick(now - old(clock))]
    {
      ghost var before := View();
      clock := now;
      Record(Tick(now - old(clock)), before);
    }

    method AllowRequest(now: int) returns (allowed: bool)
      requires Valid() && clock <= now
      modifies this
      ensures Valid() && clock == now
      ensures history == old(history) + [Tick(now - old(clock)), Allow]
      ensures View() == Step(config, old(View()).(clock := now), Allow)
      ensures allowed == Admits(config, old(View()).(clock := now))
      ensures EpisodeAdmits(given, history) <= config.halfOpenMax
      ensures old(state).Open? && allowed ==> now - LatestFailure(old(history)) > config.resetTimeout
    {
      NextRequest(given, history, now - clock);
      Advance(now);
      ghost var before := View();
      match state {
        case Closed =>
          allowed := true;
        case Open =>
          if now - lastFailureTime > config.resetTimeout {
            state := HalfOpen;
            halfOpenCount := 1;
            successes := 0;
            allowed := true;
          } else {
            allowed := false;
          }
        case HalfOpen =>
          if halfOpenCount >= config.halfOpenMax {
            allowed := false;
          } else {
            halfOpenCount := halfOpenCount + 1;
            allowed := true;
          }
      }
      Record(Allow, before);
      assert history == old(history) + [Tick(now - old(clock)), Allow];
    }

    /** `from`, `to`: what OnStateChange is told; equal when it is not called. */
    method RecordSuccess() returns (from: BreakerState, to: BreakerState)
      requires Valid()
      modifies this
      ensures Valid() && history == old(history) + [Success]
      ensures View() == Step(config, old(View()), Success)
      ensures from == old(state) && to == state
    {
      ghost var before := View();
      from := state;
      successes := successes + 1;
      match state {
        case HalfOpen =>
          if halfOpenCount >= config.halfOpenMax {
            state := Closed;
            failures := 0;
            halfOpenCount := 0;
          }
        case Closed =>
          failures := 0;
        case Open =>
      }
      to := state;
      Record(Success, before);
    }

    method RecordFailure(now: int) returns (from: BreakerState, to: BreakerState)
      requires Valid() && clock <= now
      modifies this
      ensures Valid() && clock == now
      ensures history == old(history) + [Tick(now - old(clock)), Failure]
      ensures View() == Step(config, old(View()).(clock := now), Failure)
      ensures from == old(state) && to == state
      ensures old(state).Closed? ==> (state.Open? <==> Streak(old(history)) + 1 == config.maxFailures)
    {
      CountersMatchHistory(given, history);
      Advance(now);
      ghost var before := View();
      from := state;
      failures := failures + 1;
      lastFailureTime := now;
      if state == HalfOpen {
        state := Open;
        halfOpenCount := 0;
      } else if state == Closed && failures >= config.maxFailures {
        state := Open;
        halfOpenCount := 0;
      }
      to := state;
      Record(Failure, before);
    }

    method ResetBreaker()
      requires Valid()
      modifies this
      ensures Valid() && history == old(history) + [Reset] && state.Closed?
    {
      ghost var before := View();
      state := Closed;
      failures := 0;
      successes := 0;
      halfOpenCount := 0;
      Record(Reset, before);
    }

    /** Execute with nothing else running; `fails` is the outcome of the function
        and `took` the time it takes. */
    method ExecuteCall(now: int, took: nat, fails: bool) returns (ran: bool, ok: bool)
      requires Valid() && clock <= now
      modifies this
      ensures Valid()
      ensures ran == Admits(config, old(View()).(clock := now))
      ensures ok <==> ran && !fails
      ensures history == old(history) + [Tick(now - old(clock)), Allow]
                         + (if !ran then [] else if fails then [Tick(took), Failure] else [Success])
      ensures !fails ==> View() == Execute(config, old(View()).(clock := now), false)
    {
      ran := AllowRequest(now);
      ok := false;
      if ran {
        if fails {
          var _, _ := RecordFailure(now + took);
        } else {
          var _, _ := RecordSuccess();
          ok := true;
        }
      }
    }
  }
}
