/** The worker pool: a bounded job queue, a stop channel and workers that drain
    the queue before they leave.  Every channel operation is one atomic step;
    submitters, workers and Stop interleave freely. */
module WorkerPool {
  /** Where a worker goroutine stands in its loop. */
  datatype Worker = Idle | Running(job: nat) | Draining | DrainRunning(job: nat) | Exited

  /** Jobs are numbered in the order in which their submission returned.
      `accepted` and `taken` record what went into and out of the queue, `early`
      how many jobs had been accepted when the stop channel was closed. */
  datatype State = State(
    capacity: nat, queue: seq<nat>, stopping: bool, workers: seq<Worker>, stopReturned: bool,
    submissions: nat, accepted: seq<nat>, taken: seq<nat>, finished: seq<nat>, early: nat)

  /** `chooseQueue` is the choice `select` makes when both channels are ready. */
  datatype Event =
    | Submit(chooseQueue: bool)
    | SubmitOrDrop(chooseQueue: bool)
    | Take(w: nat)
    | Finish(w: nat)
    | SeeStop(w: nat)
    | Drain(w: nat)
    | Close
    | StopReturn

  function Start(workers: int): State {
    var n := if workers < 1 then 1 else workers;
    State(2 * n, [], false, seq(n, _ => Idle), false, 0, [], [], [], 0)
  }

  predicate Enqueues(s: State, chooseQueue: bool) {
    |s.queue| < s.capacity && (chooseQueue || !s.stopping)
  }

  function Enqueue(s: State): State {
    s.(queue := s.queue + [s.submissions], accepted := s.accepted + [s.submissions], submissions := s.submissions + 1)
  }

  function Refuse(s: State): State {
    s.(submissions := s.submissions + 1)
  }

  function SetWorker(s: State, w: nat, to: Worker): State
    requires w < |s.workers|
  {
    s.(workers := s.workers[w := to])
  }

  /** Worker `w` receives the job at the head of the queue. */
  function Receive(s: State, w: nat, to: Worker): State
    requires w < |s.workers| && s.queue != []
  {
    SetWorker(s, w, to).(queue := s.queue[1..], taken := s.taken + [s.queue[0]])
  }

  predicate AllExited(s: State) {
    forall i :: 0 <= i < |s.workers| ==> s.workers[i].Exited?
  }

  /** A step that is not enabled in `s` leaves `s` as it is. */
  function Step(s: State, e: Event): State {
    match e
    case Submit(q) => if Enqueues(s, q) then Enqueue(s) else if s.stopping then Refuse(s) else s
    case SubmitOrDrop(q) => if Enqueues(s, q) then Enqueue(s) else Refuse(s)
    case Take(w) =>
      if w < |s.workers| && s.workers[w].Idle? && s.queue != [] then Receive(s, w, Running(s.queue[0])) else s
    case Finish(w) =>
      if w < |s.workers| && s.workers[w].Running? then
        SetWorker(s, w, Idle).(finished := s.finished + [s.workers[w].job])
      else if w < |s.workers| && s.workers[w].DrainRunning? then
        SetWorker(s, w, Draining).(finished := s.finished + [s.workers[w].job])
      else s
    case SeeStop(w) =>
      if w < |s.workers| && s.workers[w].Idle? && s.stopping then SetWorker(s, w, Draining) else s
    case Drain(w) =>
      if w < |s.workers| && s.workers[w].Draining? then
        if s.queue != [] then Receive(s, w, DrainRunning(s.queue[0])) else SetWorker(s, w, Exited)
      else s
    case Close => if s.stopping then s else s.(stopping := true, early := |s.accepted|)
    case StopReturn => if s.stopping && AllExited(s) then s.(stopReturned := true) else s
  }

  function RunFrom(s: State, evs: seq<Event>): State {
    if evs == [] then s else Step(RunFrom(s, evs[..|evs| - 1]), evs[|evs| - 1])
  }

  function Run(workers: int, evs: seq<Event>): State {
    RunFrom(Start(workers), evs)
  }

  lemma {:induction false} RunFromSplit(s: State, evs: seq<Event>, more: seq<Event>)
    ensures RunFrom(s, evs + more) == RunFrom(RunFrom(s, evs), more)
  {
    if more == [] {
      assert evs + more == evs;
    } else {
      var all := evs + more;
      assert all[..|all| - 1] == evs + more[..|more| - 1];
      RunFromSplit(s, evs, more[..|more| - 1]);
    }
  }

  // Conservation

  function Holds(w: Worker, job: nat): nat {
    if (w.Running? || w.DrainRunning?) && w.job == job then 1 else 0
  }

  /** How many workers are running `job` right now. */
  function Held(ws: seq<Worker>, job: nat): nat {
    if ws == [] then 0 else Held(ws[..|ws| - 1], job) + Holds(ws[|ws| - 1], job)
  }

  function Times(js: seq<nat>, job: nat): nat {
    multiset(js)[job]
  }

  lemma {:induction false} HeldUpdate(ws: seq<Worker>, i: nat, w: Worker, job: nat)
    requires i < |ws|
    ensures Held(ws[i := w], job) + Holds(ws[i], job) == Held(ws, job) + Holds(w, job)
  {
    var ws' := ws[i := w];
    if i < |ws| - 1 {
      HeldUpdate(ws[..|ws| - 1], i, w, job);
      assert ws'[..|ws| - 1] == ws[..|ws| - 1][i := w];
    } else {
      assert ws'[..|ws| - 1] == ws[..|ws| - 1];
    }
  }

  lemma {:induction false} HeldNone(ws: seq<Worker>, job: nat)
    requires forall i :: 0 <= i < |ws| ==> Holds(ws[i], job) == 0
    ensures Held(ws, job) == 0
  {
    if ws != [] {
      HeldNone(ws[..|ws| - 1], job);
    }
  }

  ghost predicate Increasing(js: seq<nat>, bound: nat) {
    && (forall i, j :: 0 <= i < j < |js| ==> js[i] < js[j])
    && (forall i :: 0 <= i < |js| ==> js[i] < bound)
  }

  ghost predicate Inv(s: State, job: nat) {
    && |s.workers| >= 1
    && |s.queue| <= s.capacity
    && Increasing(s.accepted, s.submissions)
    && s.accepted == s.taken + s.queue
    && Times(s.taken, job) == Times(s.finished, job) + Held(s.workers, job)
    && (forall i :: 0 <= i < |s.workers| && !s.workers[i].Idle? && !s.workers[i].Running? ==> s.stopping)
    && (s.stopping ==> s.early <= |s.accepted|)
    && (forall i :: 0 <= i < |s.workers| && s.workers[i].Exited? ==> s.early <= |s.taken|)
    && (s.stopReturned ==> s.stopping && AllExited(s))
  }

  lemma ReceiveKeepsInv(s: State, w: nat, to: Worker, job: nat)
    requires Inv(s, job) && w < |s.workers| && s.queue != []
    requires || (s.workers[w].Idle? && to == Running(s.queue[0]))
             || (s.workers[w].Draining? && to == DrainRunning(s.queue[0]))
    ensures Inv(Receive(s, w, to), job)
  {
    var s' := Receive(s, w, to);
    HeldUpdate(s.workers, w, to, job);
    assert s'.taken + s'.queue == s.taken + s.queue;
    assert multiset(s'.taken) == multiset(s.taken) + multiset{s.queue[0]};
  }

  lemma FinishKeepsInv(s: State, w: nat, to: Worker, job: nat)
    requires Inv(s, job) && w < |s.workers|
    requires (s.workers[w].Running? && to.Idle?) || (s.workers[w].DrainRunning? && to.Draining?)
    ensures Inv(SetWorker(s, w, to).(finished := s.finished + [s.workers[w].job]), job)
  {
    HeldUpdate(s.workers, w, to, job);
  }

  lemma MoveKeepsInv(s: State, w: nat, to: Worker, job: nat)
    requires Inv(s, job) && w < |s.workers|
    requires || (s.workers[w].Idle? && s.stopping && to.Draining?)
             || (s.workers[w].Draining? && s.queue == [] && to.Exited?)
    ensures Inv(SetWorker(s, w, to), job)
  {
    HeldUpdate(s.workers, w, to, job);
    if to.Exited? {
      assert s.taken == s.accepted;
    }
  }

  lemma EnqueueKeepsInv(s: State, job: nat)
    requires Inv(s, job) && |s.queue| < s.capacity
    ensures Inv(Enqueue(s), job)
  {
    assert s.accepted + [s.submissions] == s.taken + (s.queue + [s.submissions]);
  }

  lemma WorkerStepKeepsInv(s: State, e: Event, job: nat)
    requires Inv(s, job) && (e.Take? || e.Finish? || e.SeeStop? || e.Drain?)
    ensures Inv(Step(s, e), job)
  {
    if Step(s, e) != s {
      match e
      case Take(w) => ReceiveKeepsInv(s, w, Running(s.queue[0]), job);
      case Finish(w) => FinishKeepsInv(s, w, if s.workers[w].Running? then Idle else Draining, job);
      case SeeStop(w) => MoveKeepsInv(s, w, Draining, job);
      case Drain(w) =>
        if s.queue != [] {
          ReceiveKeepsInv(s, w, DrainRunning(s.queue[0]), job);
        } else {
          MoveKeepsInv(s, w, Exited, job);
        }
    }
  }

  lemma OtherStepKeepsInv(s: State, e: Event, job: nat)
    requires Inv(s, job) && (e.Submit? || e.SubmitOrDrop? || e.Close? || e.StopReturn?)
    ensures Inv(Step(s, e), job)
  {
    if (e.Submit? || e.SubmitOrDrop?) && Enqueues(s, e.chooseQueue) {
      EnqueueKeepsInv(s, job);
    }
  }

  lemma StepKeepsInv(s: State, e: Event, job: nat)
    requires Inv(s, job)
    ensures Inv(Step(s, e), job)
  {
    if e.Take? || e.Finish? || e.SeeStop? || e.Drain? {
      WorkerStepKeepsInv(s, e, job);
    } else {
      OtherStepKeepsInv(s, e, job);
    }
  }

  lemma {:induction false} RunKeepsInv(s: State, evs: seq<Event>, job: nat)
    requires Inv(s, job)
    ensures Inv(RunFrom(s, evs), job)
  {
    if evs != [] {
      RunKeepsInv(s, evs[..|evs| - 1], job);
      StepKeepsInv(RunFrom(s, evs[..|evs| - 1]), evs[|evs| - 1], job);
    }
  }

  lemma Reachable(workers: int, evs: seq<Event>, job: nat)
    ensures Inv(Run(workers, evs), job)
  {
    HeldNone(Start(workers).workers, job);
    RunKeepsInv(Start(workers), evs, job);
  }

  lemma {:induction false} IncreasingCountsOnce(js: seq<nat>, bound: nat, j: nat)
    requires Increasing(js, bound)
    ensures Times(js, j) <= 1 && (j >= bound ==> Times(js, j) == 0)
  {
    if js != [] {
      var n := |js| - 1;
      assert js == js[..n] + [js[n]];
      IncreasingCountsOnce(js[..n], js[n], j);
    }
  }

  /** Conservation over every interleaving: a job is accepted if and only if it
      is queued, being run or finished, in exactly one of these places and only
      once; jobs leave the queue in the order in which they were accepted. */
  lemma Conservation(workers: int, evs: seq<Event>, job: nat)
    ensures var s := Run(workers, evs);
            && Times(s.queue, job) + Held(s.workers, job) + Times(s.finished, job)
               == (if job in s.accepted then 1 else 0)
            && s.taken + s.queue == s.accepted
            && |s.queue| <= s.capacity
  {
    Reachable(workers, evs, job);
    var s := Run(workers, evs);
    IncreasingCountsOnce(s.accepted, s.submissions, job);
    assert multiset(s.accepted) == multiset(s.taken) + multiset(s.queue);
    assert job in s.accepted <==> multiset(s.accepted)[job] > 0;
  }

  /** When Stop has returned, every job accepted before the stop channel was
      closed has finished, and nothing is left running. */
  lemma StopDrains(workers: int, evs: seq<Event>)
    requires Run(workers, evs).stopReturned
    ensures var s := Run(workers, evs);
            && s.early <= |s.accepted|
            && (forall i :: 0 <= i < s.early ==> s.accepted[i] in s.finished)
            && (forall job :: Held(s.workers, job) == 0)
  {
    var s := Run(workers, evs);
    Reachable(workers, evs, 0);
    assert s.workers[0].Exited?;
    forall job ensures Held(s.workers, job) == 0 {
      HeldNone(s.workers, job);
    }
    forall i | 0 <= i < s.early ensures s.accepted[i] in s.finished {
      Reachable(workers, evs, s.accepted[i]);
      assert s.accepted[i] == s.taken[i];
      assert s.accepted[i] in multiset(s.taken);
    }
  }

  // Submission

  lemma StepKeepsShape(s: State, e: Event)
    ensures |Step(s, e).workers| == |s.workers| && Step(s, e).capacity == s.capacity
  {
  }

  /** The number of workers NewWorkerPool settles on. */
  lemma {:induction false} PoolShape(workers: int, evs: seq<Event>)
    ensures var s := Run(workers, evs);
            && |s.workers| == (if workers < 1 then 1 else workers)
            && s.capacity == 2 * (if workers < 1 then 1 else workers)
  {
    if evs != [] {
      PoolShape(workers, evs[..|evs| - 1]);
      StepKeepsShape(Run(workers, evs[..|evs| - 1]), evs[|evs| - 1]);
    }
  }

  /** SubmitOrDrop accepts if and only if there is room in a queue of two places
      per worker and, once the stop channel is closed, the select chooses the
      queue; Submit does the same, and while the pool is not stopping it blocks
      instead of refusing. */
  lemma AcceptsIff(workers: int, evs: seq<Event>, chooseQueue: bool)
    ensures var s := Run(workers, evs);
            var room := |s.queue| < 2 * (if workers < 1 then 1 else workers);
            var dropped, blocked := Step(s, SubmitOrDrop(chooseQueue)), Step(s, Submit(chooseQueue));
            && dropped.submissions == s.submissions + 1
            && (if room && (!s.stopping || chooseQueue)
                then dropped.accepted == s.accepted + [s.submissions] && dropped.queue == s.queue + [s.submissions]
                else dropped.accepted == s.accepted && dropped.queue == s.queue)
            && blocked == (if !room && !s.stopping then s else dropped)
  {
    PoolShape(workers, evs);
  }

  // What becomes of a job that is still queued

  lemma {:induction false} DeadPoolTakesNothing(s: State, evs: seq<Event>)
    requires AllExited(s)
    ensures var s' := RunFrom(s, evs);
            && AllExited(s') && s'.finished == s.finished && s'.taken == s.taken
            && s.queue <= s'.queue && s.accepted <= s'.accepted
  {
    if evs != [] {
      DeadPoolTakesNothing(s, evs[..|evs| - 1]);
    }
  }

  /** One live worker, from wherever it stands, can be scheduled to run the head
      of the queue to its end. */
  function ServeHead(s: State, w: nat): seq<Event>
    requires w < |s.workers| && !s.workers[w].Exited?
  {
    match s.workers[w]
    case Idle => [Take(w), Finish(w)]
    case Running(_) => [Finish(w), Take(w), Finish(w)]
    case Draining => [Drain(w), Finish(w)]
    case DrainRunning(_) => [Finish(w), Drain(w), Finish(w)]
    case Exited => []
  }

  lemma RunTwo(s: State, a: Event, b: Event)
    ensures RunFrom(s, [a, b]) == Step(Step(s, a), b)
  {
    assert [a, b][..1] == [a] && [a][..0] == [];
    assert RunFrom(s, [a]) == Step(RunFrom(s, []), a);
  }

  lemma RunThree(s: State, a: Event, b: Event, c: Event)
    ensures RunFrom(s, [a, b, c]) == Step(Step(Step(s, a), b), c)
  {
    RunTwo(s, a, b);
    assert [a, b, c][..2] == [a, b];
  }

  /** The head of the queue has been run to its end by worker `w`. */
  predicate Served(s: State, s': State, w: nat) {
    && s.queue != [] && s'.queue == s.queue[1..]
    && |s'.workers| == |s.workers| && w < |s'.workers| && !s'.workers[w].Exited?
    && s.queue[0] in s'.finished
  }

  lemma TakeAndFinish(s: State, w: nat)
    requires w < |s.workers| && s.queue != [] && (s.workers[w].Idle? || s.workers[w].Draining?)
    ensures Served(s, Step(Step(s, if s.workers[w].Idle? then Take(w) else Drain(w)), Finish(w)), w)
  {
  }

  lemma ServeHeadServes(s: State, w: nat)
    requires w < |s.workers| && !s.workers[w].Exited? && s.queue != []
    ensures Served(s, RunFrom(s, ServeHead(s, w)), w)
  {
    match s.workers[w]
    case Idle =>
      RunTwo(s, Take(w), Finish(w));
      TakeAndFinish(s, w);
    case Running(_) =>
      RunThree(s, Finish(w), Take(w), Finish(w));
      TakeAndFinish(Step(s, Finish(w)), w);
    case Draining =>
      RunTwo(s, Drain(w), Finish(w));
      TakeAndFinish(s, w);
    case DrainRunning(_) =>
      RunThree(s, Finish(w), Drain(w), Finish(w));
      TakeAndFinish(Step(s, Finish(w)), w);
  }

  lemma {:induction false} CanServe(s: State, w: nat, job: nat) returns (more: seq<Event>)
    requires w < |s.workers| && !s.workers[w].Exited? && job in s.queue
    ensures job in RunFrom(s, more).finished
    decreases |s.queue|
  {
    more := ServeHead(s, w);
    ServeHeadServes(s, w);
    if s.queue[0] != job {
      var s' := RunFrom(s, more);
      assert s.queue == [s.queue[0]] + s.queue[1..];
      var rest := CanServe(s', w, job);
      RunFromSplit(s, more, rest);
      more := more + rest;
    }
  }

  /** A queued job can still be run if and only if some worker has not left: a
      job that lands in the queue once all workers have exited is lost. */
  lemma QueuedJobServedIffWorkerLeft(workers: int, evs: seq<Event>, job: nat)
    requires job in Run(workers, evs).queue
    ensures (exists more :: job in Run(workers, evs + more).finished) <==> !AllExited(Run(workers, evs))
  {
    var s := Run(workers, evs);
    if AllExited(s) {
      Conservation(workers, evs, job);
      assert job in multiset(s.queue);
      forall more ensures job !in Run(workers, evs + more).finished {
        RunFromSplit(Start(workers), evs, more);
        DeadPoolTakesNothing(s, more);
        assert job !in multiset(s.finished);
      }
    } else {
      var w :| 0 <= w < |s.workers| && !s.workers[w].Exited?;
      var more := CanServe(s, w, job);
      RunFromSplit(Start(workers), evs, more);
    }
  }

  /** `job` cannot be lost any more: it is finished, being run, or queued with
      some worker still there. */
  ghost predicate Safe(s: State, job: nat) {
    || job in s.finished
    || (exists w :: 0 <= w < |s.workers| && Holds(s.workers[w], job) == 1)
    || (job in s.queue && !AllExited(s))
  }

  lemma ReceiveKeepsSafe(s: State, w: nat, to: Worker, job: nat)
    requires Safe(s, job) && w < |s.workers| && s.queue != [] && (s.workers[w].Idle? || s.workers[w].Draining?)
    requires to == Running(s.queue[0]) || to == DrainRunning(s.queue[0])
    ensures Safe(Receive(s, w, to), job)
  {
    var s' := Receive(s, w, to);
    assert s'.workers[w] == to && !to.Exited?;
    assert s.queue == [s.queue[0]] + s.queue[1..];
    if job == s.queue[0] {
      assert Holds(s'.workers[w], job) == 1;
    } else if v :| 0 <= v < |s.workers| && Holds(s.workers[v], job) == 1 {
      assert v != w && Holds(s'.workers[v], job) == 1;
    }
  }

  lemma FinishKeepsSafe(s: State, w: nat, job: nat)
    requires Safe(s, job)
    ensures Safe(Step(s, Finish(w)), job)
  {
    var s' := Step(s, Finish(w));
    if s' != s {
      assert !s'.workers[w].Exited?;
      if v :| 0 <= v < |s.workers| && Holds(s.workers[v], job) == 1 && job !in s.finished {
        if v == w {
          assert s'.finished[|s.finished|] == job;
        } else {
          assert Holds(s'.workers[v], job) == 1;
        }
      }
    }
  }

  lemma MoveKeepsSafe(s: State, w: nat, to: Worker, job: nat)
    requires Safe(s, job) && w < |s.workers| && (s.workers[w].Idle? || s.workers[w].Draining?)
    requires to.Draining? || (to.Exited? && s.queue == [])
    ensures Safe(SetWorker(s, w, to), job)
  {
    var s' := SetWorker(s, w, to);
    assert s'.workers[w] == to;
    if v :| 0 <= v < |s.workers| && Holds(s.workers[v], job) == 1 {
      assert v != w && Holds(s'.workers[v], job) == 1;
    }
  }

  lemma StepKeepsSafe(s: State, e: Event, job: nat)
    requires Safe(s, job)
    ensures Safe(Step(s, e), job)
  {
    if Step(s, e) != s {
      match e
      case Take(w) => ReceiveKeepsSafe(s, w, Running(s.queue[0]), job);
      case Finish(w) => FinishKeepsSafe(s, w, job);
      case SeeStop(w) => MoveKeepsSafe(s, w, Draining, job);
      case Drain(w) =>
        if s.queue != [] {
          ReceiveKeepsSafe(s, w, DrainRunning(s.queue[0]), job);
        } else {
          MoveKeepsSafe(s, w, Exited, job);
        }
      case _ =>
    }
  }

  lemma {:induction false} RunKeepsSafe(s: State, more: seq<Event>, job: nat)
    requires Safe(s, job)
    ensures Safe(RunFrom(s, more), job)
  {
    if more != [] {
      RunKeepsSafe(s, more[..|more| - 1], job);
      StepKeepsSafe(RunFrom(s, more[..|more| - 1]), more[|more| - 1], job);
    }
  }

  lemma SafeAtReturn(workers: int, evs: seq<Event>, job: nat)
    requires Safe(Run(workers, evs), job) && Run(workers, evs).stopReturned
    ensures job in Run(workers, evs).finished
  {
    Reachable(workers, evs, job);
  }

  lemma LostAtReturn(workers: int, evs: seq<Event>, job: nat) returns (more: seq<Event>)
    requires job in Run(workers, evs).queue && AllExited(Run(workers, evs))
    ensures Run(workers, evs + more).stopReturned && job !in Run(workers, evs + more).finished
  {
    more := [StopReturn];
    assert (evs + more)[..|evs|] == evs;
    Reachable(workers, evs, job);
    assert Run(workers, evs).workers[0].Exited?;
    QueuedJobServedIffWorkerLeft(workers, evs, job);
  }

  /** The promise that a job in the queue is drained: in every continuation in
      which Stop returns the job has finished, if and only if some worker had not
      left when it was queued. */
  lemma QueuedJobDrainedIff(workers: int, evs: seq<Event>, job: nat)
    requires job in Run(workers, evs).queue
    ensures (forall more :: Run(workers, evs + more).stopReturned ==> job in Run(workers, evs + more).finished)
            <==> !AllExited(Run(workers, evs))
  {
    if AllExited(Run(workers, evs)) {
      var more := LostAtReturn(workers, evs, job);
    } else {
      forall more | Run(workers, evs + more).stopReturned ensures job in Run(workers, evs + more).finished {
        RunFromSplit(Start(workers), evs, more);
        RunKeepsSafe(Run(workers, evs), more, job);
        SafeAtReturn(workers, evs + more, job);
      }
    }
  }

  /** A schedule that takes worker `w` out of its loop, draining the queue. */
  lemma {:induction false} CanExit(s: State, w: nat) returns (more: seq<Event>)
    requires s.stopping && w < |s.workers|
    ensures var s' := RunFrom(s, more);
            && s'.stopping && |s'.workers| == |s.workers| && s'.workers[w].Exited?
            && forall v :: 0 <= v < |s.workers| && v != w ==> s'.workers[v] == s.workers[v]
    decreases |s.queue|, match s.workers[w] case Exited => 0 case Draining => 1 case Idle => 2 case _ => 3
  {
    more := [];
    if !s.workers[w].Exited? {
      var e := match s.workers[w]
        case Idle => SeeStop(w)
        case Draining => Drain(w)
        case _ => Finish(w);
      var s1 := Step(s, e);
      assert RunFrom(s, [e]) == s1 by {
        assert [e][..0] == [];
      }
      var rest := CanExit(s1, w);
      RunFromSplit(s, [e], rest);
      more := [e] + rest;
    }
  }

  lemma {:induction false} CanAllExit(s: State, n: nat) returns (more: seq<Event>)
    requires s.stopping && n <= |s.workers|
    ensures var s' := RunFrom(s, more);
            && s'.stopping && |s'.workers| == |s.workers|
            && forall v :: 0 <= v < n ==> s'.workers[v].Exited?
  {
    more := [];
    if n > 0 {
      var first := CanAllExit(s, n - 1);
      var last := CanExit(RunFrom(s, first), n - 1);
      RunFromSplit(s, first, last);
      more := first + last;
    }
  }

  // How much work is left

  /** Steps a worker still has before it, apart from the jobs in the queue. */
  function StepsAhead(w: Worker): nat {
    match w
    case Exited => 0
    case Draining => 1
    case Idle => 2
    case DrainRunning(_) => 2
    case Running(_) => 3
  }

  function TotalAhead(ws: seq<Worker>): nat {
    if ws == [] then 0 else TotalAhead(ws[..|ws| - 1]) + StepsAhead(ws[|ws| - 1])
  }

  /** A queued job costs two steps: it is taken and it finishes. */
  function Work(s: State): nat {
    2 * |s.queue| + TotalAhead(s.workers)
  }

  predicate WorkerMoves(s: State, e: Event) {
    (e.Take? || e.Finish? || e.SeeStop? || e.Drain?) && Step(s, e) != s
  }

  /** The steps that workers really made. */
  function WorkerSteps(s: State, evs: seq<Event>): nat {
    if evs == [] then 0
    else
      var before := evs[..|evs| - 1];
      WorkerSteps(s, before) + if WorkerMoves(RunFrom(s, before), evs[|evs| - 1]) then 1 else 0
  }

  lemma {:induction false} TotalAheadUpdate(ws: seq<Worker>, i: nat, w: Worker)
    requires i < |ws|
    ensures TotalAhead(ws[i := w]) + StepsAhead(ws[i]) == TotalAhead(ws) + StepsAhead(w)
  {
    var n := |ws| - 1;
    if i < n {
      TotalAheadUpdate(ws[..n], i, w);
      assert ws[i := w][..n] == ws[..n][i := w];
    } else {
      assert ws[i := w][..n] == ws[..n];
    }
  }

  lemma {:induction false} TotalAheadBounds(ws: seq<Worker>)
    ensures TotalAhead(ws) <= 3 * |ws|
    ensures TotalAhead(ws) == 0 <==> forall i :: 0 <= i < |ws| ==> ws[i].Exited?
  {
    if ws != [] {
      TotalAheadBounds(ws[..|ws| - 1]);
    }
  }

  lemma WorkerPays(s: State, e: Event)
    requires WorkerMoves(s, e)
    ensures Step(s, e).accepted == s.accepted && Work(Step(s, e)) + 1 == Work(s)
  {
    var w := match e
      case Take(i) => i
      case Finish(i) => i
      case SeeStop(i) => i
      case Drain(i) => i
      case _ => 0;
    TotalAheadUpdate(s.workers, w, Step(s, e).workers[w]);
  }

  lemma StepPaysForItself(s: State, e: Event)
    ensures |Step(s, e).accepted| >= |s.accepted|
    ensures Work(Step(s, e)) + (if WorkerMoves(s, e) then 1 else 0)
            == Work(s) + 2 * (|Step(s, e).accepted| - |s.accepted|)
  {
    if WorkerMoves(s, e) {
      WorkerPays(s, e);
    }
  }

  /** The balance of work: under every schedule, each step of a worker uses up one
      unit and each accepted job brings two.  So after the stop channel is closed
      the workers make at most 3 steps each, 2 for each queued job and 2 for each
      job accepted late. */
  lemma {:induction false} WorkerStepsBalance(s: State, more: seq<Event>)
    ensures |RunFrom(s, more).accepted| >= |s.accepted|
    ensures WorkerSteps(s, more) + Work(RunFrom(s, more))
            == Work(s) + 2 * (|RunFrom(s, more).accepted| - |s.accepted|)
  {
    if more != [] {
      WorkerStepsBalance(s, more[..|more| - 1]);
      StepPaysForItself(RunFrom(s, more[..|more| - 1]), more[|more| - 1]);
    }
  }

  /** The one worker step that is possible where a worker stands while stopping. */
  function NextStep(s: State, w: nat): Event
    requires w < |s.workers|
  {
    match s.workers[w]
    case Idle => SeeStop(w)
    case Running(_) => Finish(w)
    case DrainRunning(_) => Finish(w)
    case _ => Drain(w)
  }

  lemma CanMove(s: State, w: nat)
    requires s.stopping && w < |s.workers| && !s.workers[w].Exited?
    ensures WorkerMoves(s, NextStep(s, w))
  {
    assert Step(s, NextStep(s, w)).workers[w] != s.workers[w];
  }

  lemma MovesUntilExited(s: State)
    requires s.stopping
    ensures (exists e :: WorkerMoves(s, e)) <==> !AllExited(s)
  {
    if !AllExited(s) {
      var w: nat :| w < |s.workers| && !s.workers[w].Exited?;
      CanMove(s, w);
    }
  }

  lemma WorkerStepsBound(s: State, more: seq<Event>)
    ensures |RunFrom(s, more).accepted| >= |s.accepted|
    ensures WorkerSteps(s, more)
            <= 3 * |s.workers| + 2 * |s.queue| + 2 * (|RunFrom(s, more).accepted| - |s.accepted|)
  {
    WorkerStepsBalance(s, more);
    TotalAheadBounds(s.workers);
  }

  lemma {:induction false} StaysStopping(s: State, more: seq<Event>)
    requires s.stopping
    ensures RunFrom(s, more).stopping
  {
    if more != [] {
      StaysStopping(s, more[..|more| - 1]);
    }
  }

  /** Stop terminates under every schedule with finitely many late submissions:
      once the stop channel is closed the number of worker steps is bounded, some
      worker can move until all have left, and then Stop returns. */
  lemma StopTerminates(workers: int, evs: seq<Event>, more: seq<Event>)
    requires Run(workers, evs).stopping
    ensures var s, t := Run(workers, evs), Run(workers, evs + more);
            && |t.accepted| >= |s.accepted|
            && WorkerSteps(s, more) <= 3 * |s.workers| + 2 * |s.queue| + 2 * (|t.accepted| - |s.accepted|)
            && ((exists e :: WorkerMoves(t, e)) <==> !Step(t, StopReturn).stopReturned)
  {
    RunFromSplit(Start(workers), evs, more);
    WorkerStepsBound(Run(workers, evs), more);
    StaysStopping(Run(workers, evs), more);
    Reachable(workers, evs + more, 0);
    ReturnsWhenNoneMoves(Run(workers, evs + more));
  }

  lemma ReturnsWhenNoneMoves(s: State)
    requires s.stopping && Inv(s, 0)
    ensures (exists e :: WorkerMoves(s, e)) <==> !Step(s, StopReturn).stopReturned
  {
    MovesUntilExited(s);
  }

  /** Stop never hangs: from every reachable state in which the stop channel is
      closed, whatever is queued or running, Stop can still return. */
  lemma StopCanReturn(workers: int, evs: seq<Event>)
    requires Run(workers, evs).stopping
    ensures exists more :: Run(workers, evs + more).stopReturned
  {
    var more := DrainAndReturn(Run(workers, evs));
    RunFromSplit(Start(workers), evs, more);
  }

  lemma DrainAndReturn(s: State) returns (more: seq<Event>)
    requires s.stopping
    ensures RunFrom(s, more).stopReturned
  {
    var drain := CanAllExit(s, |s.workers|);
    more := drain + [StopReturn];
    assert more[..|drain|] == drain;
  }

  const LATE_SUBMIT: seq<Event> := [Close, SeeStop(0), Drain(0), StopReturn, SubmitOrDrop(true)]

  lemma LateSubmitRuns()
    ensures var s := Run(1, LATE_SUBMIT);
            s.stopReturned && s.queue == [0] && AllExited(s)
  {
    var e1, e2 := [Close, SeeStop(0), Drain(0)], [StopReturn, SubmitOrDrop(true)];
    var s0 := Start(1);
    RunThree(s0, Close, SeeStop(0), Drain(0));
    var s3 := RunFrom(s0, e1);
    assert s3 == s0.(stopping := true, workers := [Exited]);
    RunTwo(s3, StopReturn, SubmitOrDrop(true));
    RunFromSplit(s0, e1, e2);
    assert e1 + e2 == LATE_SUBMIT;
  }

  /** That loss is reachable: with one worker, a submission after Stop has
      returned is accepted and stays in the queue for good, although the comments
      promise that it is drained or dropped. */
  lemma SubmitAfterStopIsLost()
    ensures var s := Run(1, LATE_SUBMIT);
            && s.stopReturned && s.queue == [0]
            && forall more :: 0 !in Run(1, LATE_SUBMIT + more).finished
  {
    LateSubmitRuns();
    QueuedJobServedIffWorkerLeft(1, LATE_SUBMIT, 0);
  }

  /** The pool object.  Each method is one channel operation of a goroutine;
      `chooseQueue` stands for the choice a `select` makes when several of its
      channels are ready. */
  class Pool {
    const size: int
    const capacity: nat
    var jobQueue: seq<nat>
    var stopClosed: bool
    var workers: seq<Worker>
    var stopReturned: bool
    ghost var submissions: nat
    ghost var accepted: seq<nat>
    ghost var taken: seq<nat>
    ghost var finished: seq<nat>
    ghost var early: nat
    ghost var history: seq<Event>

    ghost function View(): State
      reads this
    {
      State(capacity, jobQueue, stopClosed, workers, stopReturned, submissions, accepted, taken, finished, early)
    }

    ghost predicate Valid()
      reads this
    {
      View() == Run(size, history)
    }

    /** NewWorkerPool followed by the pool's Start. */
    constructor (size: int)
      ensures Valid() && history == [] && this.size == size
      ensures |workers| == (if size < 1 then 1 else size) && capacity == 2 * |workers|
    {
      this.size := size;
      var n := if size < 1 then 1 else size;
      capacity, jobQueue, stopClosed, workers, stopReturned := 2 * n, [], false, seq(n, _ => Idle), false;
      submissions, accepted, taken, finished, early, history := 0, [], [], [], 0, [];
    }

    ghost method Record(e: Event, before: State)
      requires before == Run(size, history) && View() == Step(before, e)
      modifies this`history
      ensures Valid() && history == old(history) + [e]
    {
      history := history + [e];
      assert history[..|history| - 1] == old(history);
    }

    ghost method Accept()
      modifies this`accepted, this`submissions
      ensures accepted == old(accepted) + [old(submissions)] && submissions == old(submissions) + 1
    {
      accepted := accepted + [submissions];
      submissions := submissions + 1;
    }

    /** Submit: `returned` is false while the call is still blocked. */
    method SubmitJob(job: nat, chooseQueue: bool) returns (returned: bool)
      requires Valid() && job == submissions
      modifies this
      ensures Valid() && history == old(history) + [Submit(chooseQueue)]
      ensures returned <==> |old(jobQueue)| < capacity || stopClosed
      ensures jobQueue
              == old(jobQueue) + if |old(jobQueue)| < capacity && (chooseQueue || !stopClosed) then [job] else []
    {
      ghost var before := View();
      returned := true;
      if |jobQueue| < capacity && (chooseQueue || !stopClosed) {
        jobQueue := jobQueue + [job];
        Accept();
      } else if stopClosed {
        submissions := submissions + 1;
      } else {
        returned := false;
      }
      Record(Submit(chooseQueue), before);
    }

    method SubmitJobOrDrop(job: nat, chooseQueue: bool) returns (ok: bool)
      requires Valid() && job == submissions
      modifies this
      ensures Valid() && history == old(history) + [SubmitOrDrop(chooseQueue)]
      ensures ok <==> |old(jobQueue)| < capacity && (chooseQueue || !stopClosed)
      ensures ok <==> job in accepted
      ensures jobQueue == old(jobQueue) + if ok then [job] else []
    {
      ghost var before := View();
      Reachable(size, history, job);
      if |jobQueue| < capacity && (chooseQueue || !stopClosed) {
        jobQueue := jobQueue + [job];
        Accept();
        ok := true;
      } else {
        submissions := submissions + 1;
        ok := false;
      }
      Record(SubmitOrDrop(chooseQueue), before);
    }

    /** The outer select of the worker loop; false while it blocks. */
    method WorkerSelect(w: nat, chooseQueue: bool) returns (moved: bool)
      requires Valid() && w < |workers| && workers[w].Idle?
      modifies this
      ensures Valid() && |workers| == |old(workers)|
      ensures history == old(history) + [if workers[w].Draining? then SeeStop(w) else Take(w)]
      ensures moved <==> !workers[w].Idle?
      ensures moved <==> old(jobQueue) != [] || stopClosed
    {
      ghost var before := View();
      moved := true;
      if jobQueue != [] && (chooseQueue || !stopClosed) {
        taken := taken + [jobQueue[0]];
        workers := workers[w := Running(jobQueue[0])];
        jobQueue := jobQueue[1..];
        Record(Take(w), before);
      } else if stopClosed {
        workers := workers[w := Draining];
        Record(SeeStop(w), before);
      } else {
        moved := false;
        Record(Take(w), before);
      }
    }

    /** The job a worker runs returns or panics; GoSafe swallows the panic. */
    method JobReturns(w: nat)
      requires Valid() && w < |workers| && (workers[w].Running? || workers[w].DrainRunning?)
      modifies this
      ensures Valid() && history == old(history) + [Finish(w)]
      ensures finished == old(finished) + [old(workers[w]).job]
    {
      ghost var before := View();
      finished := finished + [workers[w].job];
      workers := workers[w := if workers[w].Running? then Idle else Draining];
      Record(Finish(w), before);
    }

    /** The inner select of the drain loop: an empty queue ends the worker. */
    method WorkerDrain(w: nat)
      requires Valid() && w < |workers| && workers[w].Draining?
      modifies this
      ensures Valid() && history == old(history) + [Drain(w)]
      ensures |workers| == |old(workers)| && (workers[w].Exited? <==> old(jobQueue) == [])
    {
      ghost var before := View();
      if jobQueue != [] {
        taken := taken + [jobQueue[0]];
        workers := workers[w := DrainRunning(jobQueue[0])];
        jobQueue := jobQueue[1..];
      } else {
        workers := workers[w := Exited];
      }
      Record(Drain(w), before);
    }

    /** First half of Stop, guarded by stopOnce. */
    method CloseStopChan()
      requires Valid()
      modifies this
      ensures Valid() && stopClosed && history == old(history) + [Close]
    {
      ghost var before := View();
      if !stopClosed {
        stopClosed := true;
        early := |accepted|;
      }
      Record(Close, before);
    }

    /** Second half of Stop: wg.Wait; false while it still waits. */
    method WaitForWorkers() returns (returned: bool)
      requires Valid() && stopClosed
      modifies this
      ensures Valid() && history == old(history) + [StopReturn]
      ensures returned ==> early <= |accepted| && forall i :: 0 <= i < early ==> accepted[i] in finished
      ensures returned <==> forall i :: 0 <= i < |workers| ==> workers[i].Exited?
    {
      ghost var before := View();
      returned := true;
      for i := 0 to |workers|
        invariant returned <==> forall j :: 0 <= j < i ==> workers[j].Exited?
        invariant View() == before
      {
        returned := returned && workers[i].Exited?;
      }
      stopReturned := stopReturned || returned;
      Record(StopReturn, before);
      if returned {
        StopDrains(size, history);
      }
    }
  }
}
