/** The batch executor: a launcher that starts at most `limit` operations at a
    time, goroutines that write and complete their own result, and one atomic
    countdown that closes the batch's Done channel.

    Writing a result, completing it, counting down, closing and releasing the
    slot are separate steps, so goroutines interleave between any two of them. */
module Batch {
  /** What an operation produced; `error == ""` is a nil error and 0 the zero
      value of the result type. */
  datatype Outcome = Outcome(value: int, error: string)

  /** Progress of one index.  `Counted` is reached by the atomic decrement,
      `Signalled` once the conditional close behind it is done. */
  datatype Phase = Waiting | Running | Written | Completed | Counted | Signalled

  /** `slot`: a semaphore slot is held; `last`: the decrement returned zero. */
  datatype Op = Op(phase: Phase, slot: bool, last: bool, result: Outcome, done: bool)

  datatype State = State(limit: nat, next: nat, ops: seq<Op>, slots: nat, pending: int, doneCloses: nat)

  datatype Event =
    | Launch
    | Cancel(cause: string)
    | Return(i: nat, value: int, error: string)
    | Panic(i: nat, error: string)
    | Complete(i: nat)
    | Count(i: nat)
    | Signal(i: nat)
    | Release(i: nat)

  const WORDS := 0x1_0000_0000

  /** int32 conversion. */
  function Wrap32(x: int): int {
    (x + 0x8000_0000) % WORDS - 0x8000_0000
  }

  function Limit(batchSize: int): nat {
    if batchSize > 0 then batchSize else 100
  }

  function NewBatch(n: nat, batchSize: int): State {
    State(Limit(batchSize), 0, seq(n, _ => Op(Waiting, false, false, Outcome(0, ""), false)), 0, Wrap32(n),
          if n == 0 then 1 else 0)
  }

  function SetOp(s: State, i: nat, op: Op): State
    requires i < |s.ops|
  {
    s.(ops := s.ops[i := op])
  }

  predicate At(s: State, i: nat, phase: Phase) {
    i < |s.ops| && s.ops[i].phase == phase
  }

  /** A step that is not enabled in `s` leaves `s` as it is. */
  function Step(s: State, e: Event): State {
    match e
    case Launch =>
      if At(s, s.next, Waiting) && s.slots < s.limit then
        SetOp(s, s.next, s.ops[s.next].(phase := Running, slot := true)).(next := s.next + 1, slots := s.slots + 1)
      else s
    case Cancel(cause) =>
      if At(s, s.next, Waiting) then
        SetOp(s, s.next, s.ops[s.next].(phase := Written, result := s.ops[s.next].result.(error := cause)))
          .(next := s.next + 1)
      else s
    case Return(i, v, err) =>
      if At(s, i, Running) then SetOp(s, i, s.ops[i].(phase := Written, result := Outcome(v, err))) else s
    case Panic(i, err) =>
      if At(s, i, Running) then
        SetOp(s, i, s.ops[i].(phase := Written, result := s.ops[i].result.(error := err)))
      else s
    case Complete(i) =>
      if At(s, i, Written) then SetOp(s, i, s.ops[i].(phase := Completed, done := true)) else s
    case Count(i) =>
      if At(s, i, Completed) then
        var p := Wrap32(s.pending - 1);
        SetOp(s, i, s.ops[i].(phase := Counted, last := p == 0)).(pending := p)
      else s
    case Signal(i) =>
      if At(s, i, Counted) then
        SetOp(s, i, s.ops[i].(phase := Signalled))
          .(doneCloses := s.doneCloses + if s.ops[i].last then 1 else 0)
      else s
    case Release(i) =>
      if At(s, i, Signalled) && s.ops[i].slot && s.slots > 0 then
        SetOp(s, i, s.ops[i].(slot := false)).(slots := s.slots - 1)
      else s
  }

  function RunFrom(s: State, evs: seq<Event>): State {
    if evs == [] then s else Step(RunFrom(s, evs[..|evs| - 1]), evs[|evs| - 1])
  }

  function Run(n: nat, batchSize: int, evs: seq<Event>): State {
    RunFrom(NewBatch(n, batchSize), evs)
  }

  // Counting indices with a property

  function Tally(ops: seq<Op>, p: Op -> bool): nat {
    if ops == [] then 0 else Tally(ops[..|ops| - 1], p) + if p(ops[|ops| - 1]) then 1 else 0
  }

  lemma {:induction false} TallyIsSize(ops: seq<Op>, p: Op -> bool, counted: set<int>)
    requires forall i :: i in counted ==> 0 <= i < |ops| && p(ops[i])
    requires forall i :: 0 <= i < |ops| && p(ops[i]) ==> i in counted
    ensures Tally(ops, p) == |counted|
  {
    if ops != [] {
      var k := |ops| - 1;
      TallyIsSize(ops[..k], p, counted - {k});
    } else {
      assert forall i :: i !in counted;
      assert counted == {};
    }
  }

  lemma {:induction false} TallyUpdate(ops: seq<Op>, i: nat, op: Op, p: Op -> bool)
    requires i < |ops|
    ensures Tally(ops[i := op], p) + (if p(ops[i]) then 1 else 0) == Tally(ops, p) + if p(op) then 1 else 0
  {
    var ops' := ops[i := op];
    if i < |ops| - 1 {
      TallyUpdate(ops[..|ops| - 1], i, op, p);
      assert ops'[..|ops| - 1] == ops[..|ops| - 1][i := op];
    } else {
      assert ops'[..|ops| - 1] == ops[..|ops| - 1];
    }
  }

  lemma {:induction false} TallyBounds(ops: seq<Op>, p: Op -> bool)
    ensures Tally(ops, p) <= |ops|
    ensures Tally(ops, p) == |ops| <==> forall i :: 0 <= i < |ops| ==> p(ops[i])
    ensures Tally(ops, p) == 0 <==> forall i :: 0 <= i < |ops| ==> !p(ops[i])
  {
    if ops != [] {
      TallyBounds(ops[..|ops| - 1], p);
    }
  }

  lemma {:induction false} TallyImplies(ops: seq<Op>, p: Op -> bool, q: Op -> bool)
    requires forall op :: op in ops && p(op) ==> q(op)
    ensures Tally(ops, p) <= Tally(ops, q)
  {
    if ops != [] {
      TallyImplies(ops[..|ops| - 1], p, q);
    }
  }

  predicate IsRunning(op: Op) { op.phase.Running? }
  predicate HasSlot(op: Op) { op.slot }
  predicate HasCounted(op: Op) { op.phase.Counted? || op.phase.Signalled? }
  predicate IsLast(op: Op) { HasCounted(op) && op.last }
  predicate ClosedDone(op: Op) { op.phase.Signalled? && op.last }

  ghost predicate OpInv(op: Op) {
    && (op.phase.Waiting? ==> !op.slot && op.result == Outcome(0, ""))
    && (op.phase.Running? ==> op.slot && op.result == Outcome(0, ""))
    && (op.done <==> op.phase.Completed? || HasCounted(op))
  }

  ghost predicate Inv(s: State) {
    && s.limit >= 1
    && s.next <= |s.ops|
    && (forall i :: 0 <= i < |s.ops| ==> OpInv(s.ops[i]) && (s.ops[i].phase.Waiting? <==> i >= s.next))
    && s.slots == Tally(s.ops, HasSlot) <= s.limit
    && s.pending == Wrap32(|s.ops| - Tally(s.ops, HasCounted))
  }

  /** The countdown: with at most 2^32 operations exactly the decrement that
      counts the last index returns zero. */
  ghost predicate Countdown(s: State) {
    && Tally(s.ops, IsLast) == (if s.ops != [] && Tally(s.ops, HasCounted) == |s.ops| then 1 else 0)
    && s.doneCloses == (if s.ops == [] then 1 else Tally(s.ops, ClosedDone))
  }

  /** The index a step works on. */
  function Target(s: State, e: Event): nat {
    match e
    case Launch => s.next
    case Cancel(_) => s.next
    case Return(i, _, _) => i
    case Panic(i, _) => i
    case Complete(i) => i
    case Count(i) => i
    case Signal(i) => i
    case Release(i) => i
  }

  lemma WordRemainder(n: int, q: int, r: int)
    requires 0 <= r < WORDS && n == WORDS * q + r
    ensures n % WORDS == r
  {
  }

  lemma WrapDecrement(x: int)
    ensures Wrap32(Wrap32(x) - 1) == Wrap32(x - 1)
    ensures -WORDS < x < WORDS ==> (Wrap32(x) == 0 <==> x == 0)
  {
    var n := x + 0x8000_0000;
    var q, r := n / WORDS, n % WORDS;
    if r >= 1 {
      WordRemainder(r - 1, 0, r - 1);
      WordRemainder(n - 1, q, r - 1);
    } else {
      WordRemainder(r - 1, -1, WORDS - 1);
      WordRemainder(n - 1, q - 1, WORDS - 1);
    }
  }

  /** A change of one index that keeps its tallies in step keeps the invariant. */
  lemma SetOpKeepsInv(s: State, i: nat, op: Op, s': State)
    requires Inv(s) && i < |s.ops| && s'.ops == s.ops[i := op] && OpInv(op) && s'.limit == s.limit
    requires s'.next == s.next || (s'.next == s.next + 1 && i == s.next)
    requires op.phase.Waiting? <==> i >= s'.next
    requires s'.slots + (if HasSlot(s.ops[i]) then 1 else 0) == s.slots + (if HasSlot(op) then 1 else 0)
    requires s'.slots <= s.limit
    requires if HasCounted(op) == HasCounted(s.ops[i]) then s'.pending == s.pending
             else HasCounted(op) && s'.pending == Wrap32(s.pending - 1)
    ensures Inv(s')
  {
    TallyUpdate(s.ops, i, op, HasSlot);
    TallyUpdate(s.ops, i, op, HasCounted);
    WrapDecrement(|s.ops| - Tally(s.ops, HasCounted));
  }

  lemma StepKeepsInv(s: State, e: Event)
    requires Inv(s)
    ensures Inv(Step(s, e))
  {
    var i := Target(s, e);
    if i < |s.ops| && Step(s, e) != s {
      assert OpInv(s.ops[i]);
      SetOpKeepsInv(s, i, Step(s, e).ops[i], Step(s, e));
    }
  }

  /** The decrement returns zero exactly when one index was left. */
  lemma CountReturnsZero(s: State, i: nat)
    requires Inv(s) && |s.ops| <= WORDS && At(s, i, Completed)
    ensures Tally(s.ops, HasCounted) < |s.ops|
    ensures Step(s, Count(i)).ops[i].last <==> Tally(s.ops, HasCounted) == |s.ops| - 1
  {
    TallyBounds(s.ops, HasCounted);
    var left := |s.ops| - Tally(s.ops, HasCounted);
    assert left >= 1 by {
      assert !HasCounted(s.ops[i]);
    }
    WrapDecrement(left);
    WrapDecrement(left - 1);
  }

  lemma CountKeepsCountdown(s: State, i: nat)
    requires Inv(s) && Countdown(s) && |s.ops| <= WORDS && At(s, i, Completed)
    ensures Countdown(Step(s, Count(i)))
  {
    var op' := Step(s, Count(i)).ops[i];
    CountReturnsZero(s, i);
    TallyUpdate(s.ops, i, op', HasCounted);
    TallyUpdate(s.ops, i, op', IsLast);
    TallyUpdate(s.ops, i, op', ClosedDone);
  }

  lemma StepKeepsCountdown(s: State, e: Event)
    requires Inv(s) && Countdown(s) && |s.ops| <= WORDS
    ensures Countdown(Step(s, e))
  {
    var i := Target(s, e);
    if i < |s.ops| && Step(s, e) != s {
      if e.Count? {
        CountKeepsCountdown(s, i);
      } else {
        TallyUpdate(s.ops, i, Step(s, e).ops[i], HasCounted);
        TallyUpdate(s.ops, i, Step(s, e).ops[i], IsLast);
        TallyUpdate(s.ops, i, Step(s, e).ops[i], ClosedDone);
      }
    }
  }

  lemma SameLength(s: State, e: Event)
    ensures |Step(s, e).ops| == |s.ops|
  {
  }

  lemma {:induction false} Reachable(n: nat, batchSize: int, evs: seq<Event>)
    ensures Inv(Run(n, batchSize, evs)) && |Run(n, batchSize, evs).ops| == n
    ensures n <= WORDS ==> Countdown(Run(n, batchSize, evs))
  {
    if evs == [] {
      var ops := NewBatch(n, batchSize).ops;
      TallyBounds(ops, HasSlot);
      TallyBounds(ops, HasCounted);
      TallyBounds(ops, IsLast);
      TallyBounds(ops, ClosedDone);
    } else {
      var before, e := evs[..|evs| - 1], evs[|evs| - 1];
      var s := Run(n, batchSize, before);
      Reachable(n, batchSize, before);
      assert evs == before + [e];
      RunSnoc(n, batchSize, before, e);
      StepKeepsInv(s, e);
      SameLength(s, e);
      if n <= WORDS {
        StepKeepsCountdown(s, e);
      }
    }
  }

  /** At most batchSize (or 100) operations run at once; `pending` is the number
      of results not yet counted, in 32-bit arithmetic. */
  lemma ConcurrencyAndPending(n: nat, batchSize: int, evs: seq<Event>)
    ensures var s := Run(n, batchSize, evs);
            && Tally(s.ops, IsRunning) <= s.slots <= (if batchSize > 0 then batchSize else 100)
            && s.pending == Wrap32(n - Tally(s.ops, HasCounted))
  {
    Reachable(n, batchSize, evs);
    var s := Run(n, batchSize, evs);
    TallyImplies(s.ops, IsRunning, HasSlot);
    LimitIsConstant(n, batchSize, evs);
  }

  lemma {:induction false} LimitIsConstant(n: nat, batchSize: int, evs: seq<Event>)
    ensures Run(n, batchSize, evs).limit == Limit(batchSize)
  {
    if evs != [] {
      LimitIsConstant(n, batchSize, evs[..|evs| - 1]);
    }
  }

  /** The limit itself: at most batchSize operations run at once when it is
      positive, and at most 100 otherwise. */
  lemma AtMostBatchSizeRun(n: nat, batchSize: int, evs: seq<Event>, running: set<int>)
    requires var ops := Run(n, batchSize, evs).ops;
             forall i :: i in running ==> 0 <= i < |ops| && ops[i].phase.Running?
    ensures |running| <= if batchSize > 0 then batchSize else 100
  {
    var ops := Run(n, batchSize, evs).ops;
    var all := set i | 0 <= i < |ops| && ops[i].phase.Running?;
    ConcurrencyAndPending(n, batchSize, evs);
    TallyIsSize(ops, IsRunning, all);
    SubsetSize(running, all);
  }

  lemma {:induction false} SubsetSize(a: set<int>, b: set<int>)
    requires a <= b
    ensures |a| <= |b|
  {
    if x :| x in a {
      SubsetSize(a - {x}, b - {x});
    } else {
      assert forall x :: x !in a;
      assert a == {};
    }
  }

  /** The limit is sharp: while an operation waits, the launcher starts it if and
      only if fewer slots than that are held. */
  lemma LaunchesIff(n: nat, batchSize: int, evs: seq<Event>, held: set<int>)
    requires var ops := Run(n, batchSize, evs).ops;
             && (exists i :: 0 <= i < |ops| && ops[i].phase.Waiting?)
             && (forall i :: i in held ==> 0 <= i < |ops| && ops[i].slot)
             && (forall i :: 0 <= i < |ops| && ops[i].slot ==> i in held)
    ensures var s := Run(n, batchSize, evs);
            && s.next < n == |s.ops|
            && (if |held| < (if batchSize > 0 then batchSize else 100)
                then Step(s, Launch).ops == s.ops[s.next := Op(Running, true, false, Outcome(0, ""), false)]
                else Step(s, Launch) == s)
  {
    var s := Run(n, batchSize, evs);
    Reachable(n, batchSize, evs);
    LimitIsConstant(n, batchSize, evs);
    assert OpInv(s.ops[s.next]);
    TallyIsSize(s.ops, HasSlot, held);
    WaitingIsUntouched(n, batchSize, evs, s.next);
  }

  lemma WaitingStep(s: State, e: Event, i: nat)
    requires i < |Step(s, e).ops| && Step(s, e).ops[i].phase.Waiting?
    ensures i < |s.ops| && Step(s, e).ops[i] == s.ops[i]
  {
  }

  lemma {:induction false} WaitingIsUntouched(n: nat, batchSize: int, evs: seq<Event>, i: nat)
    requires i < |Run(n, batchSize, evs).ops| && Run(n, batchSize, evs).ops[i].phase.Waiting?
    ensures Run(n, batchSize, evs).ops[i] == Op(Waiting, false, false, Outcome(0, ""), false)
  {
    if evs != [] {
      WaitingStep(Run(n, batchSize, evs[..|evs| - 1]), evs[|evs| - 1], i);
      WaitingIsUntouched(n, batchSize, evs[..|evs| - 1], i);
    }
  }

  /** Done is closed at most once (a second close would panic), and only when
      every index has been completed and counted. */
  lemma DoneClosesOnceAtEnd(n: nat, batchSize: int, evs: seq<Event>)
    requires n <= WORDS
    ensures var s := Run(n, batchSize, evs);
            && |s.ops| == n && s.doneCloses <= 1
            && (s.doneCloses == 1 ==> forall i :: 0 <= i < n ==> s.ops[i].done && HasCounted(s.ops[i]))
            && ((forall i :: 0 <= i < n ==> s.ops[i].phase.Signalled?) ==> s.doneCloses == 1)
  {
    Reachable(n, batchSize, evs);
    var s := Run(n, batchSize, evs);
    TallyImplies(s.ops, ClosedDone, IsLast);
    TallyBounds(s.ops, HasCounted);
    if forall i :: 0 <= i < n ==> s.ops[i].phase.Signalled? {
      TallyImplies(s.ops, IsLast, ClosedDone);
    }
  }

  // Outcomes

  /** The number of times index `i` is completed in a run. */
  function Completions(n: nat, batchSize: int, evs: seq<Event>, i: nat): nat {
    if evs == [] then 0
    else
      var before := evs[..|evs| - 1];
      Completions(n, batchSize, before, i)
      + if evs[|evs| - 1] == Complete(i) && At(Run(n, batchSize, before), i, Written) then 1 else 0
  }

  /** What happened to operation `i`, read off the run: it returned, panicked or
      was cancelled before it started. */
  function HappenedTo(n: nat, batchSize: int, evs: seq<Event>, i: nat): (o: Outcome) {
    if evs == [] then Outcome(0, "")
    else
      var before := evs[..|evs| - 1];
      var s := Run(n, batchSize, before);
      match evs[|evs| - 1]
      case Return(j, v, err) =>
        if j == i && At(s, i, Running) then Outcome(v, err) else HappenedTo(n, batchSize, before, i)
      case Panic(j, err) => if j == i && At(s, i, Running) then Outcome(0, err) else HappenedTo(n, batchSize, before, i)
      case Cancel(err) =>
        if s.next == i && At(s, i, Waiting) then Outcome(0, err) else HappenedTo(n, batchSize, before, i)
      case _ => HappenedTo(n, batchSize, before, i)
  }

  lemma ResultStep(n: nat, batchSize: int, evs: seq<Event>, e: Event, i: nat)
    requires i < n && |Run(n, batchSize, evs).ops| == n
    requires Inv(Run(n, batchSize, evs))
    requires Run(n, batchSize, evs).ops[i].result == HappenedTo(n, batchSize, evs, i)
    ensures |Run(n, batchSize, evs + [e]).ops| == n
    ensures Run(n, batchSize, evs + [e]).ops[i].result == HappenedTo(n, batchSize, evs + [e], i)
  {
    assert (evs + [e])[..|evs|] == evs;
    assert OpInv(Run(n, batchSize, evs).ops[i]);
  }

  lemma DoneStep(s: State, e: Event, i: nat)
    requires Inv(s) && i < |s.ops|
    ensures var s', now := Step(s, e), e == Complete(i) && At(s, i, Written);
            |s'.ops| == |s.ops| && (s'.ops[i].done <==> s.ops[i].done || now) && !(s.ops[i].done && now)
  {
    assert OpInv(s.ops[i]);
  }

  lemma CompletionStep(n: nat, batchSize: int, evs: seq<Event>, e: Event, i: nat)
    requires i < n && |Run(n, batchSize, evs).ops| == n
    requires Inv(Run(n, batchSize, evs))
    requires Completions(n, batchSize, evs, i) == if Run(n, batchSize, evs).ops[i].done then 1 else 0
    ensures |Run(n, batchSize, evs + [e]).ops| == n
    ensures Completions(n, batchSize, evs + [e], i) == if Run(n, batchSize, evs + [e]).ops[i].done then 1 else 0
  {
    assert (evs + [e])[..|evs|] == evs;
    RunSnoc(n, batchSize, evs, e);
    DoneStep(Run(n, batchSize, evs), e, i);
  }

  lemma {:induction false} ResultIsOutcome(n: nat, batchSize: int, evs: seq<Event>, i: nat)
    requires i < n
    ensures var s := Run(n, batchSize, evs);
            && |s.ops| == n && s.ops[i].result == HappenedTo(n, batchSize, evs, i)
            && Completions(n, batchSize, evs, i) == if s.ops[i].done then 1 else 0
  {
    if evs != [] {
      var before, e := evs[..|evs| - 1], evs[|evs| - 1];
      Reachable(n, batchSize, before);
      ResultIsOutcome(n, batchSize, before, i);
      ResultStep(n, batchSize, before, e, i);
      CompletionStep(n, batchSize, before, e, i);
      assert evs == before + [e];
    }
  }

  /** Every index is completed exactly once by the time Done is closed, and from
      then on its result is its own operation's outcome. */
  lemma EachCompletedOnce(n: nat, batchSize: int, evs: seq<Event>, i: nat)
    requires n <= WORDS && i < n
    ensures Completions(n, batchSize, evs, i) <= 1
    ensures var s := Run(n, batchSize, evs);
            |s.ops| == n && (s.doneCloses == 1 ==>
              Completions(n, batchSize, evs, i) == 1 && s.ops[i].result == HappenedTo(n, batchSize, evs, i))
  {
    ResultIsOutcome(n, batchSize, evs, i);
    DoneClosesOnceAtEnd(n, batchSize, evs);
  }

  // Progress

  function Rank(p: Phase): nat {
    match p
    case Waiting => 0 case Running => 1 case Written => 2 case Completed => 3 case Counted => 4 case Signalled => 5
  }

  function Height(op: Op): nat {
    2 * Rank(op.phase) + if op.phase.Signalled? && !op.slot then 1 else 0
  }

  function TotalHeight(ops: seq<Op>): nat {
    if ops == [] then 0 else TotalHeight(ops[..|ops| - 1]) + Height(ops[|ops| - 1])
  }

  lemma {:induction false} TotalHeightUpdate(ops: seq<Op>, i: nat, op: Op)
    requires i < |ops|
    ensures TotalHeight(ops[i := op]) + Height(ops[i]) == TotalHeight(ops) + Height(op)
    ensures TotalHeight(ops) <= 11 * |ops|
  {
    var ops' := ops[i := op];
    var n := |ops| - 1;
    if i < n {
      TotalHeightUpdate(ops[..n], i, op);
      assert ops'[..n] == ops[..n][i := op];
    } else {
      assert ops'[..n] == ops[..n];
      if n > 0 {
        TotalHeightUpdate(ops[..n], 0, op);
      }
    }
  }

  lemma StepRaises(s: State, e: Event)
    requires Inv(s) && Step(s, e) != s
    ensures var i, s' := Target(s, e), Step(s, e);
            && i < |s.ops| && |s'.ops| == |s.ops| && s'.ops == s.ops[i := s'.ops[i]]
            && Height(s.ops[i]) < Height(s'.ops[i])
  {
  }

  /** Every step that changes anything climbs, and the climb is bounded by 11
      per operation: no run makes progress for ever. */
  lemma StepsClimb(n: nat, batchSize: int, evs: seq<Event>, e: Event)
    ensures var s := Run(n, batchSize, evs);
            Step(s, e) != s ==> TotalHeight(s.ops) < TotalHeight(Step(s, e).ops) <= 11 * n
  {
    var s := Run(n, batchSize, evs);
    var i := Target(s, e);
    Reachable(n, batchSize, evs);
    if Step(s, e) != s {
      StepRaises(s, e);
      TotalHeightUpdate(s.ops, i, Step(s, e).ops[i]);
      TotalHeightUpdate(Step(s, e).ops, i, s.ops[i]);
    }
  }

  lemma OpMoves(s: State, i: nat)
    requires Inv(s) && i < |s.ops| && !s.ops[i].phase.Waiting?
    requires !s.ops[i].phase.Signalled? || (s.ops[i].slot && s.slots > 0)
    ensures exists e: Event :: !e.Cancel? && Step(s, e) != s
  {
    match s.ops[i].phase
    case Running => assert Step(s, Return(i, 0, "")).ops[i].phase == Written;
    case Written => assert Step(s, Complete(i)).ops[i].phase == Completed;
    case Completed => assert Step(s, Count(i)).ops[i].phase == Counted;
    case Counted => assert Step(s, Signal(i)).ops[i].phase == Signalled;
    case Signalled => assert !Step(s, Release(i)).ops[i].slot;
  }

  /** Until Done is closed something can move without any cancellation: the
      launcher never waits for a slot that nobody will release. */
  lemma NeverStuck(n: nat, batchSize: int, evs: seq<Event>)
    requires n <= WORDS && Run(n, batchSize, evs).doneCloses == 0
    ensures exists e: Event :: !e.Cancel? && Step(Run(n, batchSize, evs), e) != Run(n, batchSize, evs)
  {
    var s := Run(n, batchSize, evs);
    Reachable(n, batchSize, evs);
    DoneClosesOnceAtEnd(n, batchSize, evs);
    var i :| 0 <= i < n && !s.ops[i].phase.Signalled?;
    if !s.ops[i].phase.Waiting? {
      OpMoves(s, i);
    } else if s.slots < s.limit {
      assert Step(s, Launch).next == s.next + 1;
    } else {
      TallyBounds(s.ops, HasSlot);
      var holder :| 0 <= holder < n && HasSlot(s.ops[holder]);
      OpMoves(s, holder);
    }
  }

  // The 32-bit countdown

  /** Cancelling the first `c` operations one after the other. */
  lemma {:induction false} CancelRun(n: nat, batchSize: int, c: nat) returns (evs: seq<Event>)
    requires c <= n
    ensures var s := Run(n, batchSize, evs);
            && s.next == c && |s.ops| == n && Tally(s.ops, HasCounted) == c
  {
    if c == 0 {
      evs := [];
      TallyBounds(NewBatch(n, batchSize).ops, HasCounted);
    } else {
      evs := CancelRun(n, batchSize, c - 1);
      evs := CancelOne(n, batchSize, evs);
    }
  }

  /** One operation cancelled and completed without interruption. */
  function Cancelled(s: State): State
    requires s.next < |s.ops|
  {
    var k, p := s.next, Wrap32(s.pending - 1);
    var result := s.ops[k].result.(error := "");
    s.(ops := s.ops[k := s.ops[k].(phase := Signalled, last := p == 0, done := true, result := result)],
       next := k + 1, pending := p, doneCloses := s.doneCloses + if p == 0 then 1 else 0)
  }

  lemma CancelSteps(s: State)
    requires Inv(s) && s.next < |s.ops|
    ensures Step(Step(Step(Step(s, Cancel("")), Complete(s.next)), Count(s.next)), Signal(s.next)) == Cancelled(s)
  {
    var k := s.next;
    var s1 := Step(s, Cancel(""));
    assert At(s1, k, Written);
    var s2 := Step(s1, Complete(k));
    assert At(s2, k, Completed);
    var s3 := Step(s2, Count(k));
    assert At(s3, k, Counted);
  }

  lemma RunSnoc(n: nat, batchSize: int, evs: seq<Event>, e: Event)
    ensures Run(n, batchSize, evs + [e]) == Step(Run(n, batchSize, evs), e)
  {
    var all := evs + [e];
    assert all[..|all| - 1] == evs;
  }

  lemma CancelRuns(n: nat, batchSize: int, evs: seq<Event>) returns (more: seq<Event>)
    requires Run(n, batchSize, evs).next < n
    ensures |Run(n, batchSize, evs).ops| == n
    ensures Run(n, batchSize, more) == Cancelled(Run(n, batchSize, evs))
  {
    Reachable(n, batchSize, evs);
    var k := Run(n, batchSize, evs).next;
    var e1 := evs + [Cancel("")];
    var e2 := e1 + [Complete(k)];
    var e3 := e2 + [Count(k)];
    more := e3 + [Signal(k)];
    RunSnoc(n, batchSize, evs, Cancel(""));
    RunSnoc(n, batchSize, e1, Complete(k));
    RunSnoc(n, batchSize, e2, Count(k));
    RunSnoc(n, batchSize, e3, Signal(k));
    CancelSteps(Run(n, batchSize, evs));
  }

  lemma CancelledCounts(s: State)
    requires Inv(s) && s.next < |s.ops|
    ensures var t := Cancelled(s);
            && Tally(t.ops, HasCounted) == Tally(s.ops, HasCounted) + 1
            && t.pending == Wrap32(|s.ops| - Tally(t.ops, HasCounted))
  {
    TallyUpdate(s.ops, s.next, Cancelled(s).ops[s.next], HasCounted);
    WrapDecrement(|s.ops| - Tally(s.ops, HasCounted));
  }

  lemma CancelOne(n: nat, batchSize: int, evs: seq<Event>) returns (more: seq<Event>)
    requires Run(n, batchSize, evs).next < n
    ensures var s, s' := Run(n, batchSize, evs), Run(n, batchSize, more);
            && |s.ops| == |s'.ops| == n && s'.next == s.next + 1
            && Tally(s'.ops, HasCounted) == Tally(s.ops, HasCounted) + 1
            && s'.doneCloses == s.doneCloses + (if Wrap32(n - Tally(s'.ops, HasCounted)) == 0 then 1 else 0)
            && (forall i :: s.next < i < n ==> s'.ops[i] == s.ops[i])
  {
    Reachable(n, batchSize, evs);
    more := CancelRuns(n, batchSize, evs);
    CancelledCounts(Run(n, batchSize, evs));
  }

  /** The 32-bit counter is what limits the size of a batch: Done closes only
      once every operation has completed if and only if there are at most 2^32. */
  lemma DoneMeansAllIffFits(n: nat, batchSize: int)
    ensures n <= WORDS <==>
            forall evs :: var s := Run(n, batchSize, evs);
              s.doneCloses >= 1 ==> |s.ops| == n && forall i :: 0 <= i < n ==> s.ops[i].done
  {
    if n <= WORDS {
      forall evs
        ensures var s := Run(n, batchSize, evs);
                s.doneCloses >= 1 ==> |s.ops| == n && forall i :: 0 <= i < n ==> s.ops[i].done
      {
        DoneClosesOnceAtEnd(n, batchSize, evs);
      }
    } else {
      var evs := CancelRun(n, batchSize, n - WORDS - 1);
      var more := CancelOne(n, batchSize, evs);
      Reachable(n, batchSize, more);
      assert Run(n, batchSize, more).ops[n - 1].phase == Waiting;
    }
  }

  /** The batch object.  `ops` holds, per index, the result record and how far
      the goroutine working on it has come. */
  class BatchAsyncResult {
    const count: nat
    const batchSize: int
    const limit: nat
    var ops: seq<Op>
    var next: nat
    var slots: nat
    var pending: int
    var doneCloses: nat
    ghost var history: seq<Event>

    ghost function View(): State
      reads this
    {
      State(limit, next, ops, slots, pending, doneCloses)
    }

    ghost predicate Valid()
      reads this
    {
      View() == Run(count, batchSize, history)
    }

    constructor (count: nat, batchSize: int)
      ensures Valid() && history == [] && this.count == count && this.batchSize == batchSize
    {
      this.count, this.batchSize, this.limit := count, batchSize, Limit(batchSize);
      ops := seq(count, _ => Op(Waiting, false, false, Outcome(0, ""), false));
      next, slots, pending, history := 0, 0, Wrap32(count), [];
      doneCloses := if count == 0 then 1 else 0;
    }

    ghost method Record(e: Event, before: State)
      requires before == Run(count, batchSize, history) && View() == Step(before, e)
      modifies this`history
      ensures Valid() && history == old(history) + [e]
    {
      history := history + [e];
      assert history[..|history| - 1] == old(history);
    }

    /** One turn of the launching loop; false while it waits for a slot.
        `chooseSlot` is the choice of the select when both channels are ready. */
    method StartNext(cancelled: bool, cause: string, chooseSlot: bool) returns (advanced: bool)
      requires Valid() && next < count
      modifies this
      ensures Valid() && next == old(next) + (if advanced then 1 else 0) && slots <= limit
      ensures advanced <==> old(slots) < limit || cancelled
      ensures advanced <==> Tally(old(ops), HasSlot) < (if batchSize > 0 then batchSize else 100) || cancelled
      ensures history == old(history) + (if !advanced then []
                                         else if old(slots) < limit && (chooseSlot || !cancelled) then [Launch]
                                         else [Cancel(cause)])
      ensures Tally(ops, IsRunning) <= limit == if batchSize > 0 then batchSize else 100
    {
      Reachable(count, batchSize, history);
      LimitIsConstant(count, batchSize, history);
      ghost var before := View();
      advanced := true;
      if slots < limit && (chooseSlot || !cancelled) {
        ops := ops[next := ops[next].(phase := Running, slot := true)];
        slots := slots + 1;
        next := next + 1;
        Record(Launch, before);
      } else if cancelled {
        ops := ops[next := ops[next].(phase := Written, result := ops[next].result.(error := cause))];
        next := next + 1;
        Record(Cancel(cause), before);
      } else {
        advanced := false;
      }
      LimitIsConstant(count, batchSize, history);
      ConcurrencyAndPending(count, batchSize, history);
    }

    /** The operation returns, or panics and is recovered, and its result is written. */
    method OperationEnds(i: nat, panicked: bool, value: int, error: string)
      requires Valid() && At(View(), i, Running)
      modifies this
      ensures Valid() && At(View(), i, Written)
      ensures history == old(history) + [if panicked then Panic(i, error) else Return(i, value, error)]
      ensures HappenedTo(count, batchSize, history, i) == Outcome(if panicked then 0 else value, error)
      ensures ops[i].result == HappenedTo(count, batchSize, history, i)
    {
      Reachable(count, batchSize, history);
      ghost var before, was := View(), history;
      if panicked {
        ops := ops[i := ops[i].(phase := Written, result := ops[i].result.(error := error))];
        Record(Panic(i, error), before);
      } else {
        ops := ops[i := ops[i].(phase := Written, result := Outcome(value, error))];
        Record(Return(i, value, error), before);
      }
      assert history[..|history| - 1] == was;
      ResultIsOutcome(count, batchSize, history, i);
    }

    method MarkComplete(i: nat)
      requires Valid() && At(View(), i, Written)
      modifies this`ops, this`history
      ensures Valid() && history == old(history) + [Complete(i)]
      ensures ops == old(ops)[i := old(ops)[i].(phase := Completed, done := true)]
    {
      ghost var before := View();
      ops := ops[i := ops[i].(phase := Completed, done := true)];
      Record(Complete(i), before);
    }

    /** atomic.AddInt32(&pending, -1) == 0 */
    method CountDown(i: nat) returns (last: bool)
      requires Valid() && At(View(), i, Completed)
      modifies this`ops, this`pending, this`history
      ensures Valid() && history == old(history) + [Count(i)]
      ensures pending == Wrap32(old(pending) - 1) && (last <==> pending == 0)
      ensures ops == old(ops)[i := old(ops)[i].(phase := Counted, last := last)]
    {
      ghost var before := View();
      pending := Wrap32(pending - 1);
      last := pending == 0;
      ops := ops[i := ops[i].(phase := Counted, last := last)];
      Record(Count(i), before);
    }

    method CloseIfLast(i: nat, last: bool)
      requires Valid() && At(View(), i, Counted) && ops[i].last == last
      modifies this`ops, this`doneCloses, this`history
      ensures Valid() && history == old(history) + [Signal(i)]
      ensures doneCloses == old(doneCloses) + (if last then 1 else 0)
      ensures ops == old(ops)[i := old(ops)[i].(phase := Signalled)]
    {
      ghost var before := View();
      if last {
        doneCloses := doneCloses + 1;
      }
      ops := ops[i := ops[i].(phase := Signalled)];
      Record(Signal(i), before);
    }

    /** CompleteResult, run without interruption: complete, count down, close. */
    method CompleteResult(i: nat)
      requires Valid() && At(View(), i, Written)
      modifies this
      ensures Valid() && history == old(history) + [Complete(i), Count(i), Signal(i)]
      ensures At(View(), i, Signalled) && ops[i].done && ops[i].result == old(ops[i].result)
      ensures pending == Wrap32(old(pending) - 1)
      ensures count <= WORDS ==> doneCloses <= 1
    {
      MarkComplete(i);
      var last := CountDown(i);
      CloseIfLast(i, last);
      if count <= WORDS {
        DoneClosesOnceAtEnd(count, batchSize, history);
      }
    }

    method ReleaseSlot(i: nat)
      requires Valid() && At(View(), i, Signalled) && ops[i].slot
      modifies this
      ensures Valid() && slots == old(slots) - 1 && history == old(history) + [Release(i)]
    {
      Reachable(count, batchSize, history);
      TallyBounds(ops, HasSlot);
      ghost var before := View();
      ops := ops[i := ops[i].(slot := false)];
      slots := slots - 1;
      Record(Release(i), before);
    }

    /** WaitAll, once Done has been closed. */
    method WaitAll() returns (values: seq<int>, errors: seq<string>)
      requires Valid() && doneCloses == 1 && count <= WORDS
      ensures |values| == |errors| == count
      ensures forall i :: 0 <= i < count ==> Outcome(values[i], errors[i]) == HappenedTo(count, batchSize, history, i)
    {
      values, errors := [], [];
      Reachable(count, batchSize, history);
      for i := 0 to |ops|
        invariant |values| == |errors| == i
        invariant forall k :: 0 <= k < i ==> Outcome(values[k], errors[k]) == HappenedTo(count, batchSize, history, k)
      {
        EachCompletedOnce(count, batchSize, history, i);
        values := values + [ops[i].result.value];
        errors := errors + [ops[i].result.error];
      }
    }
  }
}
