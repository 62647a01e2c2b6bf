/** Checking the partitions of a history in parallel, as a protocol between the workers and the collector.

    Each worker runs the search on its partition, stores what it recorded, and sends its verdict
    into the results channel.  The collector receives verdicts until all are in, one is false (when no
    information is wanted), or the timer fires; it then sets the kill flag where needed.  */
module CheckParallel {
  import opened Wrappers
  import opened Linearizability
  import opened Entries
  import opened Search
  import opened Cursor
  import opened CheckSingle

  datatype Job<!S, !I, !O> = Job(m: Model<S, I, O>, history: seq<seq<Entry<I, O>>>, computeInfo: bool, hasTimeout: bool)

  ghost predicate ValidJob<S(!new), I(!new), O(!new)>(job: Job<S, I, O>) {
    EqualRespectsStep(job.m) && forall i | 0 <= i < |job.history| :: WellFormed(job.history[i])
  }

  /** `killed` says whether the worker's run saw the kill flag set. */
  datatype Worker = Running | Stored(ok: bool, killed: bool) | Sent(ok: bool, killed: bool)

  datatype Phase = Collecting | Leaving | Done

  datatype CheckResult = Unknown | Ok | Illegal

  datatype State = State(
    kill: bool,
    workers: seq<Worker>,
    longest: seq<seq<Option<seq<nat>>>>,   // one slot per worker
    channel: seq<nat>,                     // whose verdicts wait in the channel
    received: set<nat>,                    // whose verdicts the collector took out
    count: nat,
    ok: bool,
    timedOut: bool,
    phase: Phase)

  datatype Step =
    | Return(i: nat, ok: bool, longest: seq<Option<seq<nat>>>, killed: bool, order: seq<nat>)
    | Send(i: nat)
    | Receive
    | Timeout
    | Drain
    | Finish

  ghost predicate Init<S(!new), I(!new), O(!new)>(job: Job<S, I, O>, s: State) {
    var n := |job.history|;
    && |s.longest| == n
    && s == State(false, seq(n, _ => Running), s.longest, [], {}, 0, true, false, Collecting)
  }

  ghost predicate NextStep<S(!new), I(!new), O(!new)>(job: Job<S, I, O>, s: State, s': State, step: Step)
    requires ValidJob(job)
  {
    var n := |job.history|;
    && |s.workers| == |s.longest| == n
    && match step
       case Return(i, ok, longest, killed, order) =>
         && i < n && s.workers[i].Running?
         && (killed ==> s.kill)
         && Outcome(job.m, job.history[i], job.computeInfo, ok, longest, killed, order)
         && s' == s.(workers := s.workers[i := Stored(ok, killed)], longest := s.longest[i := longest])
       case Send(i) =>
         && i < n && s.workers[i].Stored?
         && s' == s.(workers := s.workers[i := Sent(s.workers[i].ok, s.workers[i].killed)], channel := s.channel + [i])
       case Receive =>
         && s.phase.Collecting? && s.channel != [] && s.channel[0] < n && s.workers[s.channel[0]].Sent?
         && var i := s.channel[0];
         var ok := s.ok && s.workers[i].ok;
         var stop := !ok && !job.computeInfo;
         s' == s.(channel := s.channel[1..], received := s.received + {i}, count := s.count + 1, ok := ok,
                  kill := s.kill || stop,
                  phase := if stop || s.count + 1 >= n then Leaving else Collecting)
       case Timeout =>
         && s.phase.Collecting? && job.hasTimeout
         && s' == s.(timedOut := true, kill := true, phase := Leaving)
       case Drain =>
         && s.phase.Leaving? && job.computeInfo && s.count < n && s.channel != []
         && s' == s.(channel := s.channel[1..], received := s.received + {s.channel[0]}, count := s.count + 1)
       case Finish =>
         && s.phase.Leaving? && (job.computeInfo ==> s.count >= n)
         && s' == s.(phase := Done)
  }

  ghost predicate Next<S(!new), I(!new), O(!new)>(job: Job<S, I, O>, s: State, s': State)
    requires ValidJob(job)
  {
    exists step :: NextStep(job, s, s', step)
  }

  ghost predicate CanStep<S(!new), I(!new), O(!new)>(job: Job<S, I, O>, s: State)
    requires ValidJob(job)
  {
    exists s' :: Next(job, s, s')
  }

  ghost predicate IsRun<S(!new), I(!new), O(!new)>(job: Job<S, I, O>, run: seq<State>)
    requires ValidJob(job)
  {
    && run != []
    && Init(job, run[0])
    && forall k | 0 <= k < |run| - 1 :: Next(job, run[k], run[k + 1])
  }

  function Result(s: State): CheckResult {
    if !s.ok then Illegal else if s.timedOut then Unknown else Ok
  }

  // ---- the invariant ----

  ghost predicate PartOk<S(!new), I(!new), O(!new)>(job: Job<S, I, O>, i: nat)
    requires ValidJob(job) && i < |job.history|
  {
    Linearizable(job.m, OpsOf(job.history[i]))
  }

  /** What a worker left behind is an outcome of its search. */
  ghost predicate WorkerInv<S(!new), I(!new), O(!new)>(job: Job<S, I, O>, s: State, i: nat)
    requires ValidJob(job) && i < |job.history| == |s.workers| == |s.longest|
  {
    match s.workers[i]
    case Running => true
    case Stored(ok, killed) =>
      (killed ==> s.kill) && exists order :: Outcome(job.m, job.history[i], job.computeInfo, ok, s.longest[i], killed, order)
    case Sent(ok, killed) =>
      (killed ==> s.kill) && exists order :: Outcome(job.m, job.history[i], job.computeInfo, ok, s.longest[i], killed, order)
  }

  /** Every verdict sent is in the channel or received, once. */
  ghost predicate ChannelInv(s: State) {
    && Distinct(s.channel)
    && s.received !! Elements(s.channel)
    && (forall i: nat :: i in s.received || i in s.channel <==> i < |s.workers| && s.workers[i].Sent?)
    && s.count == |s.received|
  }

  ghost predicate Inv<S(!new), I(!new), O(!new)>(job: Job<S, I, O>, s: State)
    requires ValidJob(job)
  {
    var n := |job.history|;
    && |s.workers| == |s.longest| == n
    && (forall i: nat | i < n :: WorkerInv(job, s, i))
    && ChannelInv(s)
    && (s.timedOut ==> job.hasTimeout && s.kill)
    && (s.kill <==> s.timedOut || (!s.ok && !job.computeInfo))
    && (s.phase.Collecting? ==> !s.kill && (s.ok ==> forall i: nat | i in s.received :: i < n && PartOk(job, i)))
    && (!s.ok ==> exists i: nat :: i < n && !PartOk(job, i))
    && (!s.phase.Collecting? && s.ok && !s.timedOut ==> forall i: nat | i < n :: PartOk(job, i))
    && (s.phase.Collecting? ==> s.count < n || n == 0)
    && (s.phase.Done? && job.computeInfo ==> s.count >= n)
    && (!s.phase.Collecting? ==> s.timedOut || n > 0)
  }

  lemma InitInv<S(!new), I(!new), O(!new)>(job: Job<S, I, O>, s: State)
    requires ValidJob(job) && Init(job, s)
    ensures Inv(job, s)
  {
  }

  /** An unkilled verdict is the truth. */
  lemma VerdictIsTrue<S(!new), I(!new), O(!new)>(job: Job<S, I, O>, s: State, i: nat)
    requires ValidJob(job) && Inv(job, s) && i < |job.history| && s.workers[i].Sent? && !s.workers[i].killed
    ensures s.workers[i].ok <==> PartOk(job, i)
  {
    assert WorkerInv(job, s, i);
    var order :| Outcome(job.m, job.history[i], job.computeInfo, s.workers[i].ok, s.longest[i], false, order);
  }

  lemma ReturnKeepsInv<S(!new), I(!new), O(!new)>(job: Job<S, I, O>, s: State, s': State, step: Step)
    requires ValidJob(job) && Inv(job, s) && NextStep(job, s, s', step) && step.Return?
    ensures Inv(job, s')
  {
    hide Outcome, PartOk;
    var x := step.i;
    assert s'.workers[x] == Stored(step.ok, step.killed) && s'.longest[x] == step.longest;
    assert Outcome(job.m, job.history[x], job.computeInfo, step.ok, s'.longest[x], step.killed, step.order);
    assert WorkerInv(job, s', x);
    forall i: nat | i < |job.history| && i != x ensures WorkerInv(job, s', i) {
      assert WorkerInv(job, s, i) && s'.workers[i] == s.workers[i] && s'.longest[i] == s.longest[i];
    }
  }

  lemma SendKeepsInv<S(!new), I(!new), O(!new)>(job: Job<S, I, O>, s: State, s': State, step: Step)
    requires ValidJob(job) && Inv(job, s) && NextStep(job, s, s', step) && step.Send?
    ensures Inv(job, s')
  {
    forall i: nat | i < |job.history| ensures WorkerInv(job, s', i) {
      assert WorkerInv(job, s, i);
    }
    assert step.i !in s.channel && step.i !in s.received;
  }

  lemma TakeFromChannel(s: State, s': State)
    requires ChannelInv(s) && s.channel != [] && s'.workers == s.workers && s'.channel == s.channel[1..]
    requires s'.received == s.received + {s.channel[0]} && s'.count == s.count + 1
    ensures ChannelInv(s')
  {
    var x := s.channel[0];
    assert s.channel == [x] + s'.channel;
    assert x in s.channel && x !in s'.channel && x !in s.received;
  }

  lemma ReceiveKeepsInv<S(!new), I(!new), O(!new)>(job: Job<S, I, O>, s: State, s': State)
    requires ValidJob(job) && Inv(job, s) && NextStep(job, s, s', Receive)
    ensures Inv(job, s')
  {
    hide WorkerInv, ChannelInv, PartOk;
    var x := s.channel[0];
    TakeFromChannel(s, s');
    SentUnkilled(job, s, x);
    VerdictIsTrue(job, s, x);
    WorkersStay(job, s, s');
    ReceivedInRange(job, s');
    assert s'.ok ==> forall i: nat | i in s'.received :: i < |job.history| && PartOk(job, i);
    assert !s'.ok ==> exists i: nat :: i < |job.history| && !PartOk(job, i);
    assert s'.phase.Leaving? && s'.ok ==> forall i: nat | i < |job.history| :: PartOk(job, i);
    assert ChannelInv(s');
  }

  lemma SentUnkilled<S(!new), I(!new), O(!new)>(job: Job<S, I, O>, s: State, i: nat)
    requires ValidJob(job) && Inv(job, s) && i < |job.history| && s.workers[i].Sent? && !s.kill
    ensures !s.workers[i].killed
  {
    hide Outcome, PartOk, ChannelInv;
    assert WorkerInv(job, s, i);
  }

  lemma WorkersStay<S(!new), I(!new), O(!new)>(job: Job<S, I, O>, s: State, s': State)
    requires ValidJob(job) && |s.workers| == |s.longest| == |job.history| && forall i: nat | i < |job.history| :: WorkerInv(job, s, i)
    requires s'.workers == s.workers && s'.longest == s.longest && (s.kill ==> s'.kill)
    ensures forall i: nat | i < |job.history| :: WorkerInv(job, s', i)
  {
    hide Outcome;
    forall i: nat | i < |job.history| ensures WorkerInv(job, s', i) {
      assert WorkerInv(job, s, i);
    }
  }

  lemma ReceivedInRange<S(!new), I(!new), O(!new)>(job: Job<S, I, O>, s: State)
    requires |s.workers| == |job.history| && ChannelInv(s)
    ensures forall i: nat | i in s.received :: i < |job.history|
    ensures s.count >= |job.history| ==> forall i: nat | i < |job.history| :: i in s.received
  {
    SubsetOfRange(s.received, |job.history|);
  }

  lemma OtherKeepsInv<S(!new), I(!new), O(!new)>(job: Job<S, I, O>, s: State, s': State, step: Step)
    requires ValidJob(job) && Inv(job, s) && NextStep(job, s, s', step) && (step.Timeout? || step.Drain? || step.Finish?)
    ensures Inv(job, s')
  {
    if step.Drain? {
      TakeFromChannel(s, s');
    }
    forall i: nat | i < |job.history| ensures WorkerInv(job, s', i) {
      assert WorkerInv(job, s, i);
    }
  }

  lemma NextKeepsInv<S(!new), I(!new), O(!new)>(job: Job<S, I, O>, s: State, s': State)
    requires ValidJob(job) && Inv(job, s) && Next(job, s, s')
    ensures Inv(job, s')
  {
    hide Inv, NextStep;
    var step :| NextStep(job, s, s', step);
    match step
    case Return(_, _, _, _, _) => ReturnKeepsInv(job, s, s', step);
    case Send(_) => SendKeepsInv(job, s, s', step);
    case Receive => ReceiveKeepsInv(job, s, s');
    case Timeout => OtherKeepsInv(job, s, s', step);
    case Drain => OtherKeepsInv(job, s, s', step);
    case Finish => OtherKeepsInv(job, s, s', step);
  }

  lemma {:induction false} RunInv<S(!new), I(!new), O(!new)>(job: Job<S, I, O>, run: seq<State>)
    requires ValidJob(job) && IsRun(job, run)
    ensures Inv(job, run[|run| - 1])
    decreases |run|
  {
    hide Inv, Next, Init, ValidJob;
    var k := |run| - 1;
    if k == 0 {
      InitInv(job, run[0]);
    } else {
      RunInv(job, run[..k]);
      NextKeepsInv(job, run[k - 1], run[k]);
    }
  }

  // ---- verdicts ----

  /** In every run: Ok only if all partitions are linearizable, Illegal only if one is not, and
      Unknown only after the timer fired.  */
  lemma VerdictIsSound<S(!new), I(!new), O(!new)>(job: Job<S, I, O>, run: seq<State>)
    requires ValidJob(job) && IsRun(job, run) && run[|run| - 1].phase.Done?
    ensures match Result(run[|run| - 1])
      case Ok => forall i: nat | i < |job.history| :: PartOk(job, i)
      case Illegal => exists i: nat :: i < |job.history| && !PartOk(job, i)
      case Unknown => job.hasTimeout && run[|run| - 1].timedOut
  {
    hide WorkerInv, ChannelInv, IsRun;
    RunInv(job, run);
  }

  // ---- which verdict, in terms of what happened ----

  /** In this step the collector receives a false verdict. */
  ghost predicate ReceivesFalse<S(!new), I(!new), O(!new)>(job: Job<S, I, O>, s: State, s': State)
    requires ValidJob(job)
  {
    NextStep(job, s, s', Receive) && !s.workers[s.channel[0]].ok
  }

  /** In this step the timer fires. */
  ghost predicate TimerFires<S(!new), I(!new), O(!new)>(job: Job<S, I, O>, s: State, s': State)
    requires ValidJob(job)
  {
    NextStep(job, s, s', Timeout)
  }

  ghost predicate ReceivedFalse<S(!new), I(!new), O(!new)>(job: Job<S, I, O>, run: seq<State>)
    requires ValidJob(job)
  {
    exists k :: 0 <= k < |run| - 1 && ReceivesFalse(job, run[k], run[k + 1])
  }

  ghost predicate TimerFired<S(!new), I(!new), O(!new)>(job: Job<S, I, O>, run: seq<State>)
    requires ValidJob(job)
  {
    exists k :: 0 <= k < |run| - 1 && TimerFires(job, run[k], run[k + 1])
  }

  lemma StepRemembers<S(!new), I(!new), O(!new)>(job: Job<S, I, O>, s: State, s': State)
    requires ValidJob(job) && Next(job, s, s')
    ensures s'.ok <==> s.ok && !ReceivesFalse(job, s, s')
    ensures s'.timedOut <==> s.timedOut || TimerFires(job, s, s')
  {
    hide Outcome;
    var step :| NextStep(job, s, s', step);
    if step.Timeout? {
      assert TimerFires(job, s, s');
    } else if step.Receive? {
      assert NextStep(job, s, s', Receive);
    }
  }

  lemma {:induction false} RunRemembers<S(!new), I(!new), O(!new)>(job: Job<S, I, O>, run: seq<State>)
    requires ValidJob(job) && IsRun(job, run)
    ensures run[|run| - 1].ok <==> !ReceivedFalse(job, run)
    ensures run[|run| - 1].timedOut <==> TimerFired(job, run)
    decreases |run|
  {
    hide ValidJob, Next, ReceivesFalse, TimerFires, ReceivedFalse, TimerFired;
    var k := |run| - 1;
    if k == 0 {
      NothingHappened(job, run);
    } else {
      RunRemembers(job, run[..k]);
      StepRemembers(job, run[k - 1], run[k]);
      FalseEarlierOrLast(job, run);
      TimerEarlierOrLast(job, run);
    }
  }

  lemma NothingHappened<S(!new), I(!new), O(!new)>(job: Job<S, I, O>, run: seq<State>)
    requires ValidJob(job) && |run| == 1
    ensures !ReceivedFalse(job, run) && !TimerFired(job, run)
  {
  }

  lemma FalseEarlierOrLast<S(!new), I(!new), O(!new)>(job: Job<S, I, O>, run: seq<State>)
    requires ValidJob(job) && |run| > 1
    ensures var k := |run| - 1;
      ReceivedFalse(job, run) <==> ReceivedFalse(job, run[..k]) || ReceivesFalse(job, run[k - 1], run[k])
  {
    hide ValidJob, ReceivesFalse;
    var k := |run| - 1;
    var before := run[..k];
    if j :| 0 <= j < |before| - 1 && ReceivesFalse(job, before[j], before[j + 1]) {
      assert ReceivesFalse(job, run[j], run[j + 1]);
    }
    if ReceivesFalse(job, run[k - 1], run[k]) {
      assert ReceivesFalse(job, run[k - 1], run[k - 1 + 1]);
    }
    if j :| 0 <= j < |run| - 1 && ReceivesFalse(job, run[j], run[j + 1]) {
      assert j < k - 1 ==> ReceivesFalse(job, before[j], before[j + 1]);
    }
  }

  lemma TimerEarlierOrLast<S(!new), I(!new), O(!new)>(job: Job<S, I, O>, run: seq<State>)
    requires ValidJob(job) && |run| > 1
    ensures var k := |run| - 1;
      TimerFired(job, run) <==> TimerFired(job, run[..k]) || TimerFires(job, run[k - 1], run[k])
  {
    hide ValidJob, TimerFires;
    var k := |run| - 1;
    var before := run[..k];
    if j :| 0 <= j < |before| - 1 && TimerFires(job, before[j], before[j + 1]) {
      assert TimerFires(job, run[j], run[j + 1]);
    }
    if TimerFires(job, run[k - 1], run[k]) {
      assert TimerFires(job, run[k - 1], run[k - 1 + 1]);
    }
    if j :| 0 <= j < |run| - 1 && TimerFires(job, run[j], run[j + 1]) {
      assert j < k - 1 ==> TimerFires(job, before[j], before[j + 1]);
    }
  }

  /** Illegal exactly when the collector received a false verdict, also if the timer fired later; Unknown exactly
      when the timer fired and no false verdict was received before; Ok exactly when neither happened.  */
  lemma VerdictTellsWhatHappened<S(!new), I(!new), O(!new)>(job: Job<S, I, O>, run: seq<State>)
    requires ValidJob(job) && IsRun(job, run)
    ensures Result(run[|run| - 1]) == Illegal <==> ReceivedFalse(job, run)
    ensures Result(run[|run| - 1]) == Unknown <==> TimerFired(job, run) && !ReceivedFalse(job, run)
    ensures Result(run[|run| - 1]) == Ok <==> !TimerFired(job, run) && !ReceivedFalse(job, run)
  {
    hide ValidJob, IsRun, ReceivedFalse, TimerFired;
    RunRemembers(job, run);
  }

  /** The kill flag is set exactly when the timer fired or, if no information is wanted, a false verdict was received;
      in both cases the collector has left its loop.  */
  lemma KillExactlyWhen<S(!new), I(!new), O(!new)>(job: Job<S, I, O>, run: seq<State>)
    requires ValidJob(job) && IsRun(job, run)
    ensures run[|run| - 1].kill <==> TimerFired(job, run) || (!job.computeInfo && ReceivedFalse(job, run))
    ensures run[|run| - 1].kill ==> !run[|run| - 1].phase.Collecting?
  {
    hide ValidJob, Next, ReceivedFalse, TimerFired, WorkerInv, ChannelInv, PartOk;
    RunRemembers(job, run);
    RunInv(job, run);
  }

  /** Without information to gather, a collector that leaves its loop waits for nobody. */
  lemma LeavesAtOnce<S(!new), I(!new), O(!new)>(job: Job<S, I, O>, s: State, s': State)
    requires ValidJob(job) && |s.workers| == |s.longest| == |job.history| && s.phase.Leaving? && !job.computeInfo
    ensures NextStep(job, s, s.(phase := Done), Finish)
    ensures Next(job, s, s') ==> s'.count == s.count && s'.received == s.received && s'.ok == s.ok
  {
    hide Outcome;
  }

  /** Without a timer the verdict is exact. */
  lemma VerdictIsExact<S(!new), I(!new), O(!new)>(job: Job<S, I, O>, run: seq<State>)
    requires ValidJob(job) && IsRun(job, run) && run[|run| - 1].phase.Done? && !job.hasTimeout
    ensures Result(run[|run| - 1]) == if forall i: nat | i < |job.history| :: PartOk(job, i) then Ok else Illegal
  {
    hide PartOk, IsRun;
    VerdictIsSound(job, run);
  }

  // ---- every check comes to an end ----

  function WorkLeft(workers: seq<Worker>): nat {
    if workers == [] then 0
    else WorkLeft(workers[..|workers| - 1]) + match workers[|workers| - 1] case Running => 3 case Stored(_, _) => 2 case Sent(_, _) => 0
  }

  /** Every step brings the run nearer to its end. */
  function StepsLeft(s: State): nat {
    WorkLeft(s.workers) + |s.channel| + match s.phase case Collecting => 2 case Leaving => 1 case Done => 0
  }

  lemma {:induction false} WorkerMoves(workers: seq<Worker>, i: nat, w: Worker)
    requires i < |workers| && !w.Running? && (workers[i].Running? || (workers[i].Stored? && w.Sent?))
    ensures WorkLeft(workers[i := w]) < WorkLeft(workers)
    ensures w.Sent? ==> WorkLeft(workers[i := w]) + 1 < WorkLeft(workers)
  {
    var k := |workers| - 1;
    if i == k {
      assert workers[i := w][..k] == workers[..k];
    } else {
      WorkerMoves(workers[..k], i, w);
      assert workers[i := w][..k] == workers[..k][i := w];
    }
  }

  lemma {:induction false} AllRunning(n: nat)
    ensures WorkLeft(seq(n, _ => Running)) == 3 * n
  {
    if n > 0 {
      AllRunning(n - 1);
      assert seq(n, _ => Running)[..n - 1] == seq(n - 1, _ => Running);
    }
  }

  lemma StepsDecrease<S(!new), I(!new), O(!new)>(job: Job<S, I, O>, s: State, s': State)
    requires ValidJob(job) && Next(job, s, s')
    ensures StepsLeft(s') < StepsLeft(s)
  {
    hide WorkLeft, Outcome;
    var step :| NextStep(job, s, s', step);
    if step.Return? {
      WorkerMoves(s.workers, step.i, Stored(step.ok, step.killed));
    } else if step.Send? {
      WorkerMoves(s.workers, step.i, Sent(s.workers[step.i].ok, s.workers[step.i].killed));
    }
  }

  /** No run is longer than three steps for each partition and two for the collector. */
  lemma {:induction false} RunsAreBounded<S(!new), I(!new), O(!new)>(job: Job<S, I, O>, run: seq<State>)
    requires ValidJob(job) && IsRun(job, run)
    ensures |run| - 1 + StepsLeft(run[|run| - 1]) <= 3 * |job.history| + 2
    decreases |run|
  {
    hide Next, ValidJob, WorkLeft;
    var k := |run| - 1;
    if k == 0 {
      AllRunning(|job.history|);
    } else {
      RunsAreBounded(job, run[..k]);
      StepsDecrease(job, run[k - 1], run[k]);
    }
  }

  /** A worker that runs can return whatever its history is. */
  lemma ReturnIsEnabled<S(!new), I(!new), O(!new)>(job: Job<S, I, O>, s: State, i: nat)
    requires ValidJob(job) && |s.workers| == |s.longest| == |job.history| && i < |s.workers| && s.workers[i].Running?
    ensures CanStep(job, s)
  {
    hide Outcome;
    var ok, longest, order := OutcomeExists(job.m, job.history[i], job.computeInfo);
    var s' := s.(workers := s.workers[i := Stored(ok, false)], longest := s.longest[i := longest]);
    assert NextStep(job, s, s', Return(i, ok, longest, false, order));
    assert Next(job, s, s');
  }

  lemma SendIsEnabled<S(!new), I(!new), O(!new)>(job: Job<S, I, O>, s: State, i: nat)
    requires ValidJob(job) && |s.workers| == |s.longest| == |job.history| && i < |s.workers| && s.workers[i].Stored?
    ensures CanStep(job, s)
  {
    var s' := s.(workers := s.workers[i := Sent(s.workers[i].ok, s.workers[i].killed)], channel := s.channel + [i]);
    assert NextStep(job, s, s', Send(i));
    assert Next(job, s, s');
  }

  /** When all verdicts are sent and not all received, the channel has one. */
  lemma ChannelHasVerdict<S(!new), I(!new), O(!new)>(job: Job<S, I, O>, s: State)
    requires ValidJob(job) && Inv(job, s) && s.count < |job.history|
    requires forall i: nat | i < |s.workers| :: s.workers[i].Sent?
    ensures s.channel != [] && s.channel[0] < |job.history| && s.workers[s.channel[0]].Sent?
  {
    hide WorkerInv, PartOk;
    if s.channel == [] {
      SupersetOfRange(s.received, |job.history|);
    }
    assert s.channel[0] in s.channel;
  }

  lemma CollectorMoves<S(!new), I(!new), O(!new)>(job: Job<S, I, O>, s: State)
    requires ValidJob(job) && Inv(job, s) && !s.phase.Done? && (job.history != [] || job.hasTimeout)
    requires forall i: nat | i < |s.workers| :: s.workers[i].Sent?
    ensures CanStep(job, s)
  {
    hide WorkerInv, PartOk, ChannelInv;
    var n := |job.history|;
    if s.count < n {
      ChannelHasVerdict(job, s);
    }
    if s.phase.Leaving? && (job.computeInfo ==> s.count >= n) {
      assert NextStep(job, s, s.(phase := Done), Finish);
      assert Next(job, s, s.(phase := Done));
    } else if s.phase.Leaving? {
      var s' := s.(channel := s.channel[1..], received := s.received + {s.channel[0]}, count := s.count + 1);
      assert NextStep(job, s, s', Drain);
      assert Next(job, s, s');
    } else if job.hasTimeout {
      var s' := s.(timedOut := true, kill := true, phase := Leaving);
      assert NextStep(job, s, s', Timeout);
      assert Next(job, s, s');
    } else {
      ReceiveIsEnabled(job, s);
    }
  }

  lemma ReceiveIsEnabled<S(!new), I(!new), O(!new)>(job: Job<S, I, O>, s: State)
    requires ValidJob(job) && |s.workers| == |s.longest| == |job.history| && s.phase.Collecting?
    requires s.channel != [] && s.channel[0] < |job.history| && s.workers[s.channel[0]].Sent?
    ensures CanStep(job, s)
  {
    var ok := s.ok && s.workers[s.channel[0]].ok;
    var stop := !ok && !job.computeInfo;
    var s' := s.(channel := s.channel[1..], received := s.received + {s.channel[0]}, count := s.count + 1, ok := ok,
                 kill := s.kill || stop,
                 phase := if stop || s.count + 1 >= |job.history| then Leaving else Collecting);
    assert NextStep(job, s, s', Receive);
    assert Next(job, s, s');
  }

  /** The run cannot be extended. */
  ghost predicate Maximal<S(!new), I(!new), O(!new)>(job: Job<S, I, O>, run: seq<State>)
    requires ValidJob(job)
  {
    IsRun(job, run) && !CanStep(job, run[|run| - 1])
  }

  lemma MaximalIsDone<S(!new), I(!new), O(!new)>(job: Job<S, I, O>, run: seq<State>)
    requires ValidJob(job) && Maximal(job, run) && (job.history != [] || job.hasTimeout)
    ensures run[|run| - 1].phase.Done?
  {
    hide ValidJob, Next, CanStep, WorkerInv, PartOk, ChannelInv;
    var s := run[|run| - 1];
    RunInv(job, run);
    forall i: nat | i < |s.workers| ensures s.workers[i].Sent? {
      if s.workers[i].Running? {
        ReturnIsEnabled(job, s, i);
      } else if s.workers[i].Stored? {
        SendIsEnabled(job, s, i);
      }
    }
    if !s.phase.Done? {
      CollectorMoves(job, s);
    }
  }

  /** With no partitions and no timer nothing can happen at all. */
  lemma NothingToCollect<S(!new), I(!new), O(!new)>(job: Job<S, I, O>) returns (run: seq<State>)
    requires ValidJob(job) && job.history == [] && !job.hasTimeout
    ensures Maximal(job, run) && run[|run| - 1].phase.Collecting?
  {
    var s := State(false, [], [], [], {}, 0, true, false, Collecting);
    assert seq(0, _ => Running) == [];
    run := [s];
  }

  /** Every check finishes, in at most three steps for each partition and two more, exactly when there is a
      partition or a timer.  */
  lemma FinishesExactlyWhen<S(!new), I(!new), O(!new)>(job: Job<S, I, O>)
    requires ValidJob(job)
    ensures job.history != [] || job.hasTimeout <==>
      forall run: seq<State> | Maximal(job, run) :: run[|run| - 1].phase.Done? && |run| <= 3 * |job.history| + 3
  {
    hide ValidJob, Next, CanStep, StepsLeft;
    if job.history != [] || job.hasTimeout {
      forall run: seq<State> | Maximal(job, run) ensures run[|run| - 1].phase.Done? && |run| <= 3 * |job.history| + 3 {
        MaximalIsDone(job, run);
        RunsAreBounded(job, run);
      }
    } else {
      var run := NothingToCollect(job);
    }
  }

  // ---- partial linearizations ----

  /** The set of orders handed on for partition `i`. */
  ghost function Partials(s: State, i: nat): set<seq<nat>>
    requires i < |s.longest|
  {
    set id | 0 <= id < |s.longest[i]| && s.longest[i][id].Some? :: s.longest[i][id].value
  }

  lemma AllStored<S(!new), I(!new), O(!new)>(job: Job<S, I, O>, s: State, i: nat)
    requires ValidJob(job) && Inv(job, s) && s.phase.Done? && job.computeInfo && i < |job.history|
    ensures s.workers[i].Sent?
  {
    hide WorkerInv;
    SubsetOfRange(s.received, |job.history|);
  }

  lemma StoredOutcome<S(!new), I(!new), O(!new)>(job: Job<S, I, O>, s: State, i: nat) returns (order: seq<nat>)
    requires ValidJob(job) && Inv(job, s) && s.phase.Done? && job.computeInfo && i < |job.history|
    ensures s.workers[i].Sent? && (s.workers[i].killed ==> s.timedOut)
    ensures Outcome(job.m, job.history[i], true, s.workers[i].ok, s.longest[i], s.workers[i].killed, order)
  {
    hide Outcome, ChannelInv;
    AllStored(job, s, i);
    assert WorkerInv(job, s, i);
    order :| Outcome(job.m, job.history[i], true, s.workers[i].ok, s.longest[i], s.workers[i].killed, order);
  }

  /** When information is wanted, every order handed on is a partial linearization of its partition,
      also after a timeout.  */
  lemma PartialsAreValid<S(!new), I(!new), O(!new)>(job: Job<S, I, O>, run: seq<State>, i: nat)
    requires ValidJob(job) && IsRun(job, run) && run[|run| - 1].phase.Done? && job.computeInfo && i < |job.history|
    ensures var s := run[|run| - 1];
      |s.longest| == |job.history| && forall q | q in Partials(s, i) :: PartialLinearization(job.m, OpsOf(job.history[i]), q)
  {
    hide PartialLinearization, Next;
    var s := run[|run| - 1];
    RunInv(job, run);
    var order := StoredOutcome(job, s, i);
    assert RecordsAreValid(job.m, OpsOf(job.history[i]), s.longest[i]);
  }

  /** Without a timeout, the record of each operation is a longest order that contains it. */
  lemma PartialsAreLongest<S(!new), I(!new), O(!new)>(job: Job<S, I, O>, run: seq<State>, i: nat, id: nat)
    requires ValidJob(job) && IsRun(job, run) && run[|run| - 1].phase.Done? && job.computeInfo && i < |job.history|
    requires !run[|run| - 1].timedOut && id < |OpsOf(job.history[i])|
    ensures var s := run[|run| - 1];
      && |s.longest| == |job.history| && |s.longest[i]| == |OpsOf(job.history[i])|
      && IsLongestFor(job.m, OpsOf(job.history[i]), id, s.longest[i][id])
  {
    hide Next, IsLongestFor, Linearization, PartialLinearization;
    var s := run[|run| - 1];
    RunInv(job, run);
    var order := StoredOutcome(job, s, i);
    if s.workers[i].ok {
      FullIsLongest(job.m, job.history[i], order, id);
    }
  }

  lemma FullIsLongest<S(!new), I(!new), O(!new)>(m: Model<S, I, O>, h: seq<Entry<I, O>>, order: seq<nat>, id: nat)
    requires WellFormed(h) && Linearization(m, OpsOf(h), order) && id < |OpsOf(h)|
    ensures IsLongestFor(m, OpsOf(h), id, Some(order))
  {
    var ops := OpsOf(h);
    OpsHavePositions(h);
    FullPartialIsLinearization(m, ops, order);
    PartialIsDistinct(m, ops, order);
    hide Linearization, WellFormed;
    forall q | PartialLinearization(m, ops, q) ensures |q| <= |order| {
      PartialIsDistinct(m, ops, q);
    }
  }
}
