/** What passes through the network: the content of persisters, requests, replies and bytes. */
module Traffic {
  import opened Wrappers
  import opened Bytes
  import opened Network

  // ---- the content of a persister is its last save ----

  ghost predicate HoldsLastSave(p: Persister) {
    if p.lineage == [] then p.raftstate == [] && p.snapshot == []
    else var last := p.lineage[|p.lineage| - 1]; p.raftstate == last.raftstate && p.snapshot == last.snapshot
  }

  ghost predicate ContentInv(s: State) {
    forall k | 0 <= k < |s.persisters| :: HoldsLastSave(s.persisters[k])
  }

  lemma RequestKeepsContent(s: State, s': State, step: Step)
    requires ContentInv(s) && RequestStep(s, s', step)
    ensures ContentInv(s')
  {
    hide Dead;
  }

  lemma EnvironmentKeepsContent(s: State, s': State, step: Step)
    requires ContentInv(s) && EnvironmentStep(s, s', step)
    ensures ContentInv(s')
  {
  }

  lemma CallKeepsContent(s: State, s': State, step: Step)
    requires ContentInv(s) && CallStep(s, s', step)
    ensures ContentInv(s')
  {
  }

  lemma NextKeepsContent(rules: Rules, s: State, s': State)
    requires ContentInv(s) && Next(rules, s, s')
    ensures ContentInv(s')
  {
    hide RequestStep, EnvironmentStep, BeginStep, CallStep, HoldsLastSave;
    var step :| NextStep(rules, s, s', step);
    if EnvironmentStep(s, s', step) {
      EnvironmentKeepsContent(s, s', step);
    } else if RequestStep(s, s', step) {
      RequestKeepsContent(s, s', step);
    } else if BeginStep(rules, s, s', step) {
      BeginFrame(rules, s, s', step);
    } else {
      CallKeepsContent(s, s', step);
    }
  }

  /** In every state of every run, reading a persister gives what was last saved in its lineage. */
  lemma {:induction false} ContentIsLastSave(rules: Rules, run: seq<State>, k: nat)
    requires IsRun(rules, run) && k < |run|
    ensures ContentInv(run[k])
  {
    hide Next;
    if k > 0 {
      ContentIsLastSave(rules, run, k - 1);
      NextKeepsContent(rules, run[k - 1], run[k]);
    }
  }

  // ---- requests and bytes ----

  /** Each request is dispatched and answered at most once, and a positive answer carries the reply of
      its one dispatch.  */
  ghost predicate OnceInv(q: Request) {
    && q.dispatched == (if q.handler.NotStarted? then 0 else 1)
    && q.answered == (if q.phase.Answered? then 1 else 0)
    && (q.phase.Accepted? || q.phase.Routed? ==> q.handler.NotStarted?)
    && (q.phase.Waiting? ==> !q.handler.NotStarted?)
    && (q.phase.GotReply? || q.phase.Passed? || q.phase.Delayed? ==> q.handler.Returned?)
    && (q.phase.Answered? && q.phase.ok ==> q.handler == Returned(q.phase.reply))
  }

  /** Argument bytes, and reply bytes once released. */
  function BytesOf(q: Request): nat {
    |q.args| + if q.phase.Answered? && q.phase.ok then |q.phase.reply| else 0
  }

  function TotalBytes(requests: seq<Request>): nat {
    if requests == [] then 0 else TotalBytes(requests[..|requests| - 1]) + BytesOf(requests[|requests| - 1])
  }

  ghost predicate CountInv(s: State) {
    && (forall r | 0 <= r < |s.requests| :: OnceInv(s.requests[r]))
    && s.count == |s.requests|
    && s.bytes == TotalBytes(s.requests)
  }

  lemma TotalAppend(requests: seq<Request>, q: Request)
    ensures TotalBytes(requests + [q]) == TotalBytes(requests) + BytesOf(q)
  {
    assert (requests + [q])[..|requests|] == requests;
  }

  lemma {:induction false} TotalUpdate(requests: seq<Request>, r: nat, q: Request)
    requires r < |requests|
    ensures TotalBytes(requests[r := q]) == TotalBytes(requests) - BytesOf(requests[r]) + BytesOf(q)
  {
    var k := |requests| - 1;
    if r == k {
      assert requests[r := q][..k] == requests[..k];
    } else {
      TotalUpdate(requests[..k], r, q);
      assert requests[r := q][..k] == requests[..k][r := q];
    }
  }

  lemma MoveKeepsOnce(s: State, q: Request, q': Request, step: Step)
    requires OnceInv(q) && RequestMoves(s, q, q', step) && AboutRequest(step)
    ensures OnceInv(q')
  {
    hide Dead;
    match step
    case ReadEnd(_) =>
    case DropRequest(_) =>
    case Dispatch(_) =>
    case HandlerSave(_, _, _) =>
    case HandlerReturn(_, _) =>
    case TakeReply(_) =>
    case FinalCheck(_) =>
    case Release(_) =>
    case _ =>
  }

  lemma MoveKeepsBytes(s: State, q: Request, q': Request, step: Step)
    requires RequestMoves(s, q, q', step) && AboutRequest(step)
    ensures BytesOf(q') == BytesOf(q) + if step.Release? then |q.handler.reply| else 0
  {
    hide Dead;
  }

  lemma RequestKeepsCount(s: State, s': State, step: Step)
    requires CountInv(s) && RequestStep(s, s', step)
    ensures CountInv(s')
  {
    hide TotalBytes, OnceInv, RequestMoves;
    if step.Accept? {
      TotalAppend(s.requests, s'.requests[|s.requests|]);
      FreshOnce(s'.requests[|s.requests|]);
    } else {
      MoveKeepsOnce(s, s.requests[step.r], s'.requests[step.r], step);
      MoveKeepsBytes(s, s.requests[step.r], s'.requests[step.r], step);
      TotalUpdate(s.requests, step.r, s'.requests[step.r]);
    }
  }

  lemma FreshOnce(q: Request)
    requires q.phase.Accepted? && q.handler.NotStarted? && q.dispatched == 0 && q.answered == 0
    ensures OnceInv(q) && BytesOf(q) == |q.args|
  {
  }

  lemma NextKeepsCount(rules: Rules, s: State, s': State)
    requires CountInv(s) && Next(rules, s, s')
    ensures CountInv(s')
  {
    hide EnvironmentStep, RequestStep, BeginStep, CallStep, OnceInv, TotalBytes;
    var step :| NextStep(rules, s, s', step);
    if EnvironmentStep(s, s', step) {
      EnvironmentFrame(s, s', step);
    } else if RequestStep(s, s', step) {
      RequestKeepsCount(s, s', step);
    } else if BeginStep(rules, s, s', step) {
      BeginFrame(rules, s, s', step);
    } else {
      CallFrame(s, s', step);
    }
  }

  /** In every state of every run each request was dispatched and answered at most once, and the byte
      total is the argument bytes accepted plus the reply bytes released.  */
  lemma {:induction false} RequestsAndBytes(rules: Rules, run: seq<State>, k: nat)
    requires IsRun(rules, run) && k < |run|
    ensures CountInv(run[k])
  {
    hide Next;
    if k > 0 {
      RequestsAndBytes(rules, run, k - 1);
      NextKeepsCount(rules, run[k - 1], run[k]);
    }
  }

  // ---- why a request stands where it stands ----

  /** How one request changes in a step: not at all, by being accepted, or by a step about it. */
  lemma HowChanged(rules: Rules, s: State, s': State, r: nat) returns (step: Option<Step>)
    requires Next(rules, s, s') && r < |s'.requests|
    ensures step.None? && r < |s.requests| ==> s'.requests[r] == s.requests[r]
    ensures step.None? && r >= |s.requests| ==> s'.requests[r].phase.Accepted? && s'.requests[r].handler.NotStarted?
    ensures step.Some? ==>
      r < |s.requests| && AboutRequest(step.value) && RequestMoves(s, s.requests[r], s'.requests[r], step.value)
  {
    hide EnvironmentStep, BeginStep, CallStep, RequestStep, RequestMoves;
    var taken :| NextStep(rules, s, s', taken);
    step := None;
    if EnvironmentStep(s, s', taken) {
      EnvironmentFrame(s, s', taken);
    } else if RequestStep(s, s', taken) {
      RequestFrame(s, s', taken);
      if AboutRequest(taken) && taken.r == r {
        step := Some(taken);
      }
    } else if BeginStep(rules, s, s', taken) {
      BeginFrame(rules, s, s', taken);
    } else {
      CallFrame(s, s', taken);
    }
  }

  /** The end is enabled and the instance read at the start is still the registered one. */
  ghost predicate Alive(s: State, q: Request) {
    q.end in s.enabled && q.server in s.servers && s.servers[q.server] == q.inst
  }

  /** The end is enabled and connected to a registered server. */
  ghost predicate HasRoute(s: State, q: Request) {
    q.end in s.enabled && q.end in s.connections && s.connections[q.end] in s.servers
  }

  /** At this moment the handler had returned, its instance was still registered and the end enabled. */
  ghost predicate AliveAfterReturn(s: State, r: nat, q: Request) {
    && r < |s.requests|
    && var p := s.requests[r];
    && p.end in s.enabled && p.server in s.servers && s.servers[p.server] == p.inst
    && p.handler.Returned? && p.handler == q.handler && p.end == q.end && p.server == q.server && p.inst == q.inst
    && !Positive(p)
  }

  lemma BecomesPositive(s: State, q: Request, q': Request, step: Step)
    requires OnceInv(q) && RequestMoves(s, q, q', step) && AboutRequest(step) && Positive(q')
    ensures q.handler == q'.handler && q.handler.Returned? && q.end == q'.end && q.server == q'.server && q.inst == q'.inst
    ensures Positive(q) || Alive(s, q)
  {
    match step
    case HandlerSave(_, _, _) =>
    case HandlerReturn(_, _) =>
    case FinalCheck(_) =>
    case Delay(_) =>
    case Release(_) =>
    case _ =>
  }

  /** A positive answer means that there was a moment, after the handler returned and before the reply was let
      through, at which the instance read at the start was registered and the end enabled.  */
  lemma {:induction false} PositiveAnswerSawServerAlive(rules: Rules, run: seq<State>, l: nat, r: nat) returns (k: nat)
    requires IsRun(rules, run) && l < |run| && r < |run[l].requests| && Positive(run[l].requests[r])
    ensures k < l && AliveAfterReturn(run[k], r, run[l].requests[r])
    decreases l
  {
    hide Next, OnceInv, TotalBytes, RequestMoves;
    assert l > 0;
    var step := HowChanged(rules, run[l - 1], run[l], r);
    RequestsAndBytes(rules, run, l - 1);
    if step.Some? {
      BecomesPositive(run[l - 1], run[l - 1].requests[r], run[l].requests[r], step.value);
    }
    if Positive(run[l - 1].requests[r]) {
      k := PositiveAnswerSawServerAlive(rules, run, l - 1, r);
    } else {
      k := l - 1;
    }
  }

  /** A request that has no positive reply yet and whose end is disabled or instance unregistered from now on
      never gets one.  */
  lemma {:induction false} DeadMeansNeverPositive(rules: Rules, run: seq<State>, k: nat, l: nat, r: nat)
    requires IsRun(rules, run) && k <= l < |run| && r < |run[k].requests| && !Positive(run[k].requests[r])
    requires forall j | k <= j < l :: r < |run[j].requests| ==> !Alive(run[j], run[j].requests[r])
    ensures r < |run[l].requests| && !Positive(run[l].requests[r])
    decreases l
  {
    hide Next, OnceInv, TotalBytes, RequestMoves, Positive, Alive;
    if k < l {
      DeadMeansNeverPositive(rules, run, k, l - 1, r);
      RequestsAndBytes(rules, run, l - 1);
      RequestsStay(rules, run[l - 1], run[l]);
      var step := HowChanged(rules, run[l - 1], run[l], r);
      if step.Some? && Positive(run[l].requests[r]) {
        BecomesPositive(run[l - 1], run[l - 1].requests[r], run[l].requests[r], step.value);
      }
    }
  }

  lemma RequestsStay(rules: Rules, s: State, s': State)
    requires Next(rules, s, s')
    ensures |s.requests| <= |s'.requests|
  {
    hide EnvironmentStep, BeginStep, CallStep, RequestStep;
    var taken :| NextStep(rules, s, s', taken);
    if EnvironmentStep(s, s', taken) {
      EnvironmentFrame(s, s', taken);
    } else if RequestStep(s, s', taken) {
      RequestFrame(s, s', taken);
    } else if BeginStep(rules, s, s', taken) {
      BeginFrame(rules, s, s', taken);
    } else {
      CallFrame(s, s', taken);
    }
  }

  ghost predicate Negative(q: Request) {
    q.phase.Failing? || (q.phase.Answered? && !q.phase.ok)
  }

  /** At this moment the request had no route, its server was dead, or it was lost on an unreliable network. */
  ghost predicate ReasonToFail(s: State, r: nat) {
    && r < |s.requests|
    && var q := s.requests[r];
    match q.phase
    case Accepted => !HasRoute(s, q)
    case Routed => !q.reliable
    case Waiting => !Alive(s, q)
    case GotReply => !Alive(s, q)
    case Passed => !q.reliable
    case _ => false
  }

  lemma BecomesNegative(s: State, q: Request, q': Request, step: Step, r: nat)
    requires RequestMoves(s, q, q', step) && AboutRequest(step) && Negative(q') && !Negative(q)
    requires r < |s.requests| && s.requests[r] == q
    ensures ReasonToFail(s, r)
  {
    match step
    case ReadEnd(_) =>
    case DropRequest(_) =>
    case SeeDead(_) =>
    case FinalCheck(_) =>
    case DropReply(_) =>
    case _ =>
  }

  /** A negative answer always has a reason. */
  lemma {:induction false} NegativeAnswerHasReason(rules: Rules, run: seq<State>, l: nat, r: nat) returns (k: nat)
    requires IsRun(rules, run) && l < |run| && r < |run[l].requests| && Negative(run[l].requests[r])
    ensures k < l && ReasonToFail(run[k], r)
    decreases l
  {
    hide Next, RequestMoves, ReasonToFail;
    assert l > 0;
    var step := HowChanged(rules, run[l - 1], run[l], r);
    if Negative(run[l - 1].requests[r]) {
      k := NegativeAnswerHasReason(rules, run, l - 1, r);
    } else {
      BecomesNegative(run[l - 1], run[l - 1].requests[r], run[l].requests[r], step.value, r);
      k := l - 1;
    }
  }

  /** At this moment the request read what it has: an enabled end, the server connected to it, the instance
      registered for that, and how the network was set.  */
  ghost predicate ReadFrom(s: State, r: nat, q: Request) {
    && r < |s.requests| && s.requests[r].phase.Accepted? && s.requests[r].end == q.end
    && q.end in s.enabled && q.end in s.connections && s.connections[q.end] == q.server
    && q.server in s.servers && s.servers[q.server] == q.inst
    && s.reliable == q.reliable && s.longReordering == q.longReordering
  }

  ghost predicate WasRouted(q: Request) {
    q.phase.Routed? || !q.handler.NotStarted?
  }

  lemma BecomesRouted(s: State, q: Request, q': Request, step: Step, r: nat)
    requires OnceInv(q) && RequestMoves(s, q, q', step) && AboutRequest(step) && WasRouted(q')
    requires r < |s.requests| && s.requests[r] == q
    ensures if WasRouted(q)
      then q'.end == q.end && q'.server == q.server && q'.inst == q.inst && q'.reliable == q.reliable && q'.longReordering == q.longReordering
      else ReadFrom(s, r, q')
  {
    hide Dead;
    match step
    case ReadEnd(_) =>
    case Dispatch(_) =>
    case _ =>
  }

  /** A handler is called only for a request that found, when it was read, its end enabled and connected to a
      registered server, and it is called on that instance.  */
  lemma {:induction false} DispatchSawServer(rules: Rules, run: seq<State>, l: nat, r: nat) returns (k: nat)
    requires IsRun(rules, run) && l < |run| && r < |run[l].requests|
    requires run[l].requests[r].phase.Routed? || run[l].requests[r].dispatched > 0
    ensures k < l && ReadFrom(run[k], r, run[l].requests[r])
    decreases l
  {
    hide Next, RequestMoves, TotalBytes;
    RequestsAndBytes(rules, run, l);
    assert OnceInv(run[l].requests[r]) && l > 0;
    RequestsAndBytes(rules, run, l - 1);
    var step := HowChanged(rules, run[l - 1], run[l], r);
    if step.Some? {
      BecomesRouted(run[l - 1], run[l - 1].requests[r], run[l].requests[r], step.value, r);
    }
    if WasRouted(run[l - 1].requests[r]) {
      assert OnceInv(run[l - 1].requests[r]);
      k := DispatchSawServer(rules, run, l - 1, r);
    } else {
      k := l - 1;
    }
  }

  /** What a step does to an end and to the network's settings: the four switches act at once, nothing else does. */
  ghost predicate Switched(s: State, s': State, step: Step, end: nat) {
    && (end in s'.enabled <==> if step.SetEnabled? && step.end == end then step.on else end in s.enabled)
    && (end in s'.connections <==> (step.Connect? && step.end == end) || end in s.connections)
    && (end in s'.connections ==>
          s'.connections[end] == if step.Connect? && step.end == end then step.server else s.connections[end])
    && s'.reliable == (if step.SetReliable? then step.on else s.reliable)
    && s'.longReordering == (if step.SetLongReordering? then step.on else s.longReordering)
  }

  lemma EnvironmentSwitches(s: State, s': State, step: Step, end: nat)
    requires EnvironmentStep(s, s', step)
    ensures Switched(s, s', step, end)
  {
  }

  lemma OthersDoNotSwitch(rules: Rules, s: State, s': State, step: Step)
    requires RequestStep(s, s', step) || BeginStep(rules, s, s', step) || CallStep(s, s', step)
    ensures s'.enabled == s.enabled && s'.connections == s.connections
    ensures s'.reliable == s.reliable && s'.longReordering == s.longReordering
    ensures !step.SetEnabled? && !step.Connect? && !step.SetReliable? && !step.SetLongReordering?
  {
    hide RequestMoves, FreshCopy, Starting;
    if RequestStep(s, s', step) {
      hide BeginStep, CallStep;
    } else if BeginStep(rules, s, s', step) {
      hide RequestStep, CallStep;
    } else {
      hide RequestStep, BeginStep;
    }
  }

  /** Enabling and disabling an end, connecting it to a server, and setting the network to reliable or reordering take
      effect at once and on that alone; and no other step changes what is enabled, connected or set.  */
  lemma SwitchesWork(rules: Rules, s: State, s': State, step: Step, end: nat)
    requires NextStep(rules, s, s', step)
    ensures Switched(s, s', step, end)
  {
    hide EnvironmentStep, RequestStep, BeginStep, CallStep;
    if EnvironmentStep(s, s', step) {
      EnvironmentSwitches(s, s', step, end);
    } else {
      OthersDoNotSwitch(rules, s, s', step);
    }
  }

  /** The instance that a saving step writes for. */
  function Saver(s: State, step: Step): Option<nat> {
    if step.BackgroundSave? then Some(step.inst)
    else if step.HandlerSave? && step.r < |s.requests| then Some(s.requests[step.r].inst)
    else None
  }

  /** After a save, by a handler or in the background, reading the persister of its instance gives both parts saved;
      every other persister, and every persister at any other step, reads as before.  */
  ghost predicate SavedAs(s: State, s': State, step: Step, k: nat)
    requires k < |s.persisters|
  {
    && k < |s'.persisters|
    && var saver := Saver(s, step);
    if saver.Some? && saver.value < |s.instances| && s.instances[saver.value].persister == k
    then s'.persisters[k].raftstate == step.raftstate && s'.persisters[k].snapshot == step.snapshot
    else s'.persisters[k] == s.persisters[k]
  }

  lemma EnvironmentSaves(s: State, s': State, step: Step, k: nat)
    requires EnvironmentStep(s, s', step) && k < |s.persisters|
    ensures SavedAs(s, s', step, k)
  {
  }

  lemma RequestSaves(s: State, s': State, step: Step, k: nat)
    requires RequestStep(s, s', step) && k < |s.persisters|
    ensures SavedAs(s, s', step, k)
  {
    hide Dead;
  }

  lemma ReadGivesLastSave(rules: Rules, s: State, s': State, step: Step, k: nat)
    requires NextStep(rules, s, s', step) && k < |s.persisters|
    ensures SavedAs(s, s', step, k)
  {
    hide EnvironmentStep, RequestStep, BeginStep, CallStep;
    if EnvironmentStep(s, s', step) {
      EnvironmentSaves(s, s', step, k);
    } else if RequestStep(s, s', step) {
      RequestSaves(s, s', step, k);
    } else if BeginStep(rules, s, s', step) {
      BeginFrame(rules, s, s', step);
      BeginIsNoSave(rules, s, s', step);
    } else {
      CallFrame(s, s', step);
      CallIsNoSave(s, s', step);
    }
  }

  lemma BeginIsNoSave(rules: Rules, s: State, s': State, step: Step)
    requires BeginStep(rules, s, s', step)
    ensures !step.BackgroundSave? && !step.HandlerSave?
  {
  }

  lemma CallIsNoSave(s: State, s': State, step: Step)
    requires CallStep(s, s', step)
    ensures !step.BackgroundSave? && !step.HandlerSave?
  {
    hide FreshCopy;
  }

  /** While a call holds the configuration's lock, no other call begins or comes to its end. */
  lemma LockExcludes(rules: Rules, s: State, s': State, step: Step)
    requires NextStep(rules, s, s', step) && s.lock.Some?
    ensures !step.BeginShutdown? && !step.BeginStart? && !step.EndShutdown?
  {
    hide RequestMoves, FreshCopy;
  }
}
