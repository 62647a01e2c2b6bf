/** The simulated RPC network together with server shutdown and restart, as a step relation.

    Goroutines, timers, delays and random choices become nondeterministic steps; every step is one
    atomic action of the source.  A server name can have many instances over time, each with the
    persister it was started with.  Any number of ShutdownServer and StartServer calls can be under
    way at once; what they do while they hold the configuration's lock is not atomic for anybody who
    does not need that lock.  */
module Network {
  import opened Wrappers
  import opened Bytes

  /** One call of Persister.Save; `req` is the request whose handler made it, if any. */
  datatype Save = Save(req: Option<nat>, raftstate: Bytes, snapshot: Bytes)

  /** `lineage` lists the saves behind the content, through copies, oldest first. */
  datatype Persister = Persister(raftstate: Bytes, snapshot: Bytes, lineage: seq<Save>)

  /** `given` is the lineage of the state the instance was started with. */
  datatype Instance = Instance(server: nat, persister: nat, given: seq<Save>)

  datatype Handler = NotStarted | Running | Returned(reply: Bytes)

  /** Where processReq stands for a request. */
  datatype Phase =
    | Accepted                     // taken from the channel
    | Routed                       // an enabled end of a registered server
    | Waiting                      // handler started
    | GotReply                     // handler's reply received
    | Passed                       // the last check found the server alive
    | Delayed                      // positive reply held back by a timer
    | Failing                      // a negative reply is due
    | Answered(ok: bool, reply: Bytes)

  /** `server` and `inst` are what was read at the start, `reliable` and `longReordering` likewise;
      `cleared` says whether the last check found the server alive.  */
  datatype Request = Request(
    end: nat, args: Bytes, phase: Phase, server: nat, inst: nat, reliable: bool, longReordering: bool,
    handler: Handler, dispatched: nat, answered: nat, saves: seq<Save>, cleared: bool)

  /** Where a call of ShutdownServer or StartServer stands; the first five hold the configuration's lock. */
  datatype Pc =
    | ShutdownLocked               // ends are being disabled
    | ShutdownDeleted              // no longer registered
    | ShutdownCopied(p: nat)       // copy of the current persister made
    | StartLocked                  // ends are being made
    | StartCopied(p: nat)          // copy of the current persister, or an empty one, made
    | Killing                      // shutdown gave up the lock, persister superseded
    | Unlocked                     // start gave up the lock, fresh persister current
    | Made(inst: nat)              // instance made, not yet registered
    | Finished

  datatype Call = Call(server: nat, pc: Pc)

  /** What callers may promise: to start a server only when it is not registered, and to begin no
      start, or no shutdown, of a server between a start's unlock and its AddServer.  */
  datatype Rules = Rules(unregistered: bool, startsWait: bool, shutdownsWait: bool)

  datatype State = State(
    enabled: set<nat>, connections: map<nat, nat>, reliable: bool, longReordering: bool,
    servers: map<nat, nat>, instances: seq<Instance>, persisters: seq<Persister>, saved: map<nat, nat>,
    lock: Option<nat>, calls: seq<Call>, requests: seq<Request>, count: nat, bytes: nat)

  datatype Step =
    // environment
    | SetEnabled(end: nat, on: bool)
    | Connect(end: nat, server: nat)
    | SetReliable(on: bool)
    | SetLongReordering(on: bool)
    | BackgroundSave(inst: nat, raftstate: Bytes, snapshot: Bytes)
    // requests
    | Accept(end: nat, args: Bytes)
    | ReadEnd(r: nat)
    | DropRequest(r: nat)
    | Dispatch(r: nat)
    | HandlerSave(r: nat, raftstate: Bytes, snapshot: Bytes)
    | HandlerReturn(r: nat, reply: Bytes)
    | TakeReply(r: nat)
    | SeeDead(r: nat)
    | FinalCheck(r: nat)
    | DropReply(r: nat)
    | Delay(r: nat)
    | Release(r: nat)
    | Refuse(r: nat)
    // configuration
    | BeginShutdown(server: nat)
    | BeginStart(server: nat)
    | DeleteServer(c: nat)
    | CopySaved(c: nat)
    | Supersede(c: nat)
    | NothingSaved(c: nat)
    | EndShutdown(c: nat)
    | MakeInstance(c: nat)
    | AddServer(c: nat)

  const START: State := State({}, map[], true, false, map[], [], [], map[], None, [], [], 0, 0)

  /** Persister.Save: both parts at once. */
  function SaveTo(p: Persister, sv: Save): Persister {
    Persister(sv.raftstate, sv.snapshot, p.lineage + [sv])
  }

  /** isServerDead for what a request read at its start. */
  predicate Dead(s: State, q: Request) {
    q.end !in s.enabled || q.server !in s.servers || s.servers[q.server] != q.inst
  }

  /** A persister with the content of the server's last one, or an empty one. */
  function FreshCopy(s: State, server: nat): Persister {
    if server in s.saved && s.saved[server] < |s.persisters| then s.persisters[s.saved[server]] else Persister([], [], [])
  }

  predicate EnvironmentStep(s: State, s': State, step: Step) {
    match step
    case SetEnabled(end, on) => s' == s.(enabled := if on then s.enabled + {end} else s.enabled - {end})
    case Connect(end, server) => s' == s.(connections := s.connections[end := server])
    case SetReliable(on) => s' == s.(reliable := on)
    case SetLongReordering(on) => s' == s.(longReordering := on)
    case BackgroundSave(inst, raftstate, snapshot) =>
      && inst < |s.instances| && s.instances[inst].persister < |s.persisters|
      && var p := s.instances[inst].persister;
      s' == s.(persisters := s.persisters[p := SaveTo(s.persisters[p], Save(None, raftstate, snapshot))])
    case _ => false
  }

  predicate AboutRequest(step: Step) {
    step.ReadEnd? || step.DropRequest? || step.Dispatch? || step.HandlerSave? || step.HandlerReturn? || step.TakeReply? ||
    step.SeeDead? || step.FinalCheck? || step.DropReply? || step.Delay? || step.Release? || step.Refuse?
  }

  /** The request a step is about, before and after it. */
  predicate RequestMoves(s: State, q: Request, q': Request, step: Step) {
    match step
    case ReadEnd(_) =>
      && q.phase.Accepted?
      && q' == if q.end in s.enabled && q.end in s.connections && s.connections[q.end] in s.servers
               then q.(phase := Routed, server := s.connections[q.end], inst := s.servers[s.connections[q.end]],
                       reliable := s.reliable, longReordering := s.longReordering)
               else q.(phase := Failing)
    case DropRequest(_) => q.phase.Routed? && !q.reliable && q' == q.(phase := Failing)
    case Dispatch(_) => q.phase.Routed? && q' == q.(phase := Waiting, handler := Running, dispatched := q.dispatched + 1)
    case HandlerSave(r, raftstate, snapshot) =>
      && q.handler.Running? && q.inst < |s.instances| && s.instances[q.inst].persister < |s.persisters|
      && q' == q.(saves := q.saves + [Save(Some(r), raftstate, snapshot)])
    case HandlerReturn(_, reply) => q.handler.Running? && q' == q.(handler := Returned(reply))
    case TakeReply(_) => q.phase.Waiting? && q.handler.Returned? && q' == q.(phase := GotReply)
    case SeeDead(_) => q.phase.Waiting? && Dead(s, q) && q' == q.(phase := Failing)
    case FinalCheck(_) => q.phase.GotReply? && q' == if Dead(s, q) then q.(phase := Failing) else q.(phase := Passed, cleared := true)
    case DropReply(_) => q.phase.Passed? && !q.reliable && q' == q.(phase := Failing)
    case Delay(_) => q.phase.Passed? && q.longReordering && q' == q.(phase := Delayed)
    case Release(_) =>
      && (q.phase.Passed? || q.phase.Delayed?) && q.handler.Returned?
      && q' == q.(phase := Answered(true, q.handler.reply), answered := q.answered + 1)
    case Refuse(_) => q.phase.Failing? && q' == q.(phase := Answered(false, []), answered := q.answered + 1)
    case _ => false
  }

  predicate RequestStep(s: State, s': State, step: Step) {
    if step.Accept? then
      s' == s.(requests := s.requests + [Request(step.end, step.args, Accepted, 0, 0, true, false, NotStarted, 0, 0, [], false)],
               count := s.count + 1, bytes := s.bytes + |step.args|)
    else
      && AboutRequest(step) && step.r < |s.requests| == |s'.requests|
      && var q, q' := s.requests[step.r], s'.requests[step.r];
      && RequestMoves(s, q, q', step)
      && s' == s.(requests := s.requests[step.r := q'],
                  persisters := if step.HandlerSave? then
                      var p := s.instances[q.inst].persister;
                      s.persisters[p := SaveTo(s.persisters[p], Save(Some(step.r), step.raftstate, step.snapshot))]
                    else s.persisters,
                  bytes := s.bytes + if step.Release? then |q.handler.reply| else 0)
  }

  /** A start of the server is between its unlock and its AddServer. */
  predicate Starting(s: State, i: nat) {
    exists c :: 0 <= c < |s.calls| && s.calls[c].server == i && (s.calls[c].pc.Unlocked? || s.calls[c].pc.Made?)
  }

  /** A call begins when it gets the configuration's lock. */
  predicate BeginStep(rules: Rules, s: State, s': State, step: Step) {
    && s.lock.None?
    && match step
       case BeginShutdown(i) =>
         && (rules.shutdownsWait ==> !Starting(s, i))
         && s' == s.(lock := Some(|s.calls|), calls := s.calls + [Call(i, ShutdownLocked)])
       case BeginStart(i) =>
         && (rules.startsWait ==> !Starting(s, i))
         && (rules.unregistered ==> i !in s.servers)
         && s' == s.(lock := Some(|s.calls|), calls := s.calls + [Call(i, StartLocked)])
       case _ => false
  }

  function Moved(s: State, c: nat, pc: Pc): State
    requires c < |s.calls|
  {
    s.(calls := s.calls[c := s.calls[c].(pc := pc)])
  }

  predicate AboutCall(step: Step) {
    step.DeleteServer? || step.CopySaved? || step.Supersede? || step.NothingSaved? || step.EndShutdown? || step.MakeInstance? || step.AddServer?
  }

  predicate CallStep(s: State, s': State, step: Step) {
    && AboutCall(step) && step.c < |s.calls|
    && var i, pc := s.calls[step.c].server, s.calls[step.c].pc;
    match step
    case DeleteServer(c) => pc.ShutdownLocked? && s' == Moved(s, c, ShutdownDeleted).(servers := s.servers - {i})
    case CopySaved(c) =>
      && ((pc.ShutdownDeleted? && i in s.saved) || pc.StartLocked?)
      && s' == Moved(s, c, if pc.StartLocked? then StartCopied(|s.persisters|) else ShutdownCopied(|s.persisters|)).(
                 persisters := s.persisters + [FreshCopy(s, i)])
    case Supersede(c) =>
      && (pc.ShutdownCopied? || pc.StartCopied?)
      && s' == Moved(s, c, if pc.StartCopied? then Unlocked else Killing).(saved := s.saved[i := pc.p], lock := None)
    case NothingSaved(c) => pc.ShutdownDeleted? && i !in s.saved && s' == Moved(s, c, Killing).(lock := None)
    case EndShutdown(c) => pc.Killing? && s.lock.None? && s' == Moved(s, c, Finished)
    case MakeInstance(c) =>
      && pc.Unlocked? && i in s.saved && s.saved[i] < |s.persisters|
      && s' == Moved(s, c, Made(|s.instances|)).(
                 instances := s.instances + [Instance(i, s.saved[i], s.persisters[s.saved[i]].lineage)])
    case AddServer(c) => pc.Made? && s' == Moved(s, c, Finished).(servers := s.servers[i := pc.inst])
    case _ => false
  }

  predicate NextStep(rules: Rules, s: State, s': State, step: Step) {
    EnvironmentStep(s, s', step) || RequestStep(s, s', step) || BeginStep(rules, s, s', step) || CallStep(s, s', step)
  }

  ghost predicate Next(rules: Rules, s: State, s': State) {
    exists step :: NextStep(rules, s, s', step)
  }

  ghost predicate IsRun(rules: Rules, run: seq<State>) {
    && run != [] && run[0] == START
    && forall k | 0 <= k < |run| - 1 :: Next(rules, run[k], run[k + 1])
  }

  /** The last check let the request's reply through. */
  ghost predicate Positive(q: Request) {
    q.phase.Passed? || q.phase.Delayed? || (q.phase.Answered? && q.phase.ok)
  }

  /** The saves behind a server's current persister. */
  ghost function Current(s: State, server: nat): seq<Save> {
    FreshCopy(s, server).lineage
  }

  // ---- what the kinds of steps leave alone ----

  lemma EnvironmentFrame(s: State, s': State, step: Step)
    requires EnvironmentStep(s, s', step)
    ensures s'.servers == s.servers && s'.saved == s.saved && s'.instances == s.instances && s'.lock == s.lock && s'.calls == s.calls
    ensures s'.requests == s.requests && s'.count == s.count && s'.bytes == s.bytes && |s'.persisters| == |s.persisters|
  {
  }

  lemma RequestFrame(s: State, s': State, step: Step)
    requires RequestStep(s, s', step)
    ensures s'.servers == s.servers && s'.saved == s.saved && s'.instances == s.instances && s'.lock == s.lock && s'.calls == s.calls
    ensures |s'.persisters| == |s.persisters| && (!step.HandlerSave? ==> s'.persisters == s.persisters)
    ensures step.Accept? || AboutRequest(step)
    ensures |s'.requests| == |s.requests| + if step.Accept? then 1 else 0
    ensures forall r | 0 <= r < |s.requests| && (step.Accept? || r != step.r) :: s'.requests[r] == s.requests[r]
    ensures step.Accept? ==> s'.requests[|s.requests|] == Request(step.end, step.args, Accepted, 0, 0, true, false, NotStarted, 0, 0, [], false)
    ensures AboutRequest(step) ==> step.r < |s.requests| && RequestMoves(s, s.requests[step.r], s'.requests[step.r], step)
  {
    hide Dead;
  }

  lemma BeginFrame(rules: Rules, s: State, s': State, step: Step)
    requires BeginStep(rules, s, s', step)
    ensures s'.servers == s.servers && s'.saved == s.saved && s'.instances == s.instances && s'.persisters == s.persisters
    ensures s'.requests == s.requests && s'.count == s.count && s'.bytes == s.bytes && s'.enabled == s.enabled
  {
  }

  lemma CallFrame(s: State, s': State, step: Step)
    requires CallStep(s, s', step)
    ensures s'.requests == s.requests && s'.count == s.count && s'.bytes == s.bytes && s'.enabled == s.enabled
    ensures step.c < |s.calls| == |s'.calls| && s'.calls[step.c].server == s.calls[step.c].server
    ensures forall c | 0 <= c < |s.calls| && c != step.c :: s'.calls[c] == s.calls[c]
    ensures s.persisters <= s'.persisters && s.instances <= s'.instances
  {
    hide FreshCopy;
  }
}
