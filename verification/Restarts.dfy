/** Which rules the callers of StartServer and ShutdownServer must keep for acknowledged saves to be durable:
    with each rule dropped there is a run that loses an acknowledged save.  */
module Restarts {
  import opened Wrappers
  import opened Bytes
  import opened Network
  import opened Durability

  ghost predicate Reachable(rules: Rules, s: State) {
    exists run :: IsRun(rules, run) && run[|run| - 1] == s
  }

  lemma ReachStart(rules: Rules)
    ensures Reachable(rules, START)
  {
    assert IsRun(rules, [START]) && [START][|[START]| - 1] == START;
  }

  lemma ReachNext(rules: Rules, s: State, s': State, step: Step)
    requires Reachable(rules, s) && NextStep(rules, s, s', step)
    ensures Reachable(rules, s')
  {
    hide NextStep;
    var run :| IsRun(rules, run) && run[|run| - 1] == s;
    var longer := run + [s'];
    assert Next(rules, s, s');
    forall k | 0 <= k < |longer| - 1 ensures Next(rules, longer[k], longer[k + 1]) {
      assert longer[k] == run[k];
      assert k < |run| - 1 ==> longer[k + 1] == run[k + 1];
    }
    assert IsRun(rules, longer) && longer[|longer| - 1] == s';
  }

  const EMPTY: Persister := Persister([], [], [])

  /** A start of server 0 has made its instance and not registered it yet. */
  const MADE: State := START.(
    instances := [Instance(0, 0, [])], persisters := [EMPTY], saved := map[0 := 0], calls := [Call(0, Made(0))])

  lemma ReachCopied(rules: Rules)
    ensures Reachable(rules, START.(lock := Some(0), persisters := [EMPTY], calls := [Call(0, StartCopied(0))]))
  {
    hide Reachable, EnvironmentStep, RequestStep;
    ReachStart(rules);
    var s := START.(lock := Some(0), calls := [Call(0, StartLocked)]);
    ReachNext(rules, START, s, BeginStart(0));
    ReachNext(rules, s, s.(persisters := [EMPTY], calls := [Call(0, StartCopied(0))]), CopySaved(0));
  }

  lemma ReachMade(rules: Rules)
    ensures Reachable(rules, MADE)
  {
    hide Reachable, EnvironmentStep, RequestStep, BeginStep;
    ReachCopied(rules);
    var s := START.(lock := Some(0), persisters := [EMPTY], calls := [Call(0, StartCopied(0))]);
    var s1 := s.(saved := map[0 := 0], lock := None, calls := [Call(0, Unlocked)]);
    ReachNext(rules, s, s1, Supersede(0));
    ReachNext(rules, s1, MADE, MakeInstance(0));
  }

  /** The registered instance writes to persister 0, but persister 1 is the current one.  `pc` is where the
      call stands that superseded persister 0.  */
  function Torn(pc: Pc): State {
    START.(servers := map[0 := 0], instances := [Instance(0, 0, [])], persisters := [EMPTY, EMPTY], saved := map[0 := 1],
           calls := [Call(0, Finished), Call(0, pc)])
  }

  /** The second call supersedes persister 0. */
  lemma ReachSuperseded(rules: Rules, s: State, locked: Pc)
    requires Reachable(rules, s) && (locked.StartLocked? || locked.ShutdownDeleted?)
    requires |s.calls| == 2 && s.calls[1] == Call(0, locked) && s.persisters == [EMPTY] && s.saved == map[0 := 0]
    ensures Reachable(rules,
      s.(persisters := [EMPTY, EMPTY], saved := map[0 := 1], lock := None,
         calls := [s.calls[0], Call(0, if locked.StartLocked? then Unlocked else Killing)]))
  {
    hide Reachable, EnvironmentStep, RequestStep, BeginStep;
    var copied := if locked.StartLocked? then StartCopied(1) else ShutdownCopied(1);
    var s1 := s.(persisters := s.persisters + [EMPTY], calls := s.calls[1 := Call(0, copied)]);
    ReachNext(rules, s, s1, CopySaved(1));
    var s2 := s1.(saved := s1.saved[0 := 1], lock := None, calls := s1.calls[1 := Call(0, if locked.StartLocked? then Unlocked else Killing)]);
    ReachNext(rules, s1, s2, Supersede(1));
    assert s2.saved == map[0 := 1] && s2.persisters == [EMPTY, EMPTY];
    assert s2.calls == [s.calls[0], Call(0, if locked.StartLocked? then Unlocked else Killing)];
  }

  /** A server is started while an instance of it is registered. */
  lemma StartedTwice(rules: Rules)
    requires !rules.unregistered
    ensures Reachable(rules, Torn(Unlocked))
  {
    hide Reachable, EnvironmentStep, RequestStep;
    ReachMade(rules);
    var s1 := MADE.(servers := map[0 := 0], calls := [Call(0, Finished)]);
    ReachNext(rules, MADE, s1, AddServer(0));
    var s2 := s1.(lock := Some(1), calls := s1.calls + [Call(0, StartLocked)]);
    ReachNext(rules, s1, s2, BeginStart(0));
    ReachSuperseded(rules, s2, StartLocked);
  }

  /** A second start begins before the first has registered its instance. */
  lemma StartsOverlap(rules: Rules)
    requires !rules.startsWait
    ensures Reachable(rules, Torn(Unlocked))
  {
    hide Reachable, EnvironmentStep, RequestStep;
    ReachMade(rules);
    var s1 := MADE.(lock := Some(1), calls := MADE.calls + [Call(0, StartLocked)]);
    ReachNext(rules, MADE, s1, BeginStart(0));
    ReachSuperseded(rules, s1, StartLocked);
    RegisterLast(rules, Unlocked);
  }

  /** A shutdown begins before a start has registered its instance. */
  lemma ShutdownOverlaps(rules: Rules)
    requires !rules.shutdownsWait
    ensures Reachable(rules, Torn(Killing))
  {
    hide Reachable, EnvironmentStep, RequestStep;
    ReachMade(rules);
    var s1 := MADE.(lock := Some(1), calls := MADE.calls + [Call(0, ShutdownLocked)]);
    ReachNext(rules, MADE, s1, BeginShutdown(0));
    var s2 := s1.(calls := s1.calls[1 := Call(0, ShutdownDeleted)]);
    assert s2.servers == map[];
    ReachNext(rules, s1, s2, DeleteServer(1));
    ReachSuperseded(rules, s2, ShutdownDeleted);
    RegisterLast(rules, Killing);
  }

  /** The first start registers its instance although its persister was superseded. */
  lemma RegisterLast(rules: Rules, pc: Pc)
    requires Reachable(rules, MADE.(persisters := [EMPTY, EMPTY], saved := map[0 := 1], calls := [Call(0, Made(0)), Call(0, pc)]))
    ensures Reachable(rules, Torn(pc))
  {
    hide Reachable, EnvironmentStep, RequestStep, BeginStep;
    var s := MADE.(persisters := [EMPTY, EMPTY], saved := map[0 := 1], calls := [Call(0, Made(0)), Call(0, pc)]);
    ReachNext(rules, s, Torn(pc), AddServer(0));
  }

  // ---- from there an acknowledged save is lost ----

  const LOST: Save := Save(Some(0), [], [])
  const FRESH: Request := Request(0, [], Accepted, 0, 0, true, false, NotStarted, 0, 0, [], false)

  function Serving(pc: Pc, q: Request): State {
    Torn(pc).(enabled := {0}, connections := map[0 := 0], requests := [q], count := 1)
  }

  lemma ReachServing(rules: Rules, pc: Pc)
    requires Reachable(rules, Torn(pc))
    ensures Reachable(rules, Serving(pc, FRESH))
  {
    hide Reachable, BeginStep, CallStep, RequestMoves;
    var s := Torn(pc);
    var s1 := s.(enabled := {0});
    ReachNext(rules, s, s1, SetEnabled(0, true));
    var s2 := s1.(connections := map[0 := 0]);
    ReachNext(rules, s1, s2, Connect(0, 0));
    ReachNext(rules, s2, Serving(pc, FRESH), Accept(0, []));
  }

  /** One step of the request that changes nothing else. */
  lemma ServeStep(rules: Rules, pc: Pc, q: Request, q': Request, step: Step)
    requires Reachable(rules, Serving(pc, q)) && AboutRequest(step) && step.r == 0
    requires RequestMoves(Serving(pc, q), q, q', step)
    requires !step.HandlerSave? && !step.Release?
    ensures Reachable(rules, Serving(pc, q'))
  {
    hide Reachable, BeginStep, CallStep, EnvironmentStep, RequestMoves;
    assert Serving(pc, q).requests[0 := q'] == [q'];
    ReachNext(rules, Serving(pc, q), Serving(pc, q'), step);
  }

  /** The handler of the registered instance has been called. */
  lemma ReachWorking(rules: Rules, pc: Pc)
    requires Reachable(rules, Torn(pc))
    ensures Reachable(rules, Serving(pc, FRESH.(phase := Waiting, handler := Running, dispatched := 1)))
  {
    hide Reachable;
    ReachServing(rules, pc);
    ServeStep(rules, pc, FRESH, FRESH.(phase := Routed), ReadEnd(0));
    ServeStep(rules, pc, FRESH.(phase := Routed), FRESH.(phase := Waiting, handler := Running, dispatched := 1), Dispatch(0));
  }

  /** It saves into persister 0 and returns; the last check finds its instance registered. */
  function AfterSave(pc: Pc, q: Request): State {
    Serving(pc, q).(persisters := [Persister([], [], [LOST]), EMPTY])
  }

  lemma ReachSaved(rules: Rules, pc: Pc)
    requires Reachable(rules, Torn(pc))
    ensures Reachable(rules, AfterSave(pc, FRESH.(phase := Waiting, handler := Running, dispatched := 1, saves := [LOST])))
  {
    hide Reachable, BeginStep, CallStep, EnvironmentStep;
    ReachWorking(rules, pc);
    var q := FRESH.(phase := Waiting, handler := Running, dispatched := 1);
    var q' := q.(saves := [LOST]);
    assert q.saves + [LOST] == [LOST] && EMPTY.lineage + [LOST] == [LOST];
    assert Serving(pc, q).requests[0 := q'] == [q'];
    ReachNext(rules, Serving(pc, q), AfterSave(pc, q'), HandlerSave(0, [], []));
  }

  lemma AfterSaveStep(rules: Rules, pc: Pc, q: Request, q': Request, step: Step)
    requires Reachable(rules, AfterSave(pc, q)) && AboutRequest(step) && step.r == 0
    requires RequestMoves(AfterSave(pc, q), q, q', step)
    requires !step.HandlerSave? && (step.Release? ==> q.handler == Returned([]))
    ensures Reachable(rules, AfterSave(pc, q'))
  {
    hide Reachable, BeginStep, CallStep, EnvironmentStep, RequestMoves;
    assert AfterSave(pc, q).requests[0 := q'] == [q'];
    ReachNext(rules, AfterSave(pc, q), AfterSave(pc, q'), step);
  }

  ghost predicate Acknowledged(s: State, r: nat) {
    r < |s.requests| && s.requests[r].phase.Answered? && s.requests[r].phase.ok
  }

  /** The client gets a positive answer although the server's current persister lacks the save. */
  lemma TornLosesSave(rules: Rules, pc: Pc) returns (s: State)
    requires Reachable(rules, Torn(pc))
    ensures Reachable(rules, s) && Acknowledged(s, 0) && s.requests[0].saves == [LOST] && Current(s, s.requests[0].server) == []
  {
    hide Reachable;
    ReachSaved(rules, pc);
    var q := FRESH.(phase := Waiting, handler := Running, dispatched := 1, saves := [LOST]);
    var q1 := q.(handler := Returned([]));
    AfterSaveStep(rules, pc, q, q1, HandlerReturn(0, []));
    var q2 := q1.(phase := GotReply);
    AfterSaveStep(rules, pc, q1, q2, TakeReply(0));
    var q3 := q2.(phase := Passed, cleared := true);
    AfterSaveStep(rules, pc, q2, q3, FinalCheck(0));
    var q4 := q3.(phase := Answered(true, []), answered := 1);
    AfterSaveStep(rules, pc, q3, q4, Release(0));
    s := AfterSave(pc, q4);
  }

  // ---- the exact rules ----

  /** Saves acknowledged in `s` are behind the current persister in `later`. */
  ghost predicate DurableIn(s: State, later: State, r: nat) {
    Acknowledged(s, r) ==> Within(s.requests[r].saves, Current(later, s.requests[r].server))
  }

  ghost predicate DurableRun(run: seq<State>) {
    forall k, l, r: nat | 0 <= k <= l < |run| :: DurableIn(run[k], run[l], r)
  }

  lemma LosingRun(rules: Rules)
    requires rules != STRICT
    ensures exists run: seq<State> :: IsRun(rules, run) && !DurableRun(run)
  {
    hide Next, Torn;
    var pc := if !rules.unregistered || !rules.startsWait then Unlocked else Killing;
    if !rules.unregistered {
      StartedTwice(rules);
    } else if !rules.startsWait {
      StartsOverlap(rules);
    } else {
      ShutdownOverlaps(rules);
    }
    var s := TornLosesSave(rules, pc);
    var run :| IsRun(rules, run) && run[|run| - 1] == s;
    assert !DurableIn(run[|run| - 1], run[|run| - 1], 0);
  }

  /** Acknowledged saves are durable in all runs exactly when all three rules are kept. */
  lemma DurableExactlyWhenStrict(rules: Rules)
    ensures rules == STRICT <==> forall run: seq<State> | IsRun(rules, run) :: DurableRun(run)
  {
    hide IsRun, Within, Current;
    if rules == STRICT {
      forall run: seq<State> | IsRun(rules, run) ensures DurableRun(run) {
        forall k, l, r: nat | 0 <= k <= l < |run| ensures DurableIn(run[k], run[l], r) {
          if Acknowledged(run[k], r) {
            AcknowledgedIsDurable(run, k, l, r);
          }
        }
      }
    } else {
      LosingRun(rules);
    }
  }
}
