/** Acknowledged means durable: a reply is let through only when what its handler saved is in the state
    that every later instance of the server is started with.  */
module Durability {
  import opened Wrappers
  import opened Network

  // ---- saves behind a persister ----

  /** `a` is a subsequence of `b`: the same saves, as often and in the same order. */
  ghost predicate Within(a: seq<Save>, b: seq<Save>)
    decreases |b|
  {
    || a == []
    || (b != [] && var a', b' := a[..|a| - 1], b[..|b| - 1];
        Within(a, b') || (a[|a| - 1] == b[|b| - 1] && Within(a', b')))
  }

  lemma WithinAppend(a: seq<Save>, b: seq<Save>, x: Save)
    requires Within(a, b)
    ensures Within(a, b + [x]) && Within(a + [x], b + [x])
  {
    assert (b + [x])[..|b|] == b && (a + [x])[..|a|] == a;
  }

  lemma {:induction false} WithinPrefix(a: seq<Save>, b: seq<Save>, longer: seq<Save>)
    requires Within(a, b) && b <= longer
    ensures Within(a, longer)
    decreases |longer|
  {
    if |b| < |longer| {
      WithinPrefix(a, b, longer[..|longer| - 1]);
    } else {
      assert b == longer;
    }
  }

  /** In particular every save of `a` is in `b`. */
  lemma {:induction false} WithinContains(a: seq<Save>, b: seq<Save>, x: Save)
    requires Within(a, b) && x in a
    ensures x in b
    decreases |b|
  {
    var a', b' := a[..|a| - 1], b[..|b| - 1];
    assert a == a' + [a[|a| - 1]];
    if Within(a, b') {
      WithinContains(a, b', x);
    } else if x in a' {
      WithinContains(a', b', x);
    }
  }

  // ---- the invariant ----

  const STRICT: Rules := Rules(true, true, true)

  predicate Holds(pc: Pc) {
    pc.ShutdownLocked? || pc.ShutdownDeleted? || pc.ShutdownCopied? || pc.StartLocked? || pc.StartCopied?
  }

  /** Holds the lock, or is a start that has not registered its instance yet. */
  predicate Busy(pc: Pc) {
    Holds(pc) || pc.Unlocked? || pc.Made?
  }

  predicate HasCopy(pc: Pc) {
    pc.ShutdownCopied? || pc.StartCopied?
  }

  ghost predicate CallInv(s: State, c: nat, call: Call) {
    && (Holds(call.pc) ==> s.lock == Some(c))
    && (Busy(call.pc) && !call.pc.ShutdownLocked? ==> call.server !in s.servers)
    && (HasCopy(call.pc) ==> call.pc.p < |s.persisters|)
    && (call.pc.ShutdownCopied? || call.pc.Unlocked? || call.pc.Made? ==> call.server in s.saved)
    && (call.pc.Made? ==>
          && call.pc.inst < |s.instances| && s.instances[call.pc.inst].server == call.server
          && s.instances[call.pc.inst].persister == s.saved[call.server])
  }

  /** At most one call on a server is busy. */
  ghost predicate OneBusy(calls: seq<Call>) {
    forall c, d | 0 <= c < |calls| && 0 <= d < |calls| && calls[c].server == calls[d].server && Busy(calls[c].pc) && Busy(calls[d].pc) ::
      c == d
  }

  /** A registered instance writes to the server's current persister. */
  ghost predicate ServerInv(s: State, i: nat) {
    && (i in s.saved ==> s.saved[i] < |s.persisters|)
    && (i in s.servers ==>
          && s.servers[i] < |s.instances| && s.instances[s.servers[i]].server == i
          && i in s.saved && s.instances[s.servers[i]].persister == s.saved[i])
  }

  ghost predicate ConfigInv(s: State) {
    && (forall c: nat | c < |s.calls| :: CallInv(s, c, s.calls[c]))
    && OneBusy(s.calls)
    && (forall i: nat :: ServerInv(s, i))
    && (forall k | 0 <= k < |s.instances| :: s.instances[k].persister < |s.persisters|)
  }

  /** What a handler saved is behind the persister of its instance; once the last check let the reply
      through, it is behind the server's current persister.  */
  ghost predicate RequestInv(s: State, q: Request) {
    && (q.phase.Accepted? || q.phase.Routed? ==> q.handler.NotStarted?)
    && (q.handler.NotStarted? ==> q.saves == [] && !q.cleared)
    && (q.phase.Routed? || !q.handler.NotStarted? ==>
          && q.inst < |s.instances| && s.instances[q.inst].server == q.server
          && s.instances[q.inst].persister < |s.persisters|
          && Within(q.saves, s.persisters[s.instances[q.inst].persister].lineage))
    && (q.phase.GotReply? || q.cleared ==> q.handler.Returned?)
    && (Positive(q) ==> q.cleared)
    && (q.cleared ==> q.server in s.saved && Within(q.saves, Current(s, q.server)))
  }

  /** A copy about to become current has the saves behind all replies let through. */
  ghost predicate CopyInv(s: State, call: Call, q: Request) {
    HasCopy(call.pc) && call.pc.p < |s.persisters| && q.cleared && q.server == call.server ==>
      Within(q.saves, s.persisters[call.pc.p].lineage)
  }

  ghost predicate DataInv(s: State) {
    && (forall r: nat | r < |s.requests| :: RequestInv(s, s.requests[r]))
    && (forall c: nat, r: nat | c < |s.calls| && r < |s.requests| :: CopyInv(s, s.calls[c], s.requests[r]))
  }

  ghost predicate Inv(s: State) {
    ConfigInv(s) && DataInv(s)
  }

  // ---- the configuration ----

  lemma ServersStay(s: State, s': State)
    requires ConfigInv(s) && s'.servers == s.servers && s'.saved == s.saved && s'.instances == s.instances
    requires s'.lock == s.lock && s'.calls == s.calls && |s.persisters| <= |s'.persisters|
    ensures ConfigInv(s')
  {
    forall i: nat ensures ServerInv(s', i) {
      assert ServerInv(s, i);
    }
    forall c: nat | c < |s'.calls| ensures CallInv(s', c, s'.calls[c]) {
      assert CallInv(s, c, s.calls[c]);
    }
  }

  lemma NobodyBusy(s: State, i: nat, c: nat)
    requires ConfigInv(s) && s.lock.None? && !Starting(s, i) && c < |s.calls| && s.calls[c].server == i
    ensures !Busy(s.calls[c].pc)
  {
    hide OneBusy, ServerInv;
    assert CallInv(s, c, s.calls[c]);
  }

  lemma BeginKeepsBusy(s: State, call: Call)
    requires ConfigInv(s) && s.lock.None? && !Starting(s, call.server)
    ensures OneBusy(s.calls + [call])
  {
    hide Starting, ServerInv, CallInv, Busy;
    var calls := s.calls + [call];
    forall c, d | 0 <= c < |calls| && 0 <= d < |calls| && calls[c].server == calls[d].server && Busy(calls[c].pc) && Busy(calls[d].pc)
      ensures c == d
    {
      if c < |s.calls| && calls[c].server == call.server {
        NobodyBusy(s, call.server, c);
      }
      if d < |s.calls| && calls[d].server == call.server {
        NobodyBusy(s, call.server, d);
      }
    }
  }

  lemma BeginKeepsConfig(s: State, s': State, step: Step)
    requires ConfigInv(s) && BeginStep(STRICT, s, s', step)
    ensures ConfigInv(s')
  {
    hide OneBusy, Starting;
    var call := s'.calls[|s.calls|];
    BeginKeepsBusy(s, call);
    forall i: nat ensures ServerInv(s', i) {
      assert ServerInv(s, i);
    }
    forall c: nat | c < |s'.calls| ensures CallInv(s', c, s'.calls[c]) {
      if c < |s.calls| {
        assert CallInv(s, c, s.calls[c]);
      }
    }
  }

  lemma MoveKeepsBusy(s: State, s': State, step: Step)
    requires OneBusy(s.calls) && CallStep(s, s', step)
    ensures OneBusy(s'.calls)
  {
    hide FreshCopy;
    CallFrame(s, s', step);
    assert Busy(s'.calls[step.c].pc) ==> Busy(s.calls[step.c].pc);
    hide CallStep, Busy;
  }

  /** The call that moves. */
  lemma MoverKeepsInv(s: State, s': State, step: Step)
    requires ConfigInv(s) && CallStep(s, s', step)
    ensures CallInv(s', step.c, s'.calls[step.c])
  {
    hide FreshCopy, OneBusy, Starting;
    assert CallInv(s, step.c, s.calls[step.c]) && ServerInv(s, s.calls[step.c].server);
  }

  /** A call on another server, or one that is not busy. */
  lemma OthersKeepInv(s: State, s': State, step: Step, c: nat)
    requires ConfigInv(s) && CallStep(s, s', step) && c < |s.calls| && c != step.c
    ensures CallInv(s', c, s.calls[c])
  {
    hide FreshCopy, Starting, ServerInv;
    assert CallInv(s, c, s.calls[c]) && CallInv(s, step.c, s.calls[step.c]);
    assert s.calls[c].server == s.calls[step.c].server ==> !Busy(s.calls[c].pc) || !Busy(s.calls[step.c].pc);
    hide OneBusy;
  }

  lemma CallKeepsServer(s: State, s': State, step: Step, i: nat)
    requires ConfigInv(s) && CallStep(s, s', step)
    ensures ServerInv(s', i)
  {
    hide FreshCopy, OneBusy, Starting;
    assert CallInv(s, step.c, s.calls[step.c]) && ServerInv(s, i);
  }

  lemma CallKeepsConfig(s: State, s': State, step: Step)
    requires ConfigInv(s) && CallStep(s, s', step)
    ensures ConfigInv(s')
  {
    hide CallInv, ServerInv, OneBusy;
    CallFrame(s, s', step);
    MoveKeepsBusy(s, s', step);
    forall c: nat | c < |s'.calls| ensures CallInv(s', c, s'.calls[c]) {
      if c == step.c {
        MoverKeepsInv(s, s', step);
      } else {
        OthersKeepInv(s, s', step, c);
      }
    }
    forall i: nat ensures ServerInv(s', i) {
      CallKeepsServer(s, s', step, i);
    }
    InstancesInRange(s, s', step);
  }

  lemma InstancesInRange(s: State, s': State, step: Step)
    requires CallStep(s, s', step)
    requires forall k | 0 <= k < |s.instances| :: s.instances[k].persister < |s.persisters|
    ensures forall k | 0 <= k < |s'.instances| :: s'.instances[k].persister < |s'.persisters|
  {
    hide FreshCopy;
  }

  // ---- the requests ----

  /** Instances stay, and the saves behind a persister only grow at the end. */
  ghost predicate Grows(s: State, s': State) {
    && s.instances <= s'.instances
    && |s.persisters| <= |s'.persisters|
    && (forall k | 0 <= k < |s.persisters| :: s.persisters[k].lineage <= s'.persisters[k].lineage)
  }

  lemma StepGrows(rules: Rules, s: State, s': State)
    requires Next(rules, s, s')
    ensures Grows(s, s')
  {
    hide EnvironmentStep, RequestStep, BeginStep, CallStep;
    var step :| NextStep(rules, s, s', step);
    if EnvironmentStep(s, s', step) {
      EnvironmentGrows(s, s', step);
    } else if RequestStep(s, s', step) {
      RequestGrows(s, s', step);
    } else if BeginStep(rules, s, s', step) {
      BeginFrame(rules, s, s', step);
    } else {
      CallFrame(s, s', step);
    }
  }

  lemma EnvironmentGrows(s: State, s': State, step: Step)
    requires EnvironmentStep(s, s', step)
    ensures Grows(s, s')
  {
  }

  lemma RequestGrows(s: State, s': State, step: Step)
    requires RequestStep(s, s', step)
    ensures Grows(s, s')
  {
    hide Dead;
  }

  ghost predicate SavedInRange(s: State) {
    forall i: nat :: i in s.saved ==> s.saved[i] < |s.persisters|
  }

  lemma ConfigInRange(s: State)
    requires ConfigInv(s)
    ensures SavedInRange(s)
  {
    hide CallInv, OneBusy;
    forall i: nat ensures i in s.saved ==> s.saved[i] < |s.persisters| {
      assert ServerInv(s, i);
    }
  }

  /** A request that no step touches, as long as the server's current persister is the same. */
  lemma RequestStays(s: State, s': State, q: Request)
    requires RequestInv(s, q) && Grows(s, s') && SavedInRange(s)
    requires q.server in s.saved ==> q.server in s'.saved && s'.saved[q.server] == s.saved[q.server]
    ensures RequestInv(s', q)
  {
    hide Within;
    if q.inst < |s.instances| && s.instances[q.inst].persister < |s.persisters| {
      var p := s.instances[q.inst].persister;
      if Within(q.saves, s.persisters[p].lineage) {
        WithinPrefix(q.saves, s.persisters[p].lineage, s'.persisters[p].lineage);
      }
    }
    if q.cleared {
      WithinPrefix(q.saves, Current(s, q.server), Current(s', q.server));
    }
  }

  lemma CopyStays(s: State, s': State, call: Call, q: Request)
    requires CopyInv(s, call, q) && Grows(s, s') && (HasCopy(call.pc) ==> call.pc.p < |s.persisters|)
    ensures CopyInv(s', call, q)
  {
    hide Within;
    if HasCopy(call.pc) && q.cleared && q.server == call.server {
      var p := call.pc.p;
      WithinPrefix(q.saves, s.persisters[p].lineage, s'.persisters[p].lineage);
    }
  }

  lemma CopyInRange(s: State, c: nat)
    requires ConfigInv(s) && c < |s.calls|
    ensures HasCopy(s.calls[c].pc) ==> s.calls[c].pc.p < |s.persisters|
  {
    hide OneBusy, ServerInv;
    assert CallInv(s, c, s.calls[c]);
  }

  lemma DataStays(s: State, s': State)
    requires Inv(s) && Grows(s, s') && s'.requests == s.requests && s'.saved == s.saved
    requires |s.calls| <= |s'.calls| && forall c | 0 <= c < |s'.calls| :: if c < |s.calls| then s'.calls[c] == s.calls[c] else !HasCopy(s'.calls[c].pc)
    ensures DataInv(s')
  {
    hide RequestInv, ConfigInv, Grows, SavedInRange, HasCopy;
    ConfigInRange(s);
    forall r: nat | r < |s'.requests| ensures RequestInv(s', s'.requests[r]) {
      RequestStays(s, s', s.requests[r]);
    }
    forall c: nat, r: nat | c < |s'.calls| && r < |s'.requests| ensures CopyInv(s', s'.calls[c], s'.requests[r]) {
      if c < |s.calls| {
        CopyInRange(s, c);
        assert CopyInv(s, s.calls[c], s.requests[r]);
        CopyStays(s, s', s.calls[c], s.requests[r]);
      }
    }
  }

  lemma EnvironmentKeepsInv(s: State, s': State, step: Step)
    requires Inv(s) && EnvironmentStep(s, s', step)
    ensures Inv(s')
  {
    hide EnvironmentStep, ConfigInv, DataInv, Grows;
    EnvironmentFrame(s, s', step);
    EnvironmentGrows(s, s', step);
    ServersStay(s, s');
    DataStays(s, s');
  }

  lemma BeginKeepsInv(s: State, s': State, step: Step)
    requires Inv(s) && BeginStep(STRICT, s, s', step)
    ensures Inv(s')
  {
    hide ConfigInv, DataInv, Starting;
    BeginKeepsConfig(s, s', step);
    DataStays(s, s');
  }

  // ---- superseding a persister ----

  /** A copy is made while the current persister has the saves behind all replies let through. */
  lemma CopyIsCurrent(s: State, s': State, step: Step, c: nat, q: Request)
    requires Inv(s) && CallStep(s, s', step) && c < |s.calls| && q in s.requests
    ensures CopyInv(s', s'.calls[c], q)
  {
    hide ConfigInv, Within;
    CallFrame(s, s', step);
    CopyInRange(s, c);
    var r: nat :| r < |s.requests| && s.requests[r] == q;
    assert CopyInv(s, s.calls[c], q) && RequestInv(s, q);
    if c == step.c && step.CopySaved? {
      CopyMade(s, s', step);
      assert q.cleared && q.server == s.calls[c].server ==> Within(q.saves, Current(s, q.server));
      hide CallStep, RequestInv, Current;
    } else {
      CopyLeft(s, s', step, c);
      hide CallStep, RequestInv;
      CopyStays(s, s', s.calls[c], q);
    }
  }

  /** A copy has the saves of the current persister behind it. */
  lemma CopyMade(s: State, s': State, step: Step)
    requires CallStep(s, s', step) && step.CopySaved?
    ensures var call := s'.calls[step.c];
      HasCopy(call.pc) && call.pc.p < |s'.persisters| && s'.persisters[call.pc.p].lineage == Current(s, call.server)
  {
  }

  lemma CopyLeft(s: State, s': State, step: Step, c: nat)
    requires CallStep(s, s', step) && c < |s.calls| && !(c == step.c && step.CopySaved?)
    ensures c < |s'.calls| && s'.calls[c].server == s.calls[c].server && (HasCopy(s'.calls[c].pc) ==> s'.calls[c] == s.calls[c])
  {
    hide FreshCopy;
  }

  /** Superseding the persister keeps those saves, since the copy has them. */
  lemma CallKeepsRequest(s: State, s': State, step: Step, q: Request)
    requires Inv(s) && CallStep(s, s', step) && q in s.requests
    ensures RequestInv(s', q)
  {
    hide ConfigInv, Starting;
    CallFrame(s, s', step);
    ConfigInRange(s);
    CopyInRange(s, step.c);
    var r: nat :| r < |s.requests| && s.requests[r] == q;
    assert CopyInv(s, s.calls[step.c], q) && RequestInv(s, q);
    if step.Supersede? && s.calls[step.c].server == q.server {
      SupersededRequest(s, s', s.calls[step.c], q);
    } else {
      SavedElsewhere(s, s', step, q.server);
      RequestStays(s, s', q);
    }
  }

  lemma SavedElsewhere(s: State, s': State, step: Step, i: nat)
    requires CallStep(s, s', step) && !(step.Supersede? && s.calls[step.c].server == i)
    ensures i in s.saved ==> i in s'.saved && s'.saved[i] == s.saved[i]
  {
    hide FreshCopy;
  }

  lemma SupersededRequest(s: State, s': State, call: Call, q: Request)
    requires RequestInv(s, q) && CopyInv(s, call, q) && HasCopy(call.pc) && call.pc.p < |s.persisters| && call.server == q.server
    requires s'.instances == s.instances && s'.persisters == s.persisters && s'.saved == s.saved[q.server := call.pc.p]
    ensures RequestInv(s', q)
  {
    hide Within;
  }

  lemma CallKeepsInv(s: State, s': State, step: Step)
    requires Inv(s) && CallStep(s, s', step)
    ensures Inv(s')
  {
    hide ConfigInv, RequestInv, CopyInv;
    CallKeepsConfig(s, s', step);
    CallFrame(s, s', step);
    hide CallStep;
    forall r: nat | r < |s'.requests| ensures RequestInv(s', s'.requests[r]) {
      CallKeepsRequest(s, s', step, s.requests[r]);
    }
    forall c: nat, r: nat | c < |s'.calls| && r < |s'.requests| ensures CopyInv(s', s'.calls[c], s'.requests[r]) {
      CopyIsCurrent(s, s', step, c, s.requests[r]);
    }
  }

  // ---- requests that move ----

  /** The step that lets the reply through: the instance still registered writes to the server's current
      persister, so what its handler saved is there, and no copy is about to replace it.  */
  lemma PassingMeansSaved(s: State, q: Request)
    requires ConfigInv(s) && RequestInv(s, q) && q.phase.GotReply? && !Dead(s, q)
    ensures q.server in s.saved && Within(q.saves, Current(s, q.server))
    ensures forall c: nat | c < |s.calls| && s.calls[c].server == q.server :: !HasCopy(s.calls[c].pc)
  {
    hide Within, OneBusy;
    assert ServerInv(s, q.server);
    forall c: nat | c < |s.calls| && s.calls[c].server == q.server ensures !HasCopy(s.calls[c].pc) {
      assert CallInv(s, c, s.calls[c]);
    }
  }

  lemma RegisteredInstance(s: State, i: nat)
    requires ConfigInv(s) && i in s.servers
    ensures s.servers[i] < |s.instances| && s.instances[s.servers[i]].server == i
    ensures s.instances[s.servers[i]].persister < |s.persisters|
  {
    hide CallInv, OneBusy;
    assert ServerInv(s, i);
  }

  lemma ReadKeepsRequest(s: State, q: Request, q': Request, step: Step)
    requires ConfigInv(s) && RequestInv(s, q) && RequestMoves(s, q, q', step) && step.ReadEnd?
    ensures RequestInv(s, q')
  {
    hide ConfigInv, Dead, Current;
    if q.end in s.connections && s.connections[q.end] in s.servers {
      RegisteredInstance(s, s.connections[q.end]);
    }
  }

  lemma MoveKeepsRequest(s: State, q: Request, q': Request, step: Step)
    requires ConfigInv(s) && RequestInv(s, q) && RequestMoves(s, q, q', step) && AboutRequest(step) && !step.HandlerSave? && !step.ReadEnd?
    ensures RequestInv(s, q')
  {
    hide ConfigInv, Dead, Within, Current;
    if step.FinalCheck? && !Dead(s, q) {
      PassingMeansSaved(s, q);
    }
  }

  lemma SaveKeepsRequest(s: State, s': State, step: Step)
    requires RequestStep(s, s', step) && step.HandlerSave? && RequestInv(s, s.requests[step.r])
    ensures RequestInv(s', s'.requests[step.r])
  {
    hide Within, Dead;
    var q, q' := s.requests[step.r], s'.requests[step.r];
    var p, sv := s.instances[q.inst].persister, Save(Some(step.r), step.raftstate, step.snapshot);
    assert q'.saves == q.saves + [sv] && s'.persisters == s.persisters[p := SaveTo(s.persisters[p], sv)];
    assert s'.persisters[p].lineage == s.persisters[p].lineage + [sv];
    assert q' == q.(saves := q'.saves) && s'.instances == s.instances;
    hide RequestStep, RequestMoves, Current;
    WithinAppend(q.saves, s.persisters[p].lineage, sv);
  }

  lemma MovedRequest(s: State, s': State, step: Step)
    requires Inv(s) && RequestStep(s, s', step) && AboutRequest(step)
    ensures RequestInv(s', s'.requests[step.r])
  {
    hide ConfigInv, RequestInv, RequestMoves, CopyInv;
    var q, q' := s.requests[step.r], s'.requests[step.r];
    assert RequestInv(s, q);
    if step.HandlerSave? {
      SaveKeepsRequest(s, s', step);
    } else {
      if step.ReadEnd? {
        ReadKeepsRequest(s, q, q', step);
      } else {
        MoveKeepsRequest(s, q, q', step);
      }
      ConfigInRange(s);
      RequestGrows(s, s', step);
      RequestStays(s, s', q');
    }
  }

  /** What a step of a request does not change once its reply was let through. */
  lemma ClearedMoves(s: State, q: Request, q': Request, step: Step)
    requires RequestInv(s, q) && RequestMoves(s, q, q', step) && AboutRequest(step) && q.cleared
    ensures q'.cleared && q'.saves == q.saves && q'.server == q.server
  {
    hide Within, Dead, Current;
  }

  lemma MovedCopy(s: State, s': State, step: Step, c: nat)
    requires Inv(s) && RequestStep(s, s', step) && AboutRequest(step) && c < |s.calls|
    ensures CopyInv(s', s.calls[c], s'.requests[step.r])
  {
    hide ConfigInv, RequestInv, Within;
    RequestFrame(s, s', step);
    RequestGrows(s, s', step);
    hide RequestStep;
    var q, q' := s.requests[step.r], s'.requests[step.r];
    assert RequestInv(s, q) && CopyInv(s, s.calls[c], q);
    CopyInRange(s, c);
    if q.cleared {
      ClearedMoves(s, q, q', step);
      CopyStays(s, s', s.calls[c], q);
    } else if q'.cleared && step.FinalCheck? {
      PassingMeansSaved(s, q);
    }
  }

  lemma FreshRequest(s: State, q: Request)
    requires q.phase.Accepted? && q.handler.NotStarted? && q.saves == [] && !q.cleared
    ensures RequestInv(s, q)
  {
  }

  lemma RequestKeepsData(s: State, s': State, step: Step)
    requires Inv(s) && RequestStep(s, s', step)
    ensures DataInv(s')
  {
    hide ConfigInv, RequestInv, Grows, RequestMoves, HasCopy, SavedInRange, RequestStep;
    RequestFrame(s, s', step);
    RequestGrows(s, s', step);
    ConfigInRange(s);
    forall r: nat | r < |s'.requests| ensures RequestInv(s', s'.requests[r]) {
      if r == |s.requests| {
        FreshRequest(s', s'.requests[r]);
      } else if step.Accept? || r != step.r {
        RequestStays(s, s', s.requests[r]);
      } else {
        MovedRequest(s, s', step);
      }
    }
    forall c: nat, r: nat | c < |s'.calls| && r < |s'.requests| ensures CopyInv(s', s'.calls[c], s'.requests[r]) {
      CopyInRange(s, c);
      if r < |s.requests| && (step.Accept? || r != step.r) {
        assert CopyInv(s, s.calls[c], s.requests[r]);
        CopyStays(s, s', s.calls[c], s.requests[r]);
      } else if r < |s.requests| {
        MovedCopy(s, s', step, c);
      }
    }
  }

  // ---- every run ----

  lemma NextKeepsInv(s: State, s': State)
    requires Inv(s) && Next(STRICT, s, s')
    ensures Inv(s')
  {
    hide EnvironmentStep, RequestStep, BeginStep, CallStep, ConfigInv, DataInv;
    var step :| NextStep(STRICT, s, s', step);
    if EnvironmentStep(s, s', step) {
      EnvironmentKeepsInv(s, s', step);
    } else if RequestStep(s, s', step) {
      RequestFrame(s, s', step);
      ServersStay(s, s');
      RequestKeepsData(s, s', step);
    } else if BeginStep(STRICT, s, s', step) {
      BeginKeepsInv(s, s', step);
    } else {
      CallKeepsInv(s, s', step);
    }
  }

  lemma StartInv()
    ensures Inv(START)
  {
  }

  lemma {:induction false} RunInv(run: seq<State>, k: nat)
    requires IsRun(STRICT, run) && k < |run|
    ensures Inv(run[k])
  {
    hide Inv, Next;
    if k == 0 {
      StartInv();
    } else {
      RunInv(run, k - 1);
      NextKeepsInv(run[k - 1], run[k]);
    }
  }

  ghost predicate Cleared(s: State, r: nat, q: Request) {
    r < |s.requests| && s.requests[r].cleared && s.requests[r].saves == q.saves && s.requests[r].server == q.server
  }

  lemma ClearedStep(rules: Rules, s: State, s': State, r: nat, q: Request)
    requires Inv(s) && Next(rules, s, s') && Cleared(s, r, q)
    ensures Cleared(s', r, q)
  {
    hide EnvironmentStep, RequestStep, BeginStep, CallStep, ConfigInv, RequestInv, CopyInv, RequestMoves;
    var step :| NextStep(rules, s, s', step);
    if EnvironmentStep(s, s', step) {
      EnvironmentFrame(s, s', step);
    } else if RequestStep(s, s', step) {
      RequestFrame(s, s', step);
      assert RequestInv(s, s.requests[r]);
      if AboutRequest(step) && step.r == r {
        ClearedMoves(s, s.requests[r], s'.requests[r], step);
      }
    } else if BeginStep(rules, s, s', step) {
      BeginFrame(rules, s, s', step);
    } else {
      CallFrame(s, s', step);
    }
  }

  lemma {:induction false} ClearedStays(run: seq<State>, k: nat, l: nat, r: nat)
    requires IsRun(STRICT, run) && k <= l < |run| && r < |run[k].requests| && Positive(run[k].requests[r])
    ensures Cleared(run[l], r, run[k].requests[r])
  {
    hide Inv, Next;
    if k == l {
      RunInv(run, k);
      ClearedNow(run[k], r);
    } else {
      ClearedStays(run, k, l - 1, r);
      RunInv(run, l - 1);
      ClearedStep(STRICT, run[l - 1], run[l], r, run[k].requests[r]);
    }
  }

  lemma ClearedNow(s: State, r: nat)
    requires Inv(s) && r < |s.requests|
    ensures Positive(s.requests[r]) ==> s.requests[r].cleared
    ensures s.requests[r].cleared ==> Within(s.requests[r].saves, Current(s, s.requests[r].server))
  {
    hide ConfigInv, CopyInv, Within, Current;
    assert RequestInv(s, s.requests[r]);
  }

  /** From the moment the last check lets a reply through, whether it is sent at once, held back or already
      received, the server's current persister has all saves of the handler behind it, in order.  */
  lemma AcknowledgedIsDurable(run: seq<State>, k: nat, l: nat, r: nat)
    requires IsRun(STRICT, run) && k <= l < |run| && r < |run[k].requests| && Positive(run[k].requests[r])
    ensures var q := run[k].requests[r]; Within(q.saves, Current(run[l], q.server))
  {
    hide Inv, Next, Current, Positive, Within;
    ClearedStays(run, k, l, r);
    RunInv(run, l);
    ClearedNow(run[l], r);
  }

  lemma CallMakesInstance(s: State, s': State, step: Step, x: nat)
    requires CallStep(s, s', step) && |s.instances| <= x < |s'.instances|
    ensures s'.instances[x].given == Current(s, s'.instances[x].server)
  {
  }

  lemma NewInstance(rules: Rules, s: State, s': State, x: nat)
    requires Next(rules, s, s') && |s.instances| <= x < |s'.instances|
    ensures s'.instances[x].given == Current(s, s'.instances[x].server)
  {
    hide RequestStep, EnvironmentStep, BeginStep, CallStep, Current;
    var step :| NextStep(rules, s, s', step);
    if EnvironmentStep(s, s', step) {
      EnvironmentFrame(s, s', step);
    } else if RequestStep(s, s', step) {
      RequestFrame(s, s', step);
    } else if BeginStep(rules, s, s', step) {
      BeginFrame(rules, s, s', step);
    } else {
      CallMakesInstance(s, s', step, x);
    }
  }

  /** Every instance made from that moment on is started with a state that has those saves behind it. */
  lemma {:induction false} AcknowledgedIsHandedOn(run: seq<State>, k: nat, l: nat, r: nat, x: nat)
    requires IsRun(STRICT, run) && k <= l < |run| && r < |run[k].requests| && Positive(run[k].requests[r])
    requires |run[k].instances| <= x < |run[l].instances| && run[l].instances[x].server == run[k].requests[r].server
    ensures Within(run[k].requests[r].saves, run[l].instances[x].given)
    decreases l
  {
    hide Current, Next, Within, Positive;
    StepGrows(STRICT, run[l - 1], run[l]);
    if x < |run[l - 1].instances| {
      assert run[l].instances[x] == run[l - 1].instances[x];
      AcknowledgedIsHandedOn(run, k, l - 1, r, x);
    } else {
      NewInstance(STRICT, run[l - 1], run[l], x);
      AcknowledgedIsDurable(run, k, l - 1, r);
    }
  }
}
