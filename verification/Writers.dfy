/** Who writes to a server's current persister: at most one instance, and none between a shutdown and the next start. */
module Writers {
  import opened Wrappers
  import opened Network
  import opened Durability

  /** No instance writes to `p` and no server has it as its current persister. */
  ghost predicate Unused(s: State, p: nat) {
    && (forall x | 0 <= x < |s.instances| :: s.instances[x].persister != p)
    && (forall i | i in s.saved :: s.saved[i] != p)
  }

  ghost predicate WritesCurrent(s: State, x: nat, i: nat) {
    x < |s.instances| && i in s.saved && s.instances[x].persister == s.saved[i]
  }

  /** A call is about to register the instance, or is shutting its server down. */
  ghost predicate CallKeeps(call: Call, x: nat, i: nat) {
    call.server == i && (call.pc == Made(x) || call.pc.ShutdownDeleted? || call.pc.ShutdownCopied?)
  }

  /** The instance is registered, about to be registered, or being shut down. */
  ghost predicate HasReason(s: State, x: nat, i: nat) {
    || (i in s.servers && s.servers[i] == x)
    || exists c :: 0 <= c < |s.calls| && CallKeeps(s.calls[c], x, i)
  }

  ghost predicate CallWriters(s: State, call: Call) {
    && (HasCopy(call.pc) ==> Unused(s, call.pc.p))
    && (call.pc.Unlocked? && call.server in s.saved ==>
          forall x | 0 <= x < |s.instances| :: s.instances[x].persister != s.saved[call.server])
  }

  ghost predicate WriterInv(s: State) {
    && (forall x, y | 0 <= x < y < |s.instances| :: s.instances[x].persister != s.instances[y].persister)
    && (forall i, j | i in s.saved && j in s.saved && i != j :: s.saved[i] != s.saved[j])
    && (forall c: nat | c < |s.calls| :: CallWriters(s, s.calls[c]))
    && (forall x: nat, i: nat | WritesCurrent(s, x, i) :: HasReason(s, x, i))
  }

  lemma WritersStay(s: State, s': State)
    requires WriterInv(s) && s'.servers == s.servers && s'.saved == s.saved && s'.instances == s.instances && s'.calls == s.calls
    ensures WriterInv(s')
  {
    hide HasCopy, CallKeeps;
    forall c: nat | c < |s'.calls| ensures CallWriters(s', s'.calls[c]) {
      assert CallWriters(s, s.calls[c]);
    }
    forall x: nat, i: nat | WritesCurrent(s', x, i) ensures HasReason(s', x, i) {
      assert WritesCurrent(s, x, i) && HasReason(s, x, i);
    }
  }

  lemma BeginKeepsWriters(s: State, s': State, step: Step)
    requires WriterInv(s) && BeginStep(STRICT, s, s', step)
    ensures WriterInv(s')
  {
    hide Starting;
    forall c: nat | c < |s'.calls| ensures CallWriters(s', s'.calls[c]) {
      if c < |s.calls| {
        assert CallWriters(s, s.calls[c]);
      }
    }
    hide BeginStep, CallKeeps;
    BeginFrame(STRICT, s, s', step);
    CallsKept(s, s', step);
    forall x: nat, i: nat | WritesCurrent(s', x, i) ensures HasReason(s', x, i) {
      assert WritesCurrent(s, x, i) && HasReason(s, x, i);
      if c :| 0 <= c < |s.calls| && CallKeeps(s.calls[c], x, i) {
        assert CallKeeps(s'.calls[c], x, i);
      }
    }
  }

  lemma CallsKept(s: State, s': State, step: Step)
    requires BeginStep(STRICT, s, s', step)
    ensures |s.calls| <= |s'.calls| && forall c | 0 <= c < |s.calls| :: s'.calls[c] == s.calls[c]
  {
    hide Starting;
  }

  // ---- the steps of a call ----

  /** If the mover is busy, it is the only busy call on its server. */
  lemma OnlyBusy(s: State, c: nat, d: nat)
    requires ConfigInv(s) && c < |s.calls| && d < |s.calls| && s.calls[c].server == s.calls[d].server
    requires Busy(s.calls[c].pc) && Busy(s.calls[d].pc)
    ensures c == d
  {
    hide CallInv, ServerInv, Busy;
  }

  lemma NotBothBusy(s: State, c: nat, d: nat)
    requires ConfigInv(s) && c < |s.calls| && d < |s.calls| && c != d
    ensures s.calls[c].server == s.calls[d].server ==> !Busy(s.calls[c].pc) || !Busy(s.calls[d].pc)
  {
    hide CallInv, ServerInv, Busy;
  }

  /** Why an instance wrote to the current persister before a step of call `c` on the same server. */
  lemma ReasonOfMover(s: State, c: nat, x: nat, i: nat)
    requires ConfigInv(s) && WriterInv(s) && c < |s.calls| && s.calls[c].server == i && Busy(s.calls[c].pc) && WritesCurrent(s, x, i)
    ensures (i in s.servers && s.servers[i] == x) || CallKeeps(s.calls[c], x, i)
  {
    hide ConfigInv;
    assert HasReason(s, x, i);
    if d: nat :| d < |s.calls| && CallKeeps(s.calls[d], x, i) {
      OnlyBusy(s, c, d);
    }
  }

  /** The reason of an instance of another server is not touched. */
  lemma ReasonElsewhere(s: State, s': State, step: Step, x: nat, i: nat)
    requires CallStep(s, s', step) && s.calls[step.c].server != i && HasReason(s, x, i)
    ensures HasReason(s', x, i)
  {
    hide FreshCopy;
    CallFrame(s, s', step);
    assert i in s.servers ==> i in s'.servers && s'.servers[i] == s.servers[i];
    hide CallStep;
    if c :| 0 <= c < |s.calls| && CallKeeps(s.calls[c], x, i) {
      assert CallKeeps(s'.calls[c], x, i);
    }
  }

  ghost predicate InRange(s: State) {
    && (forall k | 0 <= k < |s.instances| :: s.instances[k].persister < |s.persisters|)
    && (forall i: nat | i in s.saved :: s.saved[i] < |s.persisters|)
  }

  lemma ConfigIsInRange(s: State)
    requires ConfigInv(s)
    ensures InRange(s)
  {
    hide CallInv, OneBusy;
    forall i: nat | i in s.saved ensures s.saved[i] < |s.persisters| {
      assert ServerInv(s, i);
    }
  }

  /** Persisters stay different, and the one a call made for itself stays its own. */
  lemma CallKeepsApart(s: State, s': State, step: Step)
    requires ConfigInv(s) && WriterInv(s) && CallStep(s, s', step)
    ensures forall x, y | 0 <= x < y < |s'.instances| :: s'.instances[x].persister != s'.instances[y].persister
    ensures forall i, j | i in s'.saved && j in s'.saved && i != j :: s'.saved[i] != s'.saved[j]
  {
    hide HasReason, ConfigInv, Starting;
    assert CallWriters(s, s.calls[step.c]);
  }

  lemma MoverKeepsWriters(s: State, s': State, step: Step)
    requires ConfigInv(s) && WriterInv(s) && CallStep(s, s', step)
    ensures CallWriters(s', s'.calls[step.c])
  {
    hide HasReason;
    ConfigIsInRange(s);
    hide ConfigInv;
    assert CallWriters(s, s.calls[step.c]);
  }

  lemma OtherKeepsWriters(s: State, s': State, step: Step, c: nat)
    requires ConfigInv(s) && WriterInv(s) && CallStep(s, s', step) && c < |s.calls| && c != step.c
    ensures CallWriters(s', s.calls[c])
  {
    hide HasReason;
    assert CallWriters(s, s.calls[c]) && CallWriters(s, s.calls[step.c]);
    assert CallInv(s, c, s.calls[c]) && CallInv(s, step.c, s.calls[step.c]);
    NotBothBusy(s, c, step.c);
    ConfigIsInRange(s);
    hide ConfigInv, CallInv;
  }

  lemma ReasonStays(s: State, s': State, step: Step, x: nat, i: nat)
    requires ConfigInv(s) && WriterInv(s) && CallStep(s, s', step) && WritesCurrent(s', x, i)
    ensures HasReason(s', x, i)
  {
    hide ConfigInv, Starting;
    CallFrame(s, s', step);
    if s.calls[step.c].server != i {
      WroteBefore(s, s', step, x, i);
      ReasonElsewhere(s, s', step, x, i);
    } else {
      ReasonAtMover(s, s', step, x, i);
    }
  }

  /** On another server the same instance wrote to the same persister before. */
  lemma WroteBefore(s: State, s': State, step: Step, x: nat, i: nat)
    requires ConfigInv(s) && WriterInv(s) && CallStep(s, s', step) && WritesCurrent(s', x, i) && s.calls[step.c].server != i
    ensures WritesCurrent(s, x, i)
  {
    hide HasReason, Starting, ConfigInv;
    assert CallWriters(s, s.calls[step.c]);
  }

  lemma ReasonAtMover(s: State, s': State, step: Step, x: nat, i: nat)
    requires ConfigInv(s) && WriterInv(s) && CallStep(s, s', step) && WritesCurrent(s', x, i) && s.calls[step.c].server == i
    ensures HasReason(s', x, i)
  {
    var c := step.c;
    assert CallWriters(s, s.calls[c]) && CallInv(s, c, s.calls[c]);
    hide ConfigInv, HasReason, Starting;
    CallFrame(s, s', step);
    if WritesCurrent(s, x, i) && Busy(s.calls[c].pc) {
      ReasonOfMover(s, c, x, i);
    }
    assert HasReason(s, x, i) || !WritesCurrent(s, x, i);
    ReasonMoves(s, s', step, x);
  }

  lemma ReasonMoves(s: State, s': State, step: Step, x: nat)
    requires CallStep(s, s', step)
    ensures var i := s.calls[step.c].server;
      && (HasReason(s', x, i) <== i in s'.servers && s'.servers[i] == x)
      && (HasReason(s', x, i) <== CallKeeps(s'.calls[step.c], x, i))
      && (step.EndShutdown? && HasReason(s, x, i) ==> HasReason(s', x, i))
  {
    hide FreshCopy;
    CallFrame(s, s', step);
    var i := s.calls[step.c].server;
    if step.EndShutdown? && HasReason(s, x, i) {
      if d :| 0 <= d < |s.calls| && CallKeeps(s.calls[d], x, i) {
        assert CallKeeps(s'.calls[d], x, i);
      }
    }
  }

  lemma CallKeepsWriters(s: State, s': State, step: Step)
    requires ConfigInv(s) && WriterInv(s) && CallStep(s, s', step)
    ensures WriterInv(s')
  {
    hide ConfigInv, CallWriters, WritesCurrent, HasReason;
    CallFrame(s, s', step);
    CallKeepsApart(s, s', step);
    forall c: nat | c < |s'.calls| ensures CallWriters(s', s'.calls[c]) {
      if c == step.c {
        MoverKeepsWriters(s, s', step);
      } else {
        OtherKeepsWriters(s, s', step, c);
      }
    }
    forall x: nat, i: nat | WritesCurrent(s', x, i) ensures HasReason(s', x, i) {
      ReasonStays(s, s', step, x, i);
    }
  }

  lemma NextKeepsWriters(s: State, s': State)
    requires Inv(s) && WriterInv(s) && Next(STRICT, s, s')
    ensures WriterInv(s')
  {
    hide EnvironmentStep, RequestStep, BeginStep, CallStep, ConfigInv, DataInv, WriterInv;
    var step :| NextStep(STRICT, s, s', step);
    if EnvironmentStep(s, s', step) {
      EnvironmentFrame(s, s', step);
      WritersStay(s, s');
    } else if RequestStep(s, s', step) {
      RequestFrame(s, s', step);
      WritersStay(s, s');
    } else if BeginStep(STRICT, s, s', step) {
      BeginKeepsWriters(s, s', step);
    } else {
      CallKeepsWriters(s, s', step);
    }
  }

  lemma NobodyAtStart()
    ensures WriterInv(START)
  {
  }

  lemma {:induction false} RunWriters(run: seq<State>, k: nat)
    requires IsRun(STRICT, run) && k < |run|
    ensures WriterInv(run[k])
  {
    hide Inv, Next, WriterInv;
    if k == 0 {
      NobodyAtStart();
    } else {
      RunInv(run, k - 1);
      RunWriters(run, k - 1);
      NextKeepsWriters(run[k - 1], run[k]);
    }
  }

  /** In every run under the rules, at most one instance writes to a server's current persister, and it is registered,
      about to be registered, or being shut down: an old instance never writes over the state of a new one.  */
  lemma OneWriter(run: seq<State>, k: nat, i: nat, x: nat, y: nat)
    requires IsRun(STRICT, run) && k < |run| && WritesCurrent(run[k], x, i) && WritesCurrent(run[k], y, i)
    ensures x == y && HasReason(run[k], x, i)
  {
    hide Next, CallWriters, HasReason;
    RunWriters(run, k);
  }
}
