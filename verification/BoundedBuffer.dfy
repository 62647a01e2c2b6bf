/** Producers and consumers around a bounded list, as a step relation over any number of threads.

    Two forms of waiting: one wait set for all threads that `notifyAll` wakes, and two conditions of which
    `signalAll` wakes only the other side's.  Waiting threads may also wake up spuriously.  */
module BoundedBuffer {
  import opened Wrappers

  datatype Role = Producer | Consumer

  datatype Waking = NotifyAll | SignalOther

  /** The monitor: capacity, the role of each thread, and the form of waiting. */
  datatype Monitor = Monitor(cap: nat, roles: seq<Role>, waking: Waking)

  ghost predicate ValidMonitor(m: Monitor) {
    m.cap >= 1 && Producer in m.roles && Consumer in m.roles
  }

  datatype Pc =
    | Outside      // before taking the lock
    | Testing      // lock held, about to test the loop condition
    | Waiting      // in wait or await, lock released
    | Woken        // woken up, needs the lock again
    | Acting       // lock held, condition met
    | Notifying    // list changed, about to wake others
    | Leaving      // about to release the lock

  datatype State = State(list: seq<int>, lock: Option<nat>, pcs: seq<Pc>, produced: seq<int>, consumed: seq<int>)

  datatype Step =
    | Lock(t: nat) | Test(t: nat) | Produce(t: nat, elem: int) | Consume(t: nat) | Notify(t: nat) | Unlock(t: nat) | Spurious(t: nat)

  function Init(m: Monitor): State {
    State([], None, seq(|m.roles|, _ => Outside), [], [])
  }

  /** The condition of the waiting loop. */
  predicate MustWait(m: Monitor, s: State, t: nat)
    requires t < |m.roles|
  {
    match m.roles[t]
    case Producer => |s.list| == m.cap
    case Consumer => s.list == []
  }

  /** Whether a notification by `t` reaches `u`. */
  predicate Reaches(m: Monitor, t: nat, u: nat)
    requires t < |m.roles| && u < |m.roles|
  {
    m.waking.NotifyAll? || m.roles[t] != m.roles[u]
  }

  function Notified(m: Monitor, pcs: seq<Pc>, t: nat): (r: seq<Pc>)
    requires t < |pcs| == |m.roles|
    ensures |r| == |pcs|
  {
    seq(|pcs|, u requires 0 <= u < |pcs| => if pcs[u].Waiting? && Reaches(m, t, u) then Woken else pcs[u])
  }

  predicate NextStep(m: Monitor, s: State, s': State, step: Step) {
    && |s.pcs| == |m.roles| && step.t < |s.pcs|
    && var t := step.t;
    match step
    case Lock(_) =>
      && (s.pcs[t].Outside? || s.pcs[t].Woken?) && s.lock.None?
      && s' == s.(lock := Some(t), pcs := s.pcs[t := Testing])
    case Test(_) =>
      && s.pcs[t].Testing?
      && s' == if MustWait(m, s, t) then s.(lock := None, pcs := s.pcs[t := Waiting]) else s.(pcs := s.pcs[t := Acting])
    case Produce(_, elem) =>
      && s.pcs[t].Acting? && m.roles[t].Producer?
      && s' == s.(list := s.list + [elem], produced := s.produced + [elem], pcs := s.pcs[t := Notifying])
    case Consume(_) =>
      && s.pcs[t].Acting? && m.roles[t].Consumer? && s.list != []
      && s' == s.(list := s.list[1..], consumed := s.consumed + [s.list[0]], pcs := s.pcs[t := Notifying])
    case Notify(_) =>
      && s.pcs[t].Notifying?
      && s' == s.(pcs := Notified(m, s.pcs, t)[t := Leaving])
    case Unlock(_) =>
      && s.pcs[t].Leaving?
      && s' == s.(lock := None, pcs := s.pcs[t := Outside])
    case Spurious(_) =>
      && s.pcs[t].Waiting?
      && s' == s.(pcs := s.pcs[t := Woken])
  }

  ghost predicate Next(m: Monitor, s: State, s': State) {
    exists step :: NextStep(m, s, s', step)
  }

  ghost predicate IsRun(m: Monitor, run: seq<State>) {
    && run != [] && run[0] == Init(m)
    && forall k | 0 <= k < |run| - 1 :: Next(m, run[k], run[k + 1])
  }

  // ---- the invariant ----

  predicate HoldsLock(pc: Pc) {
    pc.Testing? || pc.Acting? || pc.Notifying? || pc.Leaving?
  }

  /** A waiting thread has a reason to wait, or the thread that took the reason away is about to wake it. */
  ghost predicate ThreadInv(m: Monitor, s: State, t: nat)
    requires t < |m.roles| == |s.pcs|
  {
    && (HoldsLock(s.pcs[t]) <==> s.lock == Some(t))
    && (s.pcs[t].Acting? ==> !MustWait(m, s, t))
    && (s.pcs[t].Waiting? ==>
          || MustWait(m, s, t)
          || (s.lock.Some? && s.lock.value < |s.pcs| && s.pcs[s.lock.value].Notifying? && m.roles[s.lock.value] != m.roles[t]))
  }

  ghost predicate Inv(m: Monitor, s: State) {
    && |s.pcs| == |m.roles|
    && (s.lock.Some? ==> s.lock.value < |s.pcs|)
    && (forall t: nat | t < |m.roles| :: ThreadInv(m, s, t))
    && |s.list| <= m.cap
    && s.produced == s.consumed + s.list
  }

  lemma NextKeepsThread(m: Monitor, s: State, s': State, step: Step, t: nat)
    requires ValidMonitor(m) && Inv(m, s) && NextStep(m, s, s', step) && t < |m.roles|
    ensures |s'.pcs| == |m.roles| && ThreadInv(m, s', t)
  {
    assert ThreadInv(m, s, t) && ThreadInv(m, s, step.t);
  }

  lemma NextKeepsInv(m: Monitor, s: State, s': State)
    requires ValidMonitor(m) && Inv(m, s) && Next(m, s, s')
    ensures Inv(m, s')
  {
    var step :| NextStep(m, s, s', step);
    assert ThreadInv(m, s, step.t);
    forall t: nat | t < |m.roles| ensures ThreadInv(m, s', t) {
      NextKeepsThread(m, s, s', step, t);
    }
    if step.Consume? {
      assert s.list == [s.list[0]] + s.list[1..];
    }
  }

  lemma {:induction false} RunInv(m: Monitor, run: seq<State>, k: nat)
    requires ValidMonitor(m) && IsRun(m, run) && k < |run|
    ensures Inv(m, run[k])
  {
    hide Next;
    if k > 0 {
      RunInv(m, run, k - 1);
      NextKeepsInv(m, run[k - 1], run[k]);
    }
  }

  // ---- what holds in every run ----

  /** The list stays within its capacity, and elements are consumed in the order they were produced. */
  lemma FirstInFirstOut(m: Monitor, run: seq<State>, k: nat)
    requires ValidMonitor(m) && IsRun(m, run) && k < |run|
    ensures |run[k].list| <= m.cap && run[k].consumed <= run[k].produced && run[k].produced == run[k].consumed + run[k].list
  {
    RunInv(m, run, k);
  }

  /** Whenever the lock is free, waiting producers face a full list and waiting consumers an empty one. */
  lemma WaitersHaveReason(m: Monitor, run: seq<State>, k: nat, t: nat)
    requires ValidMonitor(m) && IsRun(m, run) && k < |run| && run[k].lock.None?
    requires t < |run[k].pcs| && t < |m.roles| && run[k].pcs[t].Waiting?
    ensures if m.roles[t].Producer? then |run[k].list| == m.cap else run[k].list == []
  {
    RunInv(m, run, k);
    assert ThreadInv(m, run[k], t);
  }

  /** A state in which every thread waits cannot be reached; moreover, some thread can always go on
      without a spurious wake-up.  */
  lemma AlwaysProgress(m: Monitor, run: seq<State>, k: nat) returns (s': State, step: Step)
    requires ValidMonitor(m) && IsRun(m, run) && k < |run|
    ensures NextStep(m, run[k], s', step) && !step.Spurious?
    ensures exists t :: 0 <= t < |run[k].pcs| && !run[k].pcs[t].Waiting?
  {
    var s := run[k];
    RunInv(m, run, k);
    if s.lock.Some? {
      var t := s.lock.value;
      assert ThreadInv(m, s, t);
      step, s' := HolderMoves(m, s, t);
    } else {
      var p :| 0 <= p < |m.roles| && m.roles[p] == Producer;
      var c :| 0 <= c < |m.roles| && m.roles[c] == Consumer;
      assert ThreadInv(m, s, p) && ThreadInv(m, s, c);
      var t := if s.pcs[p].Waiting? then c else p;
      step, s' := Lock(t), s.(lock := Some(t), pcs := s.pcs[t := Testing]);
    }
  }

  lemma HolderMoves(m: Monitor, s: State, t: nat) returns (step: Step, s': State)
    requires Inv(m, s) && t < |m.roles| && HoldsLock(s.pcs[t])
    ensures NextStep(m, s, s', step) && !step.Spurious?
  {
    assert ThreadInv(m, s, t);
    match s.pcs[t]
    case Testing =>
      step := Test(t);
      s' := if MustWait(m, s, t) then s.(lock := None, pcs := s.pcs[t := Waiting]) else s.(pcs := s.pcs[t := Acting]);
    case Acting =>
      if m.roles[t].Producer? {
        step := Produce(t, 0);
        s' := s.(list := s.list + [0], produced := s.produced + [0], pcs := s.pcs[t := Notifying]);
      } else {
        step := Consume(t);
        s' := s.(list := s.list[1..], consumed := s.consumed + [s.list[0]], pcs := s.pcs[t := Notifying]);
      }
    case Notifying =>
      step, s' := Notify(t), s.(pcs := Notified(m, s.pcs, t)[t := Leaving]);
    case Leaving =>
      step, s' := Unlock(t), s.(lock := None, pcs := s.pcs[t := Outside]);
  }

  /** A notification wakes, of the waiting threads, all with one wait set and exactly those of the other role with two
      conditions; no other thread is affected.  */
  lemma NotifyWakesExactly(m: Monitor, s: State, s': State, t: nat, u: nat)
    requires NextStep(m, s, s', Notify(t)) && u < |m.roles| && u != t
    ensures s'.list == s.list && s'.lock == s.lock && |s'.pcs| == |m.roles| == |s.pcs|
    ensures s'.pcs[u] == if s.pcs[u].Waiting? && (m.waking == NotifyAll || m.roles[u] != m.roles[t]) then Woken else s.pcs[u]
  {
  }

  /** A waiting thread may wake up at any time. */
  lemma AnyWaiterCanWake(m: Monitor, run: seq<State>, k: nat, t: nat) returns (s': State)
    requires ValidMonitor(m) && IsRun(m, run) && k < |run| && t < |run[k].pcs| && run[k].pcs[t].Waiting?
    ensures Next(m, run[k], s') && |s'.pcs| == |run[k].pcs| && s'.pcs[t].Woken? && s'.list == run[k].list
  {
    RunInv(m, run, k);
    hide ThreadInv, IsRun;
    s' := run[k].(pcs := run[k].pcs[t := Woken]);
    assert NextStep(m, run[k], s', Spurious(t));
  }
}
