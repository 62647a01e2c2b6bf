/** Which answers a request can get: the outcomes of its own steps while nothing else changes. */
module Answers {
  import opened Wrappers
  import opened Bytes
  import opened Network
  import opened Traffic

  /** A step of processReq, not of the handler. */
  predicate OwnStep(step: Step) {
    AboutRequest(step) && !step.HandlerSave? && !step.HandlerReturn?
  }

  ghost predicate Moves(s: State, q: Request, q': Request) {
    exists step :: OwnStep(step) && RequestMoves(s, q, q', step)
  }

  ghost predicate IsPath(s: State, qs: seq<Request>) {
    qs != [] && forall k | 0 <= k < |qs| - 1 :: Moves(s, qs[k], qs[k + 1])
  }

  /** Own steps lead from `q` to `q'` while the network stays as it is. */
  ghost predicate Leads(s: State, q: Request, q': Request) {
    exists qs :: IsPath(s, qs) && qs[0] == q && qs[|qs| - 1] == q'
  }

  ghost predicate CanReach(s: State, q: Request, phase: Phase) {
    exists q' :: Leads(s, q, q') && q'.phase == phase
  }

  lemma LeadsNowhere(s: State, q: Request)
    ensures Leads(s, q, q)
  {
    assert IsPath(s, [q]) && [q][0] == q;
  }

  lemma LeadsOn(s: State, q: Request, q': Request, q'': Request, step: Step)
    requires Leads(s, q, q') && OwnStep(step) && RequestMoves(s, q', q'', step)
    ensures Leads(s, q, q'')
  {
    hide RequestMoves, OwnStep;
    var qs :| IsPath(s, qs) && qs[0] == q && qs[|qs| - 1] == q';
    var longer := qs + [q''];
    assert Moves(s, q', q'');
    forall k | 0 <= k < |longer| - 1 ensures Moves(s, longer[k], longer[k + 1]) {
      assert longer[k] == qs[k];
      assert k < |qs| - 1 ==> longer[k + 1] == qs[k + 1];
    }
    assert IsPath(s, longer) && longer[0] == q && longer[|longer| - 1] == q'';
  }

  // ---- once the handler has returned ----

  /** What own steps can make of a request whose handler has returned. */
  ghost predicate AfterReturn(s: State, q: Request, q': Request) {
    && q'.handler == q.handler && q'.end == q.end && q'.server == q.server && q'.inst == q.inst
    && q'.reliable == q.reliable && q'.longReordering == q.longReordering
    && match q'.phase
       case Accepted => false
       case Routed => false
       case Waiting => true
       case GotReply => true
       case Passed => Alive(s, q)
       case Delayed => Alive(s, q) && q.longReordering
       case Failing => !Alive(s, q) || !q.reliable
       case Answered(ok, reply) => if ok then Alive(s, q) && q.handler == Returned(reply) else !Alive(s, q) || !q.reliable
  }

  lemma MoveAfterReturn(s: State, q: Request, q': Request, q'': Request, step: Step)
    requires AfterReturn(s, q, q') && OwnStep(step) && RequestMoves(s, q', q'', step)
    ensures AfterReturn(s, q, q'')
  {
    assert Alive(s, q') == Alive(s, q);
    match step
    case TakeReply(_) =>
    case SeeDead(_) =>
    case FinalCheck(_) =>
    case DropReply(_) =>
    case Delay(_) =>
    case Release(_) =>
    case Refuse(_) =>
    case _ =>
  }

  lemma {:induction false} PathAfterReturn(s: State, qs: seq<Request>)
    requires IsPath(s, qs) && qs[0].phase.Waiting?
    ensures AfterReturn(s, qs[0], qs[|qs| - 1])
    decreases |qs|
  {
    hide Moves;
    var k := |qs| - 1;
    if k > 0 {
      PathAfterReturn(s, qs[..k]);
      MoveAlong(s, qs[0], qs[k - 1], qs[k]);
    }
  }

  lemma MoveAlong(s: State, q: Request, q': Request, q'': Request)
    requires AfterReturn(s, q, q') && Moves(s, q', q'')
    ensures AfterReturn(s, q, q'')
  {
    hide AfterReturn, RequestMoves;
    var step :| OwnStep(step) && RequestMoves(s, q', q'', step);
    MoveAfterReturn(s, q, q', q'', step);
  }

  lemma ReachedAfterReturn(s: State, q: Request, phase: Phase)
    requires q.phase.Waiting? && CanReach(s, q, phase)
    ensures exists q': Request :: q'.phase == phase && AfterReturn(s, q, q')
  {
    hide AfterReturn;
    var q' :| Leads(s, q, q') && q'.phase == phase;
    var qs :| IsPath(s, qs) && qs[0] == q && qs[|qs| - 1] == q';
    PathAfterReturn(s, qs);
  }

  lemma PassedIsReached(s: State, q: Request) returns (passed: Request)
    requires q.phase.Waiting? && q.handler.Returned? && Alive(s, q)
    ensures Leads(s, q, passed) && passed == q.(phase := Passed, cleared := true)
  {
    hide Leads;
    LeadsNowhere(s, q);
    var got := q.(phase := GotReply);
    LeadsOn(s, q, q, got, TakeReply(0));
    passed := got.(phase := Passed, cleared := true);
    LeadsOn(s, q, got, passed, FinalCheck(0));
  }

  lemma RefusedIsReached(s: State, q: Request, failing: Request)
    requires Leads(s, q, failing) && failing.phase.Failing?
    ensures CanReach(s, q, Answered(false, []))
  {
    hide Leads;
    var refused := failing.(phase := Answered(false, []), answered := failing.answered + 1);
    LeadsOn(s, q, failing, refused, Refuse(0));
  }

  /** Once the handler has returned, a positive answer is possible exactly while the server is alive. */
  lemma PositiveExactlyWhen(s: State, q: Request)
    requires q.phase.Waiting? && q.handler.Returned?
    ensures CanReach(s, q, Answered(true, q.handler.reply)) <==> Alive(s, q)
  {
    hide Leads, Alive;
    var phase := Answered(true, q.handler.reply);
    if CanReach(s, q, phase) {
      ReachedAfterReturn(s, q, phase);
    }
    if Alive(s, q) {
      var passed := PassedIsReached(s, q);
      var answered := passed.(phase := phase, answered := passed.answered + 1);
      LeadsOn(s, q, passed, answered, Release(0));
    }
  }

  /** A negative answer is possible exactly when the server is dead or the network was unreliable. */
  lemma NegativeExactlyWhen(s: State, q: Request)
    requires q.phase.Waiting? && q.handler.Returned?
    ensures CanReach(s, q, Answered(false, [])) <==> !Alive(s, q) || !q.reliable
  {
    hide Leads;
    if CanReach(s, q, Answered(false, [])) {
      ReachedAfterReturn(s, q, Answered(false, []));
    }
    if !Alive(s, q) {
      LeadsNowhere(s, q);
      var failing := q.(phase := Failing);
      LeadsOn(s, q, q, failing, SeeDead(0));
      RefusedIsReached(s, q, failing);
    } else if !q.reliable {
      var passed := PassedIsReached(s, q);
      var failing := passed.(phase := Failing);
      LeadsOn(s, q, passed, failing, DropReply(0));
      RefusedIsReached(s, q, failing);
    }
  }

  /** A reply can be held back exactly when the server is alive and replies may be reordered. */
  lemma DelayedExactlyWhen(s: State, q: Request)
    requires q.phase.Waiting? && q.handler.Returned?
    ensures CanReach(s, q, Delayed) <==> Alive(s, q) && q.longReordering
  {
    hide Leads, Alive;
    if CanReach(s, q, Delayed) {
      ReachedAfterReturn(s, q, Delayed);
    }
    if Alive(s, q) && q.longReordering {
      var passed := PassedIsReached(s, q);
      LeadsOn(s, q, passed, passed.(phase := Delayed), Delay(0));
    }
  }

  /** A reply held back is released in the end, whatever became of the server, and nothing else is answered. */
  lemma DelayedIsReleased(s: State, q: Request)
    requires q.phase.Delayed? && q.handler.Returned?
    ensures CanReach(s, q, Answered(true, q.handler.reply)) && !CanReach(s, q, Answered(false, []))
  {
    hide Leads;
    LeadsNowhere(s, q);
    LeadsOn(s, q, q, q.(phase := Answered(true, q.handler.reply), answered := q.answered + 1), Release(0));
    if q' :| Leads(s, q, q') && q'.phase == Answered(false, []) {
      DelayedStays(s, q, q');
    }
  }

  lemma DelayedStays(s: State, q: Request, q': Request)
    requires q.phase.Delayed? && Leads(s, q, q')
    ensures Positive(q')
  {
    hide Moves;
    var qs :| IsPath(s, qs) && qs[0] == q && qs[|qs| - 1] == q';
    DelayedAlong(s, qs);
  }

  lemma {:induction false} DelayedAlong(s: State, qs: seq<Request>)
    requires IsPath(s, qs) && qs[0].phase.Delayed?
    ensures qs[|qs| - 1].phase.Delayed? || (qs[|qs| - 1].phase.Answered? && qs[|qs| - 1].phase.ok)
    decreases |qs|
  {
    var k := |qs| - 1;
    if k > 0 {
      DelayedAlong(s, qs[..k]);
      assert Moves(s, qs[k - 1], qs[k - 1 + 1]);
    }
  }

  /** What the handler returns is what the client can get. */
  lemma ReplyReachesClient(s: State, q: Request, q': Request, r: nat, reply: Bytes)
    requires q.phase.Waiting? && RequestMoves(s, q, q', HandlerReturn(r, reply)) && Alive(s, q)
    ensures CanReach(s, q', Answered(true, reply))
  {
    hide CanReach;
    PositiveExactlyWhen(s, q');
  }

  // ---- before the handler is called ----

  /** What own steps can make of a request just accepted. */
  ghost predicate AfterAccept(s: State, q: Request, q': Request) {
    match q'.phase
    case Accepted => q' == q
    case Routed => HasRoute(s, q) && Alive(s, q') && q'.reliable == s.reliable && q'.handler.NotStarted?
    case Waiting => HasRoute(s, q) && Alive(s, q') && q'.handler.Running?
    case Failing => !HasRoute(s, q) || !s.reliable
    case Answered(ok, _) => !ok && (!HasRoute(s, q) || !s.reliable)
    case _ => false
  }

  lemma MoveAfterAccept(s: State, q: Request, q': Request, q'': Request, step: Step)
    requires q.handler.NotStarted? && AfterAccept(s, q, q') && OwnStep(step) && RequestMoves(s, q', q'', step)
    ensures AfterAccept(s, q, q'')
  {
    match step
    case ReadEnd(_) =>
    case DropRequest(_) =>
    case Dispatch(_) =>
    case Refuse(_) =>
    case _ =>
  }

  lemma {:induction false} PathAfterAccept(s: State, qs: seq<Request>)
    requires IsPath(s, qs) && qs[0].phase.Accepted? && qs[0].handler.NotStarted?
    ensures AfterAccept(s, qs[0], qs[|qs| - 1])
    decreases |qs|
  {
    hide Moves, AfterAccept;
    var k := |qs| - 1;
    if k > 0 {
      PathAfterAccept(s, qs[..k]);
      AcceptAlong(s, qs[0], qs[k - 1], qs[k]);
    } else {
      AcceptedItself(s, qs[0]);
    }
  }

  lemma AcceptedItself(s: State, q: Request)
    requires q.phase.Accepted?
    ensures AfterAccept(s, q, q)
  {
  }

  lemma AcceptAlong(s: State, q: Request, q': Request, q'': Request)
    requires q.handler.NotStarted? && AfterAccept(s, q, q') && Moves(s, q', q'')
    ensures AfterAccept(s, q, q'')
  {
    hide AfterAccept, RequestMoves;
    var step :| OwnStep(step) && RequestMoves(s, q', q'', step);
    MoveAfterAccept(s, q, q', q'', step);
  }

  lemma ReachedAfterAccept(s: State, q: Request, phase: Phase)
    requires q.phase.Accepted? && q.handler.NotStarted? && CanReach(s, q, phase)
    ensures exists q': Request :: q'.phase == phase && AfterAccept(s, q, q')
  {
    hide AfterAccept;
    var q' :| Leads(s, q, q') && q'.phase == phase;
    var qs :| IsPath(s, qs) && qs[0] == q && qs[|qs| - 1] == q';
    PathAfterAccept(s, qs);
  }

  lemma RoutedIsReached(s: State, q: Request) returns (routed: Request)
    requires q.phase.Accepted? && HasRoute(s, q)
    ensures Leads(s, q, routed) && routed.phase.Routed? && routed.reliable == s.reliable
  {
    hide Leads;
    LeadsNowhere(s, q);
    routed := q.(phase := Routed, server := s.connections[q.end], inst := s.servers[s.connections[q.end]],
                 reliable := s.reliable, longReordering := s.longReordering);
    LeadsOn(s, q, q, routed, ReadEnd(0));
  }

  /** The handler is called exactly when the end is enabled and connected to a registered server. */
  lemma DispatchExactlyWhen(s: State, q: Request)
    requires q.phase.Accepted? && q.handler.NotStarted?
    ensures CanReach(s, q, Waiting) <==> HasRoute(s, q)
  {
    hide Leads, HasRoute, Alive;
    if CanReach(s, q, Waiting) {
      ReachedAfterAccept(s, q, Waiting);
    }
    if HasRoute(s, q) {
      var routed := RoutedIsReached(s, q);
      LeadsOn(s, q, routed, routed.(phase := Waiting, handler := Running, dispatched := routed.dispatched + 1), Dispatch(0));
    }
  }

  /** Without calling the handler a request is refused exactly when it has no route or the network is unreliable. */
  lemma RefusedExactlyWhen(s: State, q: Request)
    requires q.phase.Accepted? && q.handler.NotStarted?
    ensures CanReach(s, q, Answered(false, [])) <==> !HasRoute(s, q) || !s.reliable
  {
    hide Leads, Alive;
    if CanReach(s, q, Answered(false, [])) {
      ReachedAfterAccept(s, q, Answered(false, []));
    }
    if !HasRoute(s, q) {
      LeadsNowhere(s, q);
      var failing := q.(phase := Failing);
      LeadsOn(s, q, q, failing, ReadEnd(0));
      RefusedIsReached(s, q, failing);
    } else if !s.reliable {
      var routed := RoutedIsReached(s, q);
      var failing := routed.(phase := Failing);
      LeadsOn(s, q, routed, failing, DropRequest(0));
      RefusedIsReached(s, q, failing);
    }
  }
}
