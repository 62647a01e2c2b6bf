/** Dispatching requests to a pool of workers by connection id, as a step relation.

    Readers push requests into the queue of worker `connId % poolSize`; a worker takes one request
    at a time from its queue and handles it.  A send to a channel without free space waits, or
    passes the request directly to a worker that is waiting.  */
module WorkerPool {
  import opened Wrappers
  import opened Sequences
  import opened Arithmetic

  datatype Req = Req(conn: nat, msg: nat)

  /** `poolSize` workers, queues of capacity `queueLen`. */
  datatype Pool = Pool(poolSize: nat, queueLen: nat)

  /** `queues`, `busy` by worker; `pushed`, `started` and `handled` record what happened so far. */
  datatype State = State(
    queues: seq<seq<Req>>, busy: seq<Option<Req>>, pushed: seq<Req>, started: seq<Req>, handled: seq<Req>)

  datatype Step = Push(req: Req) | HandOff(req: Req) | Pop(w: nat) | Finish(w: nat)

  /** The worker of a connection. */
  function WorkerOf(pool: Pool, conn: nat): (w: nat)
    requires pool.poolSize > 0
    ensures w < pool.poolSize
  {
    conn % pool.poolSize
  }

  function Init(pool: Pool): State {
    State(seq(pool.poolSize, _ => []), seq(pool.poolSize, _ => None), [], [], [])
  }

  predicate NextStep(pool: Pool, s: State, s': State, step: Step)
    requires pool.poolSize > 0
  {
    && |s.queues| == |s.busy| == pool.poolSize
    && match step
       case Push(req) =>
         var w := WorkerOf(pool, req.conn);
         && |s.queues[w]| < pool.queueLen
         && s' == s.(queues := s.queues[w := s.queues[w] + [req]], pushed := s.pushed + [req])
       case HandOff(req) =>
         var w := WorkerOf(pool, req.conn);
         && s.queues[w] == [] && s.busy[w].None?
         && s' == s.(busy := s.busy[w := Some(req)], pushed := s.pushed + [req], started := s.started + [req])
       case Pop(w) =>
         && w < pool.poolSize && s.busy[w].None? && s.queues[w] != []
         && s' == s.(queues := s.queues[w := s.queues[w][1..]], busy := s.busy[w := Some(s.queues[w][0])],
                     started := s.started + [s.queues[w][0]])
       case Finish(w) =>
         && w < pool.poolSize && s.busy[w].Some?
         && s' == s.(busy := s.busy[w := None], handled := s.handled + [s.busy[w].value])
  }

  ghost predicate Next(pool: Pool, s: State, s': State)
    requires pool.poolSize > 0
  {
    exists step :: NextStep(pool, s, s', step)
  }

  ghost predicate IsRun(pool: Pool, run: seq<State>)
    requires pool.poolSize > 0
  {
    && run != [] && run[0] == Init(pool)
    && forall k | 0 <= k < |run| - 1 :: Next(pool, run[k], run[k + 1])
  }

  function OfConn(reqs: seq<Req>, conn: nat): seq<Req> {
    if reqs == [] then []
    else OfConn(reqs[..|reqs| - 1], conn) + if reqs[|reqs| - 1].conn == conn then [reqs[|reqs| - 1]] else []
  }

  function InHand(busy: Option<Req>): seq<Req> {
    if busy.Some? then [busy.value] else []
  }

  /** For each connection, what was pushed is what was handled, then what its worker has in hand, then
      what waits in the queue, in this order; and no queue holds foreign or too many requests.  */
  ghost predicate ConnInv(pool: Pool, s: State, conn: nat)
    requires pool.poolSize > 0 && |s.queues| == |s.busy| == pool.poolSize
  {
    var w := WorkerOf(pool, conn);
    && OfConn(s.started, conn) == OfConn(s.handled, conn) + OfConn(InHand(s.busy[w]), conn)
    && OfConn(s.pushed, conn) == OfConn(s.started, conn) + OfConn(s.queues[w], conn)
  }

  ghost predicate WorkerInv(pool: Pool, s: State, w: nat)
    requires pool.poolSize > 0 && w < |s.queues| == |s.busy| == pool.poolSize
  {
    && |s.queues[w]| <= pool.queueLen
    && (forall i | 0 <= i < |s.queues[w]| :: WorkerOf(pool, s.queues[w][i].conn) == w)
    && (s.busy[w].Some? ==> WorkerOf(pool, s.busy[w].value.conn) == w)
  }

  ghost predicate Inv(pool: Pool, s: State)
    requires pool.poolSize > 0
  {
    && |s.queues| == |s.busy| == pool.poolSize
    && (forall conn: nat :: ConnInv(pool, s, conn))
    && (forall w: nat | w < pool.poolSize :: WorkerInv(pool, s, w))
  }

  lemma OfConnAppend(reqs: seq<Req>, req: Req, conn: nat)
    ensures OfConn(reqs + [req], conn) == OfConn(reqs, conn) + if req.conn == conn then [req] else []
  {
    assert (reqs + [req])[..|reqs|] == reqs;
  }

  lemma {:induction false} OfConnFront(reqs: seq<Req>, conn: nat)
    requires reqs != []
    ensures OfConn(reqs, conn) == (if reqs[0].conn == conn then [reqs[0]] else []) + OfConn(reqs[1..], conn)
    decreases |reqs|
  {
    var last := reqs[|reqs| - 1];
    if |reqs| > 1 {
      var init := reqs[..|reqs| - 1];
      OfConnFront(init, conn);
      assert reqs[1..] == init[1..] + [last];
      OfConnAppend(init[1..], last, conn);
    }
  }

  lemma PushKeepsConn(pool: Pool, s: State, s': State, req: Req, conn: nat)
    requires pool.poolSize > 0 && Inv(pool, s) && NextStep(pool, s, s', Push(req))
    ensures ConnInv(pool, s', conn)
  {
    hide OfConn, WorkerOf;
    assert ConnInv(pool, s, conn);
    OfConnAppend(s.pushed, req, conn);
    OfConnAppend(s.queues[WorkerOf(pool, req.conn)], req, conn);
  }

  lemma NoneOfConn(conn: nat)
    ensures OfConn([], conn) == []
  {
  }

  lemma HandOffKeepsConn(pool: Pool, s: State, s': State, req: Req, conn: nat)
    requires pool.poolSize > 0 && Inv(pool, s) && NextStep(pool, s, s', HandOff(req))
    ensures ConnInv(pool, s', conn)
  {
    hide OfConn, WorkerOf;
    assert ConnInv(pool, s, conn);
    NoneOfConn(conn);
    OfConnAppend(s.pushed, req, conn);
    OfConnAppend(s.started, req, conn);
    OfConnAppend([], req, conn);
    assert [] + [req] == [req];
  }

  lemma PopKeepsConn(pool: Pool, s: State, s': State, w: nat, conn: nat)
    requires pool.poolSize > 0 && Inv(pool, s) && NextStep(pool, s, s', Pop(w))
    ensures ConnInv(pool, s', conn)
  {
    hide OfConn, WorkerOf;
    assert ConnInv(pool, s, conn) && WorkerInv(pool, s, w);
    var queue := s.queues[w];
    assert WorkerOf(pool, queue[0].conn) == w;
    hide Inv, WorkerInv;
    OfConnAppend(s.started, queue[0], conn);
    if WorkerOf(pool, conn) == w {
      PopOne(OfConn(s.handled, conn), OfConn(s.started, conn), OfConn(s.pushed, conn), queue, conn);
    }
  }

  lemma PopOne(handled: seq<Req>, started: seq<Req>, pushed: seq<Req>, queue: seq<Req>, conn: nat)
    requires queue != [] && started == handled + OfConn([], conn) && pushed == started + OfConn(queue, conn)
    ensures var taken := if queue[0].conn == conn then [queue[0]] else [];
      started + taken == handled + OfConn([queue[0]], conn) && pushed == started + taken + OfConn(queue[1..], conn)
  {
    NoneOfConn(conn);
    OfConnAppend([], queue[0], conn);
    OfConnFront(queue, conn);
    hide OfConn;
    var taken := if queue[0].conn == conn then [queue[0]] else [];
    Associates(handled, taken, OfConn(queue[1..], conn));
    Associates(taken, [], []);
    Associates([queue[0]], [], []);
  }

  lemma FinishKeepsConn(pool: Pool, s: State, s': State, w: nat, conn: nat)
    requires pool.poolSize > 0 && Inv(pool, s) && NextStep(pool, s, s', Finish(w))
    ensures ConnInv(pool, s', conn)
  {
    hide OfConn, WorkerOf;
    assert ConnInv(pool, s, conn) && WorkerInv(pool, s, w);
    var req := s.busy[w].value;
    NoneOfConn(conn);
    OfConnAppend(s.handled, req, conn);
    OfConnAppend([], req, conn);
    assert [] + [req] == [req];
  }

  lemma StepKeepsWorker(pool: Pool, s: State, s': State, step: Step, w: nat)
    requires pool.poolSize > 0 && Inv(pool, s) && NextStep(pool, s, s', step) && w < pool.poolSize
    ensures WorkerInv(pool, s', w)
  {
    hide ConnInv, WorkerOf;
    assert WorkerInv(pool, s, w);
  }

  lemma NextKeepsInv(pool: Pool, s: State, s': State)
    requires pool.poolSize > 0 && Inv(pool, s) && Next(pool, s, s')
    ensures Inv(pool, s')
  {
    hide ConnInv, WorkerInv;
    var step :| NextStep(pool, s, s', step);
    forall conn: nat ensures ConnInv(pool, s', conn) {
      match step
      case Push(req) => PushKeepsConn(pool, s, s', req, conn);
      case HandOff(req) => HandOffKeepsConn(pool, s, s', req, conn);
      case Pop(w) => PopKeepsConn(pool, s, s', w, conn);
      case Finish(w) => FinishKeepsConn(pool, s, s', w, conn);
    }
    forall w: nat | w < pool.poolSize ensures WorkerInv(pool, s', w) {
      StepKeepsWorker(pool, s, s', step, w);
    }
  }

  lemma {:induction false} RunInv(pool: Pool, run: seq<State>, k: nat)
    requires pool.poolSize > 0 && IsRun(pool, run) && k < |run|
    ensures Inv(pool, run[k])
  {
    hide Next;
    if k > 0 {
      RunInv(pool, run, k - 1);
      hide Inv;
      NextKeepsInv(pool, run[k - 1], run[k]);
    }
  }

  /** In every run the requests of a connection are handled in the order they were pushed, the next one not
      started before the one before is finished; none is lost or repeated: what was pushed is what was handled,
      then what is in hand, then what is queued, all at worker `conn % poolSize`; and no queue is over its
      capacity.  */
  lemma HandledInOrder(pool: Pool, run: seq<State>, k: nat, conn: nat)
    requires pool.poolSize > 0 && IsRun(pool, run) && k < |run|
    ensures var s, w := run[k], conn % pool.poolSize;
      && |s.queues| == |s.busy| == pool.poolSize
      && OfConn(s.pushed, conn) == OfConn(s.handled, conn) + OfConn(InHand(s.busy[w]), conn) + OfConn(s.queues[w], conn)
      && OfConn(s.handled, conn) <= OfConn(s.started, conn) <= OfConn(s.pushed, conn)
      && OfConn(s.started, conn) == OfConn(s.handled, conn) + OfConn(InHand(s.busy[w]), conn)
      && |OfConn(s.started, conn)| <= |OfConn(s.handled, conn)| + 1
      && forall v: nat | v < pool.poolSize :: |s.queues[v]| <= pool.queueLen
  {
    var s := run[k];
    RunInv(pool, run, k);
    assert ConnInv(pool, s, conn);
    var busy := s.busy[WorkerOf(pool, conn)];
    if busy.Some? {
      OfConnAppend([], busy.value, conn);
      assert [] + [busy.value] == [busy.value];
    }
    forall w: nat | w < pool.poolSize ensures |s.queues[w]| <= pool.queueLen {
      assert WorkerInv(pool, s, w);
    }
  }

  /** A request waits in the queue, or is in the hands, of worker `conn % poolSize` and of no other. */
  lemma RequestsAreAtTheirWorker(pool: Pool, run: seq<State>, k: nat, w: nat)
    requires pool.poolSize > 0 && IsRun(pool, run) && k < |run| && w < pool.poolSize
    ensures var s := run[k];
      && |s.queues| == |s.busy| == pool.poolSize
      && (forall req | req in s.queues[w] :: req.conn % pool.poolSize == w)
      && (s.busy[w].Some? ==> s.busy[w].value.conn % pool.poolSize == w)
  {
    RunInv(pool, run, k);
    assert WorkerInv(pool, run[k], w);
    hide ConnInv, Inv;
  }

  function Times(m: int, n: int): int {
    m * n
  }

  lemma SameRemainder(a: int, b: int, m: int, n: int)
    requires n > 0 && a - b == Times(m, n)
    ensures a % n == b % n
  {
    assert a == n * (b / n + m) + b % n by {
      assert b == n * (b / n) + b % n;
      assert n * (b / n + m) == n * (b / n) + n * m;
    }
    Remainder(a, n, b / n + m, b % n);
  }

  lemma SameWorkerMultiple(a: int, b: int, n: int)
    requires n > 0 && a % n == b % n
    ensures a - b == Times(a / n - b / n, n)
  {
    assert a == n * (a / n) + a % n && b == n * (b / n) + b % n;
    assert n * (a / n) - n * (b / n) == n * (a / n - b / n);
  }

  /** Two connections share a worker exactly when their ids differ by a multiple of the pool size. */
  lemma SharedWorker(pool: Pool, a: nat, b: nat)
    requires pool.poolSize > 0
    ensures WorkerOf(pool, a) == WorkerOf(pool, b) <==> exists m: int :: a - b == Times(m, pool.poolSize)
  {
    hide Times;
    if a % pool.poolSize == b % pool.poolSize {
      SameWorkerMultiple(a, b, pool.poolSize);
    }
    if m :| a - b == Times(m, pool.poolSize) {
      SameRemainder(a, b, m, pool.poolSize);
    }
  }

  // ---- every request gets handled ----

  /** A send goes through exactly when the worker's queue has room or the worker waits at an empty queue. */
  lemma PushExactlyWhen(pool: Pool, run: seq<State>, k: nat, req: Req)
    requires pool.poolSize > 0 && IsRun(pool, run) && k < |run|
    ensures var s, w := run[k], req.conn % pool.poolSize;
      && |s.queues| == |s.busy| == pool.poolSize
      && ((exists s' :: NextStep(pool, s, s', Push(req)) || NextStep(pool, s, s', HandOff(req))) <==>
          |s.queues[w]| < pool.queueLen || (s.queues[w] == [] && s.busy[w].None?))
  {
    var s, w := run[k], req.conn % pool.poolSize;
    RunInv(pool, run, k);
    hide ConnInv, WorkerInv, IsRun;
    if |s.queues[w]| < pool.queueLen {
      var s' := s.(queues := s.queues[w := s.queues[w] + [req]], pushed := s.pushed + [req]);
      assert NextStep(pool, s, s', Push(req));
    } else if s.queues[w] == [] && s.busy[w].None? {
      var s' := s.(busy := s.busy[w := Some(req)], pushed := s.pushed + [req], started := s.started + [req]);
      assert NextStep(pool, s, s', HandOff(req));
    }
  }

  function Pending(queues: seq<seq<Req>>, busy: seq<Option<Req>>): nat
    requires |queues| == |busy|
  {
    if queues == [] then 0
    else
      var n := |queues| - 1;
      Pending(queues[..n], busy[..n]) + 2 * |queues[n]| + if busy[n].Some? then 1 else 0
  }

  lemma {:induction false} PendingUpdate(queues: seq<seq<Req>>, busy: seq<Option<Req>>, w: nat, queue: seq<Req>, hand: Option<Req>)
    requires w < |queues| == |busy|
    requires 2 * |queue| + (if hand.Some? then 1 else 0) < 2 * |queues[w]| + if busy[w].Some? then 1 else 0
    ensures Pending(queues[w := queue], busy[w := hand]) < Pending(queues, busy)
  {
    var n := |queues| - 1;
    if w == n {
      assert queues[w := queue][..n] == queues[..n] && busy[w := hand][..n] == busy[..n];
    } else {
      PendingUpdate(queues[..n], busy[..n], w, queue, hand);
      assert queues[w := queue][..n] == queues[..n][w := queue] && busy[w := hand][..n] == busy[..n][w := hand];
    }
  }

  ghost predicate Idle(s: State) {
    |s.queues| == |s.busy| && forall w | 0 <= w < |s.queues| :: s.queues[w] == [] && s.busy[w].None?
  }

  /** A worker with something to do can do it. */
  lemma WorkerMoves(pool: Pool, s: State) returns (s': State)
    requires pool.poolSize > 0 && |s.queues| == |s.busy| == pool.poolSize && !Idle(s)
    ensures Next(pool, s, s') && s'.pushed == s.pushed && |s'.queues| == |s'.busy| == pool.poolSize
    ensures Pending(s'.queues, s'.busy) < Pending(s.queues, s.busy)
  {
    hide Pending;
    var w: nat :| w < |s.queues| && !(s.queues[w] == [] && s.busy[w].None?);
    if s.busy[w].Some? {
      s' := s.(busy := s.busy[w := None], handled := s.handled + [s.busy[w].value]);
      assert NextStep(pool, s, s', Finish(w));
      PendingUpdate(s.queues, s.busy, w, s.queues[w], None);
      assert s.queues[w := s.queues[w]] == s.queues;
    } else {
      s' := s.(queues := s.queues[w := s.queues[w][1..]], busy := s.busy[w := Some(s.queues[w][0])],
               started := s.started + [s.queues[w][0]]);
      assert NextStep(pool, s, s', Pop(w));
      PendingUpdate(s.queues, s.busy, w, s.queues[w][1..], Some(s.queues[w][0]));
    }
  }

  lemma ExtendRun(pool: Pool, run: seq<State>, s: State)
    requires pool.poolSize > 0 && IsRun(pool, run) && Next(pool, run[|run| - 1], s)
    ensures IsRun(pool, run + [s])
  {
    hide Next;
    var longer := run + [s];
    forall k | 0 <= k < |longer| - 1 ensures Next(pool, longer[k], longer[k + 1]) {
      assert longer[k] == run[k];
      assert k < |run| - 1 ==> longer[k + 1] == run[k + 1];
    }
  }

  lemma IdleHandledAll(pool: Pool, s: State, conn: nat)
    requires pool.poolSize > 0 && Inv(pool, s) && Idle(s)
    ensures OfConn(s.handled, conn) == OfConn(s.pushed, conn)
  {
    hide OfConn, WorkerInv;
    assert ConnInv(pool, s, conn);
    NoneOfConn(conn);
  }

  /** Of each connection exactly the requests in `pushed` have been handled, in that order. */
  ghost predicate HandledAll(s: State, pushed: seq<Req>) {
    forall conn: nat :: OfConn(s.handled, conn) == OfConn(pushed, conn)
  }

  function Todo(s: State): nat {
    if |s.queues| == |s.busy| then Pending(s.queues, s.busy) else 0
  }

  /** From every reachable state the workers alone can go on until every request pushed so far is handled. */
  lemma {:induction false} AllGetHandled(pool: Pool, run: seq<State>) returns (longer: seq<State>)
    requires pool.poolSize > 0 && run != [] && IsRun(pool, run)
    ensures longer != [] && IsRun(pool, longer) && run <= longer && longer[|longer| - 1].pushed == run[|run| - 1].pushed
    ensures HandledAll(longer[|longer| - 1], run[|run| - 1].pushed)
    decreases Todo(run[|run| - 1])
  {
    hide Next, IsRun, ConnInv, WorkerInv, OfConn, Pending, Idle;
    var s := run[|run| - 1];
    RunInv(pool, run, |run| - 1);
    if Idle(s) {
      longer := run;
      forall conn: nat ensures OfConn(s.handled, conn) == OfConn(s.pushed, conn) {
        IdleHandledAll(pool, s, conn);
      }
    } else {
      var s' := WorkerMoves(pool, s);
      ExtendRun(pool, run, s');
      longer := AllGetHandled(pool, run + [s']);
    }
  }
}
