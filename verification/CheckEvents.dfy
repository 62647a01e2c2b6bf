/** Checking a history of events from end to end, with the default of one partition. */
module CheckEvents {
  import opened Wrappers
  import opened Linearizability
  import opened Entries
  import opened LinearOrders
  import opened Events
  import opened CheckParallel

  // ---- linearizability of events, without entries or numbers ----

  function IndexOf<I, O>(events: seq<Event<I, O>>, call: bool, id: int): (k: nat)
    ensures k <= |events|
    ensures k < |events| ==> events[k].CallEvent? == call && events[k].id == id
    ensures forall j | 0 <= j < k :: !(events[j].CallEvent? == call && events[j].id == id)
  {
    if events == [] then 0
    else if events[0].CallEvent? == call && events[0].id == id then 0
    else 1 + IndexOf(events[1..], call, id)
  }

  ghost predicate HasPair<I, O>(events: seq<Event<I, O>>, id: int) {
    IndexOf(events, true, id) < |events| && IndexOf(events, false, id) < |events|
  }

  /** The operation of an id: input and output of its two events, whose indices are its times. */
  ghost function OpOf<I, O>(events: seq<Event<I, O>>, id: int): Operation<I, O>
    requires HasPair(events, id)
  {
    var c, r := IndexOf(events, true, id), IndexOf(events, false, id);
    Operation(events[c].clientId, events[c].input, c, events[r].output, r)
  }

  ghost function OpsOfIds<I, O>(events: seq<Event<I, O>>, o: seq<int>): (w: seq<Operation<I, O>>)
    requires forall i | 0 <= i < |o| :: HasPair(events, o[i])
    ensures |w| == |o| && forall i | 0 <= i < |o| :: w[i] == OpOf(events, o[i])
  {
    seq(|o|, i requires 0 <= i < |o| => OpOf(events, o[i]))
  }

  /** `o` lists each id of the events once; no operation comes after one that was called only after its
      return; and the model accepts the operations in this order.  */
  ghost predicate EventOrder<S, I, O>(m: Model<S, I, O>, events: seq<Event<I, O>>, o: seq<int>) {
    && Distinct(o)
    && (forall v :: v in o <==> Occurs(events, v))
    && (forall i | 0 <= i < |o| :: HasPair(events, o[i]))
    && KeepsRealTime(OpsOfIds(events, o))
    && Run(m, m.init, OpsOfIds(events, o)).Some?
  }

  ghost predicate EventsLinearizable<S, I, O>(m: Model<S, I, O>, events: seq<Event<I, O>>) {
    exists o :: EventOrder(m, events, o)
  }

  // ---- events and their entries ----

  /** `h` has the entries of the renumbered events. */
  ghost predicate EntriesFor<I, O>(events: seq<Event<I, O>>, e: seq<Event<I, O>>, h: seq<Entry<I, O>>) {
    IsRenumbering(events, e) && |h| == |e| && forall i | 0 <= i < |e| :: h[i] == Converted(e[i], i)
  }

  lemma OccursIsIn<I, O>(events: seq<Event<I, O>>, v: int)
    ensures Occurs(events, v) <==> v in IdsOf(events)
  {
    if v in IdsOf(events) {
      var i :| 0 <= i < |events| && IdsOf(events)[i] == v;
      assert events[i].id == v;
    }
    if Occurs(events, v) {
      var i :| 0 <= i < |events| && events[i].id == v;
      assert IdsOf(events)[i] == v;
    }
  }

  lemma PairIndices<I, O>(events: seq<Event<I, O>>, v: int)
    requires Paired(events) && Occurs(events, v)
    ensures HasPair(events, v)
  {
    var i, j := PairFor(events, v);
    assert IndexOf(events, true, v) <= i && IndexOf(events, false, v) <= j;
  }

  lemma EntryOf<I, O>(events: seq<Event<I, O>>, e: seq<Event<I, O>>, h: seq<Entry<I, O>>, i: nat)
    requires EntriesFor(events, e, h) && i < |events|
    ensures |h| == |events| && events[i].id in IdsOf(events)
    ensures h[i] == Converted(events[i].(id := Rank(IdsOf(events), events[i].id)), i)
  {
    hide Rank;
  }

  /** The call (or return) of a number in the entries stands where that of its id stands in the events. */
  lemma SamePlace<I, O>(events: seq<Event<I, O>>, e: seq<Event<I, O>>, h: seq<Entry<I, O>>, call: bool, v: int)
    requires EntriesFor(events, e, h) && v in IdsOf(events)
    ensures Position(h, call, Rank(IdsOf(events), v)) == IndexOf(events, call, v)
  {
    hide EntriesFor, Rank, Position, IndexOf;
    var ids := IdsOf(events);
    forall i: nat | i < |events|
      ensures |h| == |events| && (h[i].CallEntry? == call && h[i].id == Rank(ids, v) <==> events[i].CallEvent? == call && events[i].id == v)
    {
      EntryOf(events, e, h, i);
      if events[i].id != v {
        RankIsInjective(ids, events[i].id, v);
      }
    }
    EntryOf(events, e, h, SomeIndex(ids, v));
    var p, k := Position(h, call, Rank(ids, v)), IndexOf(events, call, v);
    if p < k {
      assert false;
    }
    if k < p {
      assert false;
    }
  }

  ghost function SomeIndex(ids: seq<int>, v: int): (i: nat)
    requires v in ids
    ensures i < |ids| && ids[i] == v
  {
    var i: nat :| i < |ids| && ids[i] == v;
    i
  }

  /** A number's operation in the entries is its id's operation in the events. */
  lemma SameOperation<I, O>(events: seq<Event<I, O>>, e: seq<Event<I, O>>, h: seq<Entry<I, O>>, v: int)
    requires EntriesFor(events, e, h) && WellFormed(h) && v in IdsOf(events) && HasPair(events, v) && Rank(IdsOf(events), v) < |h| / 2
    ensures OpsOf(h)[Rank(IdsOf(events), v)] == OpOf(events, v)
  {
    hide EntriesFor, Rank, WellFormed, Position, IndexOf;
    SamePlace(events, e, h, true, v);
    SamePlace(events, e, h, false, v);
    EntryOf(events, e, h, IndexOf(events, true, v));
    EntryOf(events, e, h, IndexOf(events, false, v));
  }

  /** The number of operations is the number of different ids. */
  lemma CountOf<I, O>(events: seq<Event<I, O>>, e: seq<Event<I, O>>, h: seq<Entry<I, O>>)
    requires EntriesFor(events, e, h) && Paired(events)
    ensures WellFormed(h) && |h| / 2 == NumDistinct(IdsOf(events))
  {
    hide Paired, Dense, NumDistinct, WellFormed, Converted, IdsOf;
    EventsAreWellFormed(events, e, h);
    var n := NumDistinct(IdsOf(events));
    RenumberingIsDense(events, e);
    PairedStays(events, e, n);
    DenseInItself(events, e, n);
    PairedCount(e, n);
  }

  lemma DenseInItself<I, O>(events: seq<Event<I, O>>, e: seq<Event<I, O>>, n: nat)
    requires Dense(events, e, n)
    ensures Dense(e, e, n)
  {
    hide Occurs;
  }

  lemma KnownId<I, O>(events: seq<Event<I, O>>, e: seq<Event<I, O>>, h: seq<Entry<I, O>>, v: int)
    requires EntriesFor(events, e, h) && Paired(events) && WellFormed(h) && v in IdsOf(events)
    ensures Rank(IdsOf(events), v) < |h| / 2 && HasPair(events, v)
    ensures OpsOf(h)[Rank(IdsOf(events), v)] == OpOf(events, v)
  {
    hide EntriesFor, Paired, Rank, NumDistinct, WellFormed, IndexOf, OpOf;
    CountOf(events, e, h);
    RankInRange(IdsOf(events), v);
    OccursIsIn(events, v);
    PairIndices(events, v);
    SameOperation(events, e, h, v);
  }

  // ---- the two notions of order agree ----

  /** `o` has the numbers of the ids `ids`. */
  ghost predicate Numbers<I, O>(events: seq<Event<I, O>>, ids: seq<int>, o: seq<nat>) {
    |ids| == |o| && forall i | 0 <= i < |o| :: ids[i] in IdsOf(events) && Rank(IdsOf(events), ids[i]) == o[i]
  }

  lemma SameRun<S, I, O>(
    m: Model<S, I, O>, events: seq<Event<I, O>>, e: seq<Event<I, O>>, h: seq<Entry<I, O>>, ids: seq<int>, o: seq<nat>)
    requires EntriesFor(events, e, h) && Paired(events) && WellFormed(h) && Numbers(events, ids, o)
    ensures ValidIds(OpsOf(h), o) && forall i | 0 <= i < |ids| :: HasPair(events, ids[i])
    ensures Select(OpsOf(h), o) == OpsOfIds(events, ids)
    ensures Exec(m, OpsOf(h), o) == Run(m, m.init, OpsOfIds(events, ids))
  {
    hide EntriesFor, Paired, Rank, WellFormed, Exec, Run, IndexOf, OpOf;
    forall i | 0 <= i < |o| ensures o[i] < |OpsOf(h)| && HasPair(events, ids[i]) && OpsOf(h)[o[i]] == OpOf(events, ids[i]) {
      KnownId(events, e, h, ids[i]);
    }
    ExecIsRun(m, OpsOf(h), o);
    assert Select(OpsOf(h), o) == OpsOfIds(events, ids);
  }

  lemma SameDistinct<I, O>(events: seq<Event<I, O>>, ids: seq<int>, o: seq<nat>)
    requires Numbers(events, ids, o)
    ensures Distinct(ids) <==> Distinct(o)
  {
    hide Rank, IdsOf;
    forall i, j | 0 <= i < j < |o| ensures ids[i] == ids[j] <==> o[i] == o[j] {
      if ids[i] != ids[j] {
        RankIsInjective(IdsOf(events), ids[i], ids[j]);
      }
    }
  }

  lemma SameRealTime<I, O>(ops: seq<Operation<I, O>>, o: seq<nat>)
    requires ValidIds(ops, o)
    ensures KeepsRealTime(Select(ops, o)) <==> forall i, j | 0 <= i < j < |o| :: !Precedes(ops[o[j]], ops[o[i]])
  {
  }

  /** The numbers are all there exactly when the ids are. */
  lemma SameCover<I, O>(events: seq<Event<I, O>>, ids: seq<int>, o: seq<nat>, n: nat)
    requires Numbers(events, ids, o) && Distinct(o) && n == NumDistinct(IdsOf(events))
    ensures |o| == n <==> forall v :: v in ids <==> v in IdsOf(events)
  {
    hide Rank, NumDistinct, IdsOf;
    var all := IdsOf(events);
    DistinctCardinality(o);
    forall i | 0 <= i < |o| ensures o[i] < n {
      RankInRange(all, ids[i]);
    }
    assert forall x: nat | x in Elements(o) :: x < n;
    SubsetOfRange(Elements(o), n);
    if |o| == n {
      forall v ensures v in ids <==> v in all {
        if v in all {
          IdIsListed(events, ids, o, n, v);
        }
      }
    }
    if forall v :: v in ids <==> v in all {
      forall x: nat | x < n ensures x in Elements(o) {
        var v := RankIsDense(all, x);
        var i :| 0 <= i < |ids| && ids[i] == v;
        assert o[i] == x;
      }
      SupersetOfRange(Elements(o), n);
    }
  }

  lemma IdIsListed<I, O>(events: seq<Event<I, O>>, ids: seq<int>, o: seq<nat>, n: nat, v: int)
    requires Numbers(events, ids, o) && n == NumDistinct(IdsOf(events)) && v in IdsOf(events)
    requires forall x: nat | x < n :: x in Elements(o)
    ensures v in ids
  {
    hide Rank, NumDistinct, IdsOf;
    RankInRange(IdsOf(events), v);
    var x := Rank(IdsOf(events), v);
    assert x in Elements(o);
    var i :| 0 <= i < |o| && o[i] == x;
    if ids[i] != v {
      RankIsInjective(IdsOf(events), ids[i], v);
    }
  }

  lemma SameOrder<S, I, O>(
    m: Model<S, I, O>, events: seq<Event<I, O>>, e: seq<Event<I, O>>, h: seq<Entry<I, O>>, ids: seq<int>, o: seq<nat>)
    requires EntriesFor(events, e, h) && Paired(events) && WellFormed(h) && Numbers(events, ids, o)
    ensures Linearization(m, OpsOf(h), o) <==> EventOrder(m, events, ids)
  {
    hide EntriesFor, Paired, WellFormed, Numbers, Exec, Run, IdsOf, Occurs, IndexOf, HasPair, Distinct, KeepsRealTime, Precedes;
    SameRun(m, events, e, h, ids, o);
    SameDistinct(events, ids, o);
    SameRealTime(OpsOf(h), o);
    CountOf(events, e, h);
    if Distinct(o) {
      SameCover(events, ids, o, |h| / 2);
    }
    forall v ensures Occurs(events, v) <==> v in IdsOf(events) {
      OccursIsIn(events, v);
    }
  }

  lemma {:induction false} NumbersOf<I, O>(events: seq<Event<I, O>>, ids: seq<int>) returns (o: seq<nat>)
    requires forall v | v in ids :: Occurs(events, v)
    ensures Numbers(events, ids, o)
  {
    forall i | 0 <= i < |ids| ensures ids[i] in IdsOf(events) {
      OccursIsIn(events, ids[i]);
    }
    hide Rank, IdsOf;
    o := seq(|ids|, i requires 0 <= i < |ids| => Rank(IdsOf(events), ids[i]));
  }

  lemma {:induction false} IdsOfNumbers<I, O>(events: seq<Event<I, O>>, o: seq<nat>) returns (ids: seq<int>)
    requires forall i | 0 <= i < |o| :: o[i] < NumDistinct(IdsOf(events))
    ensures Numbers(events, ids, o)
  {
    hide Rank, NumDistinct, IdsOf;
    if o == [] {
      ids := [];
    } else {
      var rest := IdsOfNumbers(events, o[..|o| - 1]);
      var last := RankIsDense(IdsOf(events), o[|o| - 1]);
      ids := rest + [last];
    }
  }

  /** Paired events are linearizable exactly when the history of their entries is. */
  lemma SameLinearizability<S, I, O>(m: Model<S, I, O>, events: seq<Event<I, O>>, e: seq<Event<I, O>>, h: seq<Entry<I, O>>)
    requires EntriesFor(events, e, h) && Paired(events)
    ensures WellFormed(h) && (Linearizable(m, OpsOf(h)) <==> EventsLinearizable(m, events))
  {
    hide EntriesFor, Paired, WellFormed, NumDistinct, IdsOf, Numbers, Linearization, EventOrder;
    CountOf(events, e, h);
    if o :| Linearization(m, OpsOf(h), o) {
      LinearizationInRange(m, h, o);
      var ids := IdsOfNumbers(events, o);
      SameOrder(m, events, e, h, ids, o);
    }
    if ids :| EventOrder(m, events, ids) {
      EventOrderOccurs(m, events, ids);
      var o := NumbersOf(events, ids);
      SameOrder(m, events, e, h, ids, o);
    }
  }

  lemma LinearizationInRange<S, I, O>(m: Model<S, I, O>, h: seq<Entry<I, O>>, o: seq<nat>)
    requires WellFormed(h) && Linearization(m, OpsOf(h), o)
    ensures forall i | 0 <= i < |o| :: o[i] < |h| / 2
  {
    hide WellFormed;
  }

  lemma EventOrderOccurs<S, I, O>(m: Model<S, I, O>, events: seq<Event<I, O>>, ids: seq<int>)
    requires EventOrder(m, events, ids)
    ensures forall v | v in ids :: Occurs(events, v)
  {
    hide Occurs, HasPair, Run;
  }

  // ---- the check ----

  method Prepare<I, O>(history: seq<Event<I, O>>) returns (h: seq<Entry<I, O>>, ghost e: seq<Event<I, O>>)
    ensures EntriesFor(history, e, h)
    ensures |h| == |history| && forall i | 0 <= i < |h| ::
      history[i].id in IdsOf(history) && h[i] == Converted(history[i].(id := Rank(IdsOf(history), history[i].id)), i)
  {
    var renumbered := Renumber(history);
    e := renumbered;
    h := ConvertEntries(renumbered);
    assert EntriesFor(history, e, h) && |h| == |history|;
    hide Converted, EntriesFor, Rank, IdsOf;
    forall i: nat | i < |h| ensures history[i].id in IdsOf(history) &&
      h[i] == Converted(history[i].(id := Rank(IdsOf(history), history[i].id)), i)
    {
      EntryOf(history, e, h, i);
    }
  }

  ghost function EventsJob<S(!new), I(!new), O(!new)>(
    m: Model<S, I, O>, events: seq<Event<I, O>>, e: seq<Event<I, O>>, h: seq<Entry<I, O>>, verbose: bool, hasTimeout: bool): (job: Job<S, I, O>)
    requires EqualRespectsStep(m) && Paired(events) && EntriesFor(events, e, h)
    ensures ValidJob(job) && job.history == [h] && job.computeInfo == verbose && job.hasTimeout == hasTimeout
  {
    EventsAreWellFormed(events, e, h);
    Job(m, [h], verbose, hasTimeout)
  }

  /** Every check of paired events that cannot go on is finished, and answers the question about the events:
      Ok only for linearizable ones, Illegal only for others, Unknown only after the timer fired.  */
  lemma CheckIsCorrect<S(!new), I(!new), O(!new)>(
    m: Model<S, I, O>, events: seq<Event<I, O>>, e: seq<Event<I, O>>, h: seq<Entry<I, O>>, verbose: bool, hasTimeout: bool, run: seq<State>)
    requires EqualRespectsStep(m) && Paired(events) && EntriesFor(events, e, h)
    requires Maximal(EventsJob(m, events, e, h, verbose, hasTimeout), run)
    ensures run[|run| - 1].phase.Done?
    ensures match Result(run[|run| - 1])
      case Ok => EventsLinearizable(m, events)
      case Illegal => !EventsLinearizable(m, events)
      case Unknown => hasTimeout
  {
    hide ValidJob, WellFormed, EntriesFor, Paired, Next, CanStep, Linearizable, EventsLinearizable, EqualRespectsStep;
    var job := EventsJob(m, events, e, h, verbose, hasTimeout);
    SameLinearizability(m, events, e, h);
    MaximalIsDone(job, run);
    VerdictIsSound(job, run);
    assert PartOk(job, 0) <==> Linearizable(m, OpsOf(h));
  }
}
