/** The data behind the visualization of one partition: replaying its partial linearizations. */
module Visualization {
  import opened Wrappers
  import opened Linearizability
  import opened Entries
  import opened Search
  import opened Sequences
  import CheckParallel

  datatype HistoryElement = HistoryElement(clientId: int, start: int, end: int)

  /** An operation and the state it leads to. */
  datatype LinearizationStep<+S> = LinearizationStep(index: nat, state: S)

  // ---- reading the entries ----

  ghost predicate ElementFor<I, O>(h: seq<Entry<I, O>>, id: nat, e: HistoryElement)
    requires WellFormed(h) && id < |h| / 2
  {
    e == HistoryElement(h[Position(h, true, id)].clientId, h[Position(h, true, id)].time, h[Position(h, false, id)].time)
  }

  /** What is known about an entry once it has been read. */
  ghost predicate Read<I, O>(e: Entry<I, O>, history: seq<HistoryElement>, callValue: map<int, I>, returnValue: map<int, O>) {
    0 <= e.id < |history| &&
    match e
    case CallEntry(input, id, time, clientId) =>
      id in callValue && callValue[id] == input && history[id].clientId == clientId && history[id].start == time
    case ReturnEntry(output, id, time, _) =>
      id in returnValue && returnValue[id] == output && history[id].end == time
  }

  lemma OtherIds<I, O>(h: seq<Entry<I, O>>, i: nat)
    requires WellFormed(h) && i < |h|
    ensures 0 <= h[i].id < |h| / 2
    ensures forall j | 0 <= j < i && h[j].CallEntry? == h[i].CallEntry? :: h[j].id != h[i].id
  {
  }

  lemma AllRead<I, O>(h: seq<Entry<I, O>>, history: seq<HistoryElement>, callValue: map<int, I>, returnValue: map<int, O>, id: nat)
    requires WellFormed(h) && |history| == |h| / 2 && id < |history|
    requires forall j | 0 <= j < |h| :: Read(h[j], history, callValue, returnValue)
    ensures ElementFor(h, id, history[id])
    ensures id in callValue && callValue[id] == OpsOf(h)[id].input
    ensures id in returnValue && returnValue[id] == OpsOf(h)[id].output
  {
    var c, r := Position(h, true, id), Position(h, false, id);
    assert Read(h[c], history, callValue, returnValue) && Read(h[r], history, callValue, returnValue);
  }

  method ReadHistory<I, O>(h: seq<Entry<I, O>>)
    returns (history: seq<HistoryElement>, callValue: map<int, I>, returnValue: map<int, O>)
    requires WellFormed(h)
    ensures |history| == |h| / 2 && forall id: nat | id < |history| :: ElementFor(h, id, history[id])
    ensures forall id: nat | id < |h| / 2 :: id in callValue && callValue[id] == OpsOf(h)[id].input
    ensures forall id: nat | id < |h| / 2 :: id in returnValue && returnValue[id] == OpsOf(h)[id].output
  {
    hide WellFormed, ElementFor;
    history := seq(|h| / 2, _ => HistoryElement(0, 0, 0));
    callValue, returnValue := map[], map[];
    for i := 0 to |h|
      invariant |history| == |h| / 2
      invariant forall j | 0 <= j < i :: Read(h[j], history, callValue, returnValue)
    {
      var elem := h[i];
      var id := elem.id;
      OtherIds(h, i);
      if elem.CallEntry? {
        history := history[id := history[id].(clientId := elem.clientId, start := elem.time)];
        callValue := callValue[id := elem.input];
      } else {
        history := history[id := history[id].(end := elem.time)];
        returnValue := returnValue[id := elem.output];
      }
    }
    forall id: nat | id < |h| / 2
      ensures ElementFor(h, id, history[id])
      ensures id in callValue && callValue[id] == OpsOf(h)[id].input
      ensures id in returnValue && returnValue[id] == OpsOf(h)[id].output
    {
      AllRead(h, history, callValue, returnValue, id);
    }
  }

  // ---- replaying ----

  /** The longest come first. */
  ghost predicate LongestFirst(partials: seq<seq<nat>>) {
    forall i, j | 0 <= i < j < |partials| :: |partials[j]| <= |partials[i]|
  }

  lemma InsertByLength(partials: seq<seq<nat>>, x: seq<nat>, k: nat)
    requires LongestFirst(partials) && k <= |partials|
    requires (k > 0 ==> |x| <= |partials[k - 1]|) && (k < |partials| ==> |partials[k]| <= |x|)
    ensures LongestFirst(partials[..k] + [x] + partials[k..])
  {
  }

  method SortByLength(raw: seq<seq<nat>>) returns (partials: seq<seq<nat>>)
    ensures LongestFirst(partials) && multiset(partials) == multiset(raw)
  {
    hide LongestFirst;
    partials := [];
    LongestFirstEmpty();
    for n := 0 to |raw|
      invariant LongestFirst(partials) && multiset(partials) == multiset(raw[..n])
    {
      var k := |partials|;
      while k > 0 && |raw[n]| > |partials[k - 1]|
        invariant 0 <= k <= |partials|
        invariant k < |partials| ==> |partials[k]| <= |raw[n]|
      {
        k := k - 1;
      }
      InsertByLength(partials, raw[n], k);
      InsertAt(partials, raw[n], k);
      TakeNext(raw, n);
      partials := partials[..k] + [raw[n]] + partials[k..];
    }
    assert raw[..|raw|] == raw;
  }

  lemma LongestFirstEmpty()
    ensures LongestFirst([])
  {
  }

  /** `steps` replays `o`: each state is the one after the operations up to there. */
  ghost predicate Replays<S, I, O>(m: Model<S, I, O>, ops: seq<Operation<I, O>>, o: seq<nat>, steps: seq<LinearizationStep<S>>) {
    && ValidIds(ops, o) && |steps| <= |o|
    && forall j | 0 <= j < |steps| :: steps[j].index == o[j] && Exec(m, ops, o[..j + 1]) == Some(steps[j].state)
  }

  lemma {:induction false} PrefixRuns<S, I, O>(m: Model<S, I, O>, ops: seq<Operation<I, O>>, o: seq<nat>, k: nat)
    requires ValidIds(ops, o) && Exec(m, ops, o).Some? && k <= |o|
    ensures Exec(m, ops, o[..k]).Some?
    decreases |o|
  {
    if k < |o| {
      PrefixRuns(m, ops, o[..|o| - 1], k);
      assert o[..|o| - 1][..k] == o[..k];
    } else {
      assert o[..k] == o;
    }
  }

  /** One order, replayed.  The step that the source guards with a panic never rejects. */
  method Replay<S, I, O>(
    m: Model<S, I, O>, ghost ops: seq<Operation<I, O>>, o: seq<nat>, callValue: map<int, I>, returnValue: map<int, O>)
    returns (steps: seq<LinearizationStep<S>>)
    requires ValidIds(ops, o) && Exec(m, ops, o).Some?
    requires forall id: nat | id < |ops| :: id in callValue && callValue[id] == ops[id].input
    requires forall id: nat | id < |ops| :: id in returnValue && returnValue[id] == ops[id].output
    ensures |steps| == |o| && Replays(m, ops, o, steps)
  {
    steps := [];
    var state := m.init;
    assert o[..0] == [];
    for j := 0 to |o|
      invariant |steps| == j && Replays(m, ops, o, steps) && Exec(m, ops, o[..j]) == Some(state)
    {
      var r := m.step(state, callValue[o[j]], returnValue[o[j]]);
      PrefixRuns(m, ops, o, j + 1);
      assert o[..j + 1][..j] == o[..j] && o[..j + 1][j] == o[j];
      assert r.0;
      state := r.1;
      steps := steps + [LinearizationStep(o[j], state)];
    }
  }

  /** `largest` maps each operation to an order that contains it, of maximal length; `sizes` has those lengths. */
  ghost predicate LargestFor(partials: seq<seq<nat>>, largest: map<nat, nat>, sizes: map<nat, nat>) {
    && largest.Keys == sizes.Keys
    && (forall id | id in largest :: largest[id] < |partials| && id in partials[largest[id]] && sizes[id] == |partials[largest[id]]|)
    && (forall id, i | id in largest && 0 <= i < largest[id] && id in partials[i] :: |partials[i]| < sizes[id])
    && (forall id, i | 0 <= i < |partials| && id in partials[i] :: id in largest && |partials[i]| <= sizes[id])
  }

  /** The operations in `done` of an order of length `size` at index `n` have been accounted for. */
  ghost predicate Updated(
    done: set<nat>, n: nat, size: nat, largest: map<nat, nat>, sizes: map<nat, nat>, largest': map<nat, nat>, sizes': map<nat, nat>)
  {
    && largest.Keys == sizes.Keys && largest'.Keys == sizes'.Keys == largest.Keys + done
    && forall id | id in largest' ::
      if id in done && (id in sizes ==> sizes[id] < size) then largest'[id] == n && sizes'[id] == size
      else id in largest && largest'[id] == largest[id] && sizes'[id] == sizes[id]
  }

  lemma LargestGrows(
    partials: seq<seq<nat>>, o: seq<nat>, largest: map<nat, nat>, sizes: map<nat, nat>, largest': map<nat, nat>, sizes': map<nat, nat>)
    requires LargestFor(partials, largest, sizes)
    requires Updated(Elements(o), |partials|, |o|, largest, sizes, largest', sizes')
    ensures LargestFor(partials + [o], largest', sizes')
  {
    forall id | id in largest' ensures
      && largest'[id] < |partials + [o]| && id in (partials + [o])[largest'[id]]
      && sizes'[id] == |(partials + [o])[largest'[id]]|
    {
      LargestAt(partials, o, largest, sizes, largest', sizes', id);
    }
    forall id, i | 0 <= i < |partials + [o]| && id in (partials + [o])[i]
      ensures id in largest' && |(partials + [o])[i]| <= sizes'[id]
    {
      LargestCovers(partials, o, largest, sizes, largest', sizes', id, i);
    }
    forall id, i | id in largest' && 0 <= i < largest'[id] && id in (partials + [o])[i]
      ensures |(partials + [o])[i]| < sizes'[id]
    {
      LargestIsFirst(partials, o, largest, sizes, largest', sizes', id, i);
    }
  }

  lemma LargestIsFirst(
    partials: seq<seq<nat>>, o: seq<nat>, largest: map<nat, nat>, sizes: map<nat, nat>, largest': map<nat, nat>, sizes': map<nat, nat>,
    id: nat, i: nat)
    requires LargestFor(partials, largest, sizes) && id in largest' && i < largest'[id] && i < |partials + [o]| && id in (partials + [o])[i]
    requires Updated(Elements(o), |partials|, |o|, largest, sizes, largest', sizes')
    ensures |(partials + [o])[i]| < sizes'[id]
  {
  }

  lemma LargestAt(
    partials: seq<seq<nat>>, o: seq<nat>, largest: map<nat, nat>, sizes: map<nat, nat>, largest': map<nat, nat>, sizes': map<nat, nat>, id: nat)
    requires LargestFor(partials, largest, sizes) && id in largest'
    requires Updated(Elements(o), |partials|, |o|, largest, sizes, largest', sizes')
    ensures id in sizes' && largest'[id] < |partials + [o]| && id in (partials + [o])[largest'[id]]
    ensures sizes'[id] == |(partials + [o])[largest'[id]]|
  {
  }

  lemma LargestCovers(
    partials: seq<seq<nat>>, o: seq<nat>, largest: map<nat, nat>, sizes: map<nat, nat>, largest': map<nat, nat>, sizes': map<nat, nat>,
    id: nat, i: nat)
    requires LargestFor(partials, largest, sizes) && i < |partials + [o]| && id in (partials + [o])[i]
    requires Updated(Elements(o), |partials|, |o|, largest, sizes, largest', sizes')
    ensures id in largest' && |(partials + [o])[i]| <= sizes'[id]
  {
    assert i == |partials| ==> id in Elements(o);
  }

  lemma UpdateOne(
    done: set<nat>, n: nat, size: nat, largest: map<nat, nat>, sizes: map<nat, nat>, largest': map<nat, nat>, sizes': map<nat, nat>, id: nat)
    requires Updated(done, n, size, largest, sizes, largest', sizes') && size > 0
    ensures if (if id in sizes' then sizes'[id] else 0) < size
      then Updated(done + {id}, n, size, largest, sizes, largest'[id := n], sizes'[id := size])
      else Updated(done + {id}, n, size, largest, sizes, largest', sizes')
  {
  }

  lemma UpdateNone(n: nat, size: nat, largest: map<nat, nat>, sizes: map<nat, nat>)
    requires largest.Keys == sizes.Keys
    ensures Updated({}, n, size, largest, sizes, largest, sizes)
  {
  }

  /** Accounts for one more order. */
  method UpdateLargest(ghost partials: seq<seq<nat>>, n: nat, o: seq<nat>, largest: map<nat, nat>, sizes: map<nat, nat>)
    returns (largest': map<nat, nat>, sizes': map<nat, nat>)
    requires LargestFor(partials, largest, sizes) && n == |partials|
    ensures LargestFor(partials + [o], largest', sizes')
  {
    largest', sizes' := largest, sizes;
    assert largest.Keys == sizes.Keys && Elements(o[..0]) == {};
    hide LargestFor, Updated;
    UpdateNone(n, |o|, largest, sizes);
    for j := 0 to |o|
      invariant Updated(Elements(o[..j]), n, |o|, largest, sizes, largest', sizes')
    {
      var id := o[j];
      assert Elements(o[..j + 1]) == Elements(o[..j]) + {id};
      UpdateOne(Elements(o[..j]), n, |o|, largest, sizes, largest', sizes', id);
      if (if id in sizes' then sizes'[id] else 0) < |o| {
        sizes' := sizes'[id := |o|];
        largest' := largest'[id := n];
      }
    }
    assert o[..|o|] == o;
    LargestGrows(partials, o, largest, sizes, largest', sizes');
  }

  /** The data for one partition, given partial linearizations of its history in any order. */
  method ComputeVisualizationData<S, I, O>(m: Model<S, I, O>, h: seq<Entry<I, O>>, unsorted: seq<seq<nat>>)
    returns (history: seq<HistoryElement>, linearizations: seq<seq<LinearizationStep<S>>>, largest: map<nat, nat>, partials: seq<seq<nat>>)
    requires WellFormed(h) && forall o | o in unsorted :: PartialLinearization(m, OpsOf(h), o)
    ensures |history| == |h| / 2 && forall id: nat | id < |history| :: ElementFor(h, id, history[id])
    ensures LongestFirst(partials) && multiset(partials) == multiset(unsorted)
    ensures |linearizations| == |partials|
    ensures forall i | 0 <= i < |partials| ::
      |linearizations[i]| == |partials[i]| && Replays(m, OpsOf(h), partials[i], linearizations[i])
    ensures IndexesLongest(partials, largest)
  {
    hide WellFormed, ElementFor, Replays, LongestFirst;
    var callValue, returnValue;
    history, callValue, returnValue := ReadHistory(h);
    partials := SortByLength(unsorted);
    linearizations, largest := [], map[];
    var sizes := map[];
    for i := 0 to |partials|
      invariant |linearizations| == i
      invariant forall k | 0 <= k < i :: |linearizations[k]| == |partials[k]| && Replays(m, OpsOf(h), partials[k], linearizations[k])
      invariant LargestFor(partials[..i], largest, sizes)
    {
      assert partials[i] in multiset(partials) && partials[i] in unsorted;
      var steps := Replay(m, OpsOf(h), partials[i], callValue, returnValue);
      linearizations := linearizations + [steps];
      largest, sizes := UpdateLargest(partials[..i], i, partials[i], largest, sizes);
      assert partials[..i + 1] == partials[..i] + [partials[i]];
    }
    assert partials[..|partials|] == partials;
  }

  /** `largest` maps each operation that is in some order to the first of the longest orders that contain it. */
  ghost predicate IndexesLongest(partials: seq<seq<nat>>, largest: map<nat, nat>) {
    && (forall id :: id in largest <==> exists i :: 0 <= i < |partials| && id in partials[i])
    && (forall id | id in largest :: largest[id] < |partials| && id in partials[largest[id]])
    && (forall id, i | id in largest && 0 <= i < |partials| && id in partials[i] :: |partials[i]| <= |partials[largest[id]]|)
    && (forall id, i | id in largest && 0 <= i < largest[id] && id in partials[i] :: |partials[i]| < |partials[largest[id]]|)
  }

  /** After a check that was not cut short, the indexed order is a longest among all partial linearizations
      that contain the operation, and there is no index exactly when there is no such order.  */
  lemma LargestIsLongest<S(!new), I(!new), O(!new)>(
    job: CheckParallel.Job<S, I, O>, run: seq<CheckParallel.State>, i: nat, partials: seq<seq<nat>>, largest: map<nat, nat>, id: nat)
    requires CheckParallel.ValidJob(job) && CheckParallel.IsRun(job, run) && run[|run| - 1].phase.Done?
    requires job.computeInfo && !run[|run| - 1].timedOut && i < |job.history| && id < |OpsOf(job.history[i])|
    requires i < |run[|run| - 1].longest| && Elements(partials) == CheckParallel.Partials(run[|run| - 1], i)
    requires IndexesLongest(partials, largest)
    ensures IsLongestFor(job.m, OpsOf(job.history[i]), id, if id in largest then Some(partials[largest[id]]) else None)
  {
    hide CheckParallel.Next, CheckParallel.ValidJob, PartialLinearization, WellFormed;
    var longest := run[|run| - 1].longest[i];
    CheckParallel.PartialsAreValid(job, run, i);
    CheckParallel.PartialsAreLongest(job, run, i, id);
    if longest[id].Some? {
      assert longest[id].value in CheckParallel.Partials(run[|run| - 1], i);
      assert longest[id].value in Elements(partials);
      var k :| 0 <= k < |partials| && partials[k] == longest[id].value;
      assert id in partials[k];
    }
    if id in largest {
      assert partials[largest[id]] in Elements(partials);
    }
  }
}
