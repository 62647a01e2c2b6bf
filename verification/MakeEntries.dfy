/** From operations to entries. */
module MakeEntries {
  import opened Linearizability
  import opened Entries
  import opened Sequences

  // ---- two histories with the same structure ----

  /** The same operations, possibly with other time stamps but in the same real-time order. */
  ghost predicate SameStructure<I, O>(a: seq<Operation<I, O>>, b: seq<Operation<I, O>>) {
    && |a| == |b|
    && (forall x | 0 <= x < |a| :: a[x].input == b[x].input && a[x].output == b[x].output && a[x].clientId == b[x].clientId)
    && (forall x, y | 0 <= x < |a| && 0 <= y < |a| :: Precedes(a[x], a[y]) <==> Precedes(b[x], b[y]))
  }

  lemma {:induction false} SameExec<S, I, O>(m: Model<S, I, O>, a: seq<Operation<I, O>>, b: seq<Operation<I, O>>, o: seq<nat>)
    requires SameStructure(a, b) && ValidIds(a, o)
    ensures Exec(m, a, o) == Exec(m, b, o)
  {
    if o != [] {
      SameExec(m, a, b, o[..|o| - 1]);
    }
  }

  lemma SameLinearizations<S, I, O>(m: Model<S, I, O>, a: seq<Operation<I, O>>, b: seq<Operation<I, O>>, o: seq<nat>)
    requires SameStructure(a, b)
    ensures Linearization(m, a, o) <==> Linearization(m, b, o)
  {
    if ValidIds(a, o) {
      SameExec(m, a, b, o);
    }
  }

  // ---- operations ----

  /** The order of `byTime`: by time, and calls before returns at the same time. */
  predicate Less<I, O>(a: Entry<I, O>, b: Entry<I, O>) {
    if a.time != b.time then a.time < b.time else a.CallEntry? && b.ReturnEntry?
  }

  ghost predicate Sorted<I, O>(es: seq<Entry<I, O>>) {
    forall i, j | 0 <= i < j < |es| :: !Less(es[j], es[i])
  }

  function CallOf<I, O>(op: Operation<I, O>, id: nat): Entry<I, O> {
    CallEntry(op.input, id, op.call, op.clientId)
  }

  function ReturnOf<I, O>(op: Operation<I, O>, id: nat): Entry<I, O> {
    ReturnEntry(op.output, id, op.ret, op.clientId)
  }

  /** The entries before sorting. */
  ghost function Unsorted<I, O>(ops: seq<Operation<I, O>>): seq<Entry<I, O>> {
    seq(2 * |ops|, i requires 0 <= i < 2 * |ops| =>
      if i % 2 == 0 then CallOf(ops[i / 2], i / 2) else ReturnOf(ops[i / 2], i / 2))
  }

  /** Any order of the entries that sorting by time can produce. */
  ghost predicate SortedEntries<I, O>(ops: seq<Operation<I, O>>, es: seq<Entry<I, O>>) {
    Sorted(es) && multiset(Unsorted(ops)) == multiset(es)
  }

  lemma {:induction false} CountAtMostOne<T>(s: seq<T>, x: T)
    requires Distinct(s)
    ensures multiset(s)[x] <= 1
  {
    if s != [] {
      var rest, last := s[..|s| - 1], s[|s| - 1];
      CountAtMostOne(rest, x);
      assert s == rest + [last];
      if x == last {
        assert x !in rest;
      }
    }
  }

  lemma TwiceCountsTwo<T>(s: seq<T>, i: nat, j: nat)
    requires i < j < |s| && s[i] == s[j]
    ensures multiset(s)[s[i]] >= 2
  {
    assert s == s[..i] + [s[i]] + s[i + 1..j] + [s[j]] + s[j + 1..];
  }

  lemma PermutationDistinct<T>(a: seq<T>, b: seq<T>)
    requires multiset(a) == multiset(b) && Distinct(a)
    ensures Distinct(b) && |a| == |b|
  {
    assert |multiset(a)| == |multiset(b)|;
    forall i, j | 0 <= i < j < |b| ensures b[i] != b[j] {
      CountAtMostOne(a, b[i]);
      if b[i] == b[j] {
        TwiceCountsTwo(b, i, j);
      }
    }
  }

  /** What is in the sorted entries, without the order: each operation's two entries, once. */
  ghost predicate Holds<I, O>(ops: seq<Operation<I, O>>, es: seq<Entry<I, O>>) {
    && |es| == 2 * |ops| && Distinct(es)
    && (forall i | 0 <= i < |es| :: 0 <= es[i].id < |ops| &&
          es[i] == if es[i].CallEntry? then CallOf(ops[es[i].id], es[i].id) else ReturnOf(ops[es[i].id], es[i].id))
    && (forall id | 0 <= id < |ops| :: CallOf(ops[id], id) in es && ReturnOf(ops[id], id) in es)
  }

  lemma PermutationHolds<I, O>(ops: seq<Operation<I, O>>, es: seq<Entry<I, O>>)
    requires multiset(Unsorted(ops)) == multiset(es)
    ensures Holds(ops, es)
  {
    var raw := Unsorted(ops);
    assert forall i | 0 <= i < |raw| :: raw[i].id == i / 2 && raw[i].CallEntry? == (i % 2 == 0);
    PermutationDistinct(raw, es);
    forall i | 0 <= i < |es| ensures 0 <= es[i].id < |ops| &&
      es[i] == if es[i].CallEntry? then CallOf(ops[es[i].id], es[i].id) else ReturnOf(ops[es[i].id], es[i].id)
    {
      assert es[i] in multiset(raw);
      var k :| 0 <= k < |raw| && raw[k] == es[i];
    }
    forall id | 0 <= id < |ops| ensures CallOf(ops[id], id) in es && ReturnOf(ops[id], id) in es {
      assert raw[2 * id] in multiset(es) && raw[2 * id + 1] in multiset(es);
    }
  }

  lemma EntryAt<I, O>(ops: seq<Operation<I, O>>, es: seq<Entry<I, O>>, id: nat)
    requires Holds(ops, es) && id < |ops|
    ensures Position(es, true, id) < |es| && es[Position(es, true, id)] == CallOf(ops[id], id)
    ensures Position(es, false, id) < |es| && es[Position(es, false, id)] == ReturnOf(ops[id], id)
  {
    hide Distinct;
    var c, r := Position(es, true, id), Position(es, false, id);
    var i :| 0 <= i < |es| && es[i] == CallOf(ops[id], id);
    var j :| 0 <= j < |es| && es[j] == ReturnOf(ops[id], id);
    assert c <= i && r <= j;
  }

  lemma OwnPosition<I, O>(ops: seq<Operation<I, O>>, es: seq<Entry<I, O>>, i: nat)
    requires Holds(ops, es) && i < |es|
    ensures Position(es, es[i].CallEntry?, es[i].id) == i
  {
    EntryAt(ops, es, es[i].id);
  }

  lemma LessIsBefore<I, O>(es: seq<Entry<I, O>>, i: nat, j: nat)
    requires Sorted(es) && i < |es| && j < |es| && Less(es[i], es[j])
    ensures i < j
  {
  }

  lemma InOrder<I, O>(ops: seq<Operation<I, O>>, es: seq<Entry<I, O>>, a: nat, b: nat)
    requires TimesOrdered(ops) && Sorted(es) && Holds(ops, es) && a < |ops| && b < |ops|
    ensures Position(es, true, a) < Position(es, false, a) < |es|
    ensures Position(es, false, a) < Position(es, true, b) <==> ops[a].ret < ops[b].call
  {
    hide Position, Holds, Sorted;
    EntryAt(ops, es, a);
    EntryAt(ops, es, b);
    var c, r, d := Position(es, true, a), Position(es, false, a), Position(es, true, b);
    LessIsBefore(es, c, r);
    if ops[a].ret < ops[b].call {
      LessIsBefore(es, r, d);
    } else {
      LessIsBefore(es, d, r);
    }
  }

  lemma HoldsIsWellFormed<I, O>(ops: seq<Operation<I, O>>, es: seq<Entry<I, O>>)
    requires TimesOrdered(ops) && Sorted(es) && Holds(ops, es)
    ensures WellFormed(es)
  {
    hide Position, Sorted, TimesOrdered, Distinct;
    forall i | 0 <= i < |es| ensures Position(es, es[i].CallEntry?, es[i].id) == i {
      OwnPosition(ops, es, i);
    }
    forall a: nat | a < |ops| ensures Position(es, true, a) < Position(es, false, a) < |es| {
      InOrder(ops, es, a, a);
    }
  }

  /** Sorting by time gives a well-formed history in which a return precedes a call exactly when
      the operation returned before the other was called.  */
  lemma SortedIsWellFormed<I, O>(ops: seq<Operation<I, O>>, es: seq<Entry<I, O>>)
    requires TimesOrdered(ops) && SortedEntries(ops, es)
    ensures WellFormed(es) && SameStructure(ops, OpsOf(es))
  {
    hide Position, Sorted, TimesOrdered, Unsorted, WellFormed;
    PermutationHolds(ops, es);
    HoldsIsWellFormed(ops, es);
    hide Holds;
    assert |es| == 2 * |ops|;
    forall a: nat, b: nat | a < |ops| && b < |ops|
      ensures OpsOf(es)[a].input == ops[a].input && OpsOf(es)[a].output == ops[a].output && OpsOf(es)[a].clientId == ops[a].clientId
      ensures Precedes(OpsOf(es)[a], OpsOf(es)[b]) <==> Precedes(ops[a], ops[b])
    {
      EntryAt(ops, es, a);
      InOrder(ops, es, a, b);
    }
  }

  method SortByTime<I, O>(raw: seq<Entry<I, O>>) returns (es: seq<Entry<I, O>>)
    ensures Sorted(es) && multiset(raw) == multiset(es)
  {
    hide Sorted, Less;
    es := [];
    SortedEmpty<I, O>();
    for n := 0 to |raw|
      invariant Sorted(es) && multiset(es) == multiset(raw[..n])
    {
      var k := |es|;
      while k > 0 && Less(raw[n], es[k - 1])
        invariant 0 <= k <= |es|
        invariant forall i | k <= i < |es| :: Less(raw[n], es[i])
      {
        k := k - 1;
      }
      Insert(es, raw[n], k);
      InsertAt(es, raw[n], k);
      TakeNext(raw, n);
      es := es[..k] + [raw[n]] + es[k..];
    }
    assert raw[..|raw|] == raw;
  }

  lemma SortedEmpty<I, O>()
    ensures Sorted<I, O>([])
  {
  }

  lemma Insert<I, O>(es: seq<Entry<I, O>>, e: Entry<I, O>, k: nat)
    requires Sorted(es) && k <= |es|
    requires k > 0 ==> !Less(e, es[k - 1])
    requires forall i | k <= i < |es| :: Less(e, es[i])
    ensures Sorted(es[..k] + [e] + es[k..])
  {
  }

  /** The entries of a history of operations; ids are positions in the history. */
  method MakeEntries<I, O>(history: seq<Operation<I, O>>) returns (entries: seq<Entry<I, O>>)
    ensures SortedEntries(history, entries)
    ensures |entries| == 2 * |history| && forall id | 0 <= id < |history| :: HasBoth(history, entries, id)
    ensures TimesOrdered(history) ==> WellFormed(entries) && SameStructure(history, OpsOf(entries))
  {
    var raw: seq<Entry<I, O>> := [];
    for id := 0 to |history|
      invariant raw == Unsorted(history)[..2 * id]
    {
      var elem := history[id];
      raw := raw + [CallEntry(elem.input, id, elem.call, elem.clientId)];
      raw := raw + [ReturnEntry(elem.output, id, elem.ret, elem.clientId)];
    }
    entries := SortByTime(raw);
    assert Unsorted(history)[..2 * |history|] == Unsorted(history);
    HasAll(history, entries);
    if TimesOrdered(history) {
      SortedIsWellFormed(history, entries);
    }
  }

  /** The call and the return of operation `id`, each with its own value, time and client. */
  ghost predicate HasBoth<I, O>(ops: seq<Operation<I, O>>, es: seq<Entry<I, O>>, id: int)
    requires 0 <= id < |ops|
  {
    && CallEntry(ops[id].input, id, ops[id].call, ops[id].clientId) in es
    && ReturnEntry(ops[id].output, id, ops[id].ret, ops[id].clientId) in es
  }

  lemma HasAll<I, O>(ops: seq<Operation<I, O>>, es: seq<Entry<I, O>>)
    requires multiset(Unsorted(ops)) == multiset(es)
    ensures |es| == 2 * |ops| && forall id | 0 <= id < |ops| :: HasBoth(ops, es, id)
  {
    PermutationHolds(ops, es);
    hide Unsorted, Distinct;
  }
}
