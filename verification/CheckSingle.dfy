/** The search for a linearization of one history. */
module CheckSingle {
  import opened Wrappers
  import opened Linearizability
  import opened Entries
  import opened LinkedEntries
  import opened Search
  import opened Cursor
  import Bitset
  import Cache

  // ---- the list while the operations of `o` are taken out ----

  /** Node 0 is the head; node `k + 1` carries entry `k`, and a call points to its return. */
  ghost predicate NodesFor<I, O>(nodes: seq<Node<I, O>>, h: seq<Entry<I, O>>) {
    |nodes| == |h| + 1 && forall k | 0 <= k < |h| :: Carries(nodes, nodes[k + 1], h, h[k])
  }

  ghost predicate Carries<I, O>(nodes: seq<Node<I, O>>, n: Node<I, O>, h: seq<Entry<I, O>>, e: Entry<I, O>) {
    && n.id == e.id
    && n.value == ValueOf(e)
    && (e.ReturnEntry? ==> n.matching == null)
    && (e.CallEntry? ==> n.matching == At(nodes, Position(h, false, e.id) + 1))
  }

  lemma NodeAt<I, O>(nodes: seq<Node<I, O>>, h: seq<Entry<I, O>>, k: nat)
    requires NodesFor(nodes, h) && k < |h|
    ensures |nodes| == |h| + 1 && At(nodes, k + 1) == nodes[k + 1] && Carries(nodes, nodes[k + 1], h, h[k])
  {
    hide Carries;
  }

  /** Following `next` from the head or from an entry in the list. */
  lemma NextNode<I, O>(nodes: seq<Node<I, O>>, h: seq<Entry<I, O>>, o: seq<nat>, p: int)
    requires OrderOf(h, o) && |nodes| == |h| + 1 && ListInv(nodes, TrailOf(h, o))
    requires -1 <= p < |h| && (p == -1 || h[p].id !in o)
    ensures nodes[p + 1].next == At(nodes, NextEntry(h, o, p) + 1)
  {
    hide *;
    NextLinkInList(h, o, p);
    NextOf(nodes, TrailOf(h, o), p + 1);
  }

  /** A call and its return, in the history and in the list. */
  lemma CallAndReturn<I, O>(nodes: seq<Node<I, O>>, h: seq<Entry<I, O>>, x: nat)
    requires WellFormed(h) && NodesFor(nodes, h) && x < |h| / 2
    ensures var c, r := Position(h, true, x), Position(h, false, x);
      && |nodes| == |h| + 1 && 0 <= c < r < |h|
      && At(nodes, c + 1) == nodes[c + 1] && nodes[c + 1].matching == nodes[r + 1]
  {
    var c, r := Position(h, true, x), Position(h, false, x);
    assert h[c].CallEntry? && h[c].id == x;
    hide Position, WellFormed, NodesFor;
    NodeAt(nodes, h, c);
    NodeAt(nodes, h, r);
  }

  lemma PairOf<I, O>(nodes: seq<Node<I, O>>, h: seq<Entry<I, O>>, o: seq<nat>, x: nat, entry: Node<I, O>)
    requires OrderOf(h, o) && NodesFor(nodes, h) && x < |h| / 2 && x !in o && entry == At(nodes, Position(h, true, x) + 1)
    ensures var a, b := Position(h, true, x) + 1, Position(h, false, x) + 1;
      && |nodes| == |h| + 1 && a < b <= |h| && IsPair(nodes, TrailOf(h, o), entry, a, b)
      && TrailOf(h, o + [x]) == TrailOf(h, o) + [a] + [b]
      && OrderOf(h, o + [x])
  {
    hide *;
    OrderIsWellFormed(h, o);
    NotYetTakenOut(h, o, x);
    OrderAppend(h, o, x);
    CallAndReturn(nodes, h, x);
    MakePair(nodes, TrailOf(h, o), entry, Position(h, true, x) + 1, Position(h, false, x) + 1);
  }

  lemma OrderIsWellFormed<I, O>(h: seq<Entry<I, O>>, o: seq<nat>)
    requires OrderOf(h, o)
    ensures WellFormed(h)
  {
  }

  lemma MakePair<I, O>(nodes: seq<Node<I, O>>, trail: seq<int>, entry: Node<I, O>, a: int, b: int)
    requires 0 < a < b < |nodes| && a !in trail && b !in trail && entry == nodes[a] && entry.matching == nodes[b]
    ensures IsPair(nodes, trail, entry, a, b)
  {
  }

  // ---- one step at a call entry ----

  /** Applies the model to the operation at `entry`; if the model accepts and the configuration
      that follows is new, the configuration enters the cache.  */
  method TryCall<S(!new), I, O>(
    m: Model<S, I, O>, entry: Node<I, O>, state: S, linearized: array<Bitset.Word>, cache: Cache.Table<S>)
    returns (enter: bool, newState: S)
    requires entry.value.Input? && entry.matching != null && entry.matching.value.Output?
    requires 0 <= entry.id < 64 * linearized.Length && linearized.Length == cache.len && cache.Valid()
    modifies cache
    ensures cache.Valid() && fresh(cache.owned - old(cache.owned))
    ensures var r := m.step(state, entry.value.i, entry.matching.value.o);
      var c := Config(Bitset.Members(linearized[..]) + {entry.id}, r.1);
      && newState == r.1
      && (enter <==> r.0 && !Covered(m, old(cache.configs), c))
      && cache.configs == if enter then old(cache.configs) + {c} else old(cache.configs)
  {
    var matching := entry.matching;
    var r := m.step(state, entry.value.i, matching.value.o);
    newState := r.1;
    if r.0 {
      var newLinearized := Bitset.Clone(linearized);
      Bitset.Set(newLinearized, entry.id);
      var known := cache.Contains(m, newLinearized, newState);
      if !known {
        cache.Add(newLinearized, newState);
      }
      enter := !known;
    } else {
      enter := false;
    }
  }

  // ---- recording the longest orders ----

  datatype CallsEntry<S, I, O> = CallsEntry(entry: Node<I, O>, state: S)

  method IdsOf<S, I, O>(calls: seq<CallsEntry<S, I, O>>, ghost o: seq<nat>) returns (ids: seq<nat>)
    requires |calls| == |o| && forall i | 0 <= i < |o| :: calls[i].entry.id == o[i]
    ensures ids == o
  {
    ids := [];
    for i := 0 to |calls|
      invariant ids == o[..i]
    {
      ids := ids + [calls[i].entry.id];
    }
  }

  /** The record for `id` after a dead end with the order `o`. */
  function Better(was: Option<seq<nat>>, o: seq<nat>, id: nat): Option<seq<nat>> {
    if id in o && (was.None? || |was.value| < |o|) then Some(o) else was
  }

  method RecordLongest<S, I, O>(calls: seq<CallsEntry<S, I, O>>, longest: array<Option<seq<nat>>>, ghost o: seq<nat>)
    requires |calls| == |o| && Distinct(o) && forall i | 0 <= i < |o| :: calls[i].entry.id == o[i] < longest.Length
    modifies longest
    ensures forall id | 0 <= id < longest.Length :: longest[id] == Better(old(longest[id]), o, id)
  {
    var order := None;
    for k := 0 to |calls|
      invariant order == None || order == Some(o)
      invariant forall id | 0 <= id < longest.Length ::
        longest[id] == if id in o[..k] then Better(old(longest[id]), o, id) else old(longest[id])
    {
      var id := calls[k].entry.id;
      assert o[..k + 1] == o[..k] + [o[k]];
      if longest[id].None? || |calls| > |longest[id].value| {
        if order == None {
          var ids := IdsOf(calls, o);
          order := Some(ids);
        }
        longest[id] := order;
      }
    }
    assert o[..|o|] == o;
  }

  lemma RecordedAfterDeadEnd<S>(
    cache: set<Config<S>>, o: seq<nat>, stack: seq<Config<S>>,
    longest: seq<Option<seq<nat>>>, longest': seq<Option<seq<nat>>>)
    requires |stack| == |o| + 1 && stack[|o|].done == Elements(o) && |stack[|o|].done| == |o|
    requires |longest| == |longest'| && forall i | 0 <= i < |o| :: o[i] < |longest|
    requires Recorded(cache, stack, longest)
    requires forall id | 0 <= id < |longest| :: longest'[id] == Better(longest[id], o, id)
    ensures Recorded(cache, stack[..|o|], longest')
  {
    var last := stack[|o|];
    assert stack == stack[..|o|] + [last];
    forall c, id: nat | c in cache && c !in stack[..|o|] && id in c.done ensures HasRecord(longest', c, id) {
      if c == last {
        BetterForLast(o, id, longest, longest');
      } else {
        RecordedAt(cache, stack, longest, c, id);
        BetterForOther(o, c, id, longest, longest');
      }
    }
  }

  lemma BetterForOther<S>(o: seq<nat>, c: Config<S>, id: nat, longest: seq<Option<seq<nat>>>, longest': seq<Option<seq<nat>>>)
    requires |longest| == |longest'| && HasRecord(longest, c, id)
    requires forall id | 0 <= id < |longest| :: longest'[id] == Better(longest[id], o, id)
    ensures HasRecord(longest', c, id)
  {
  }

  lemma BetterForLast(o: seq<nat>, id: nat, longest: seq<Option<seq<nat>>>, longest': seq<Option<seq<nat>>>)
    requires id in o && |longest| == |longest'| && forall i | 0 <= i < |o| :: o[i] < |longest|
    requires forall id | 0 <= id < |longest| :: longest'[id] == Better(longest[id], o, id)
    ensures id < |longest'| && longest'[id].Some? && |o| <= |longest'[id].value|
  {
  }

  lemma RecordsStayValid<S, I, O>(
    m: Model<S, I, O>, ops: seq<Operation<I, O>>, o: seq<nat>, stack: seq<Config<S>>,
    longest: seq<Option<seq<nat>>>, longest': seq<Option<seq<nat>>>)
    requires Path(m, ops, o, stack) && |longest| == |longest'| == |ops|
    requires RecordsAreValid(m, ops, longest)
    requires forall id | 0 <= id < |ops| :: longest'[id] == Better(longest[id], o, id)
    ensures RecordsAreValid(m, ops, longest')
  {
    PathIsPartial(m, ops, o, stack);
  }

  // ---- the search ----

  ghost predicate CallsFor<S, I, O>(
    calls: seq<CallsEntry<S, I, O>>, nodes: seq<Node<I, O>>, h: seq<Entry<I, O>>, o: seq<nat>, stack: seq<Config<S>>)
  {
    && |calls| == |o| && |stack| == |o| + 1
    && forall i | 0 <= i < |o| ::
      calls[i].entry == At(nodes, Position(h, true, o[i]) + 1) && calls[i].entry.id == o[i] && calls[i].state == stack[i].state
  }

  /** Takes a pair out and goes back to the front of the list, at position `q`. */
  method Advance<I, O>(
    entry: Node<I, O>, head: Node<I, O>, ghost nodes: seq<Node<I, O>>, ghost trail: seq<int>, ghost a: int, ghost b: int, ghost q: int)
    returns (next: Node?<I, O>)
    requires ListInv(nodes, trail) && IsPair(nodes, trail, entry, a, b) && head == nodes[0]
    requires NextLinks(|nodes|, trail + [a] + [b])[0] == q
    modifies nodes
    ensures ListInv(nodes, trail + [a] + [b])
    ensures next == At(nodes, q)
  {
    Lift(entry, nodes, trail, a, b);
    next := head.next;
  }

  /** Puts a pair back and goes on after its call, at position `q`. */
  method Retreat<I, O>(
    entry: Node<I, O>, ghost nodes: seq<Node<I, O>>, ghost trail: seq<int>, ghost a: int, ghost b: int, ghost q: int)
    returns (next: Node?<I, O>)
    requires ListInv(nodes, trail + [a] + [b]) && IsPair(nodes, trail, entry, a, b)
    requires NextLinks(|nodes|, trail)[a] == q
    modifies nodes
    ensures ListInv(nodes, trail)
    ensures next == At(nodes, q)
  {
    Unlift(entry, nodes, trail, a, b);
    next := entry.next;
  }

  lemma ElementsAppend(o: seq<nat>, x: nat)
    requires x !in o
    ensures Elements(o + [x]) == Elements(o) + {x} && Elements(o) == Elements(o + [x]) - {x}
  {
  }

  /** Orders `x` next: its entries leave the list and its bit is set.  The cursor goes to the front. */
  method Enter<I, O>(
    entry: Node<I, O>, head: Node<I, O>, linearized: array<Bitset.Word>,
    ghost nodes: seq<Node<I, O>>, ghost h: seq<Entry<I, O>>, ghost o: seq<nat>, ghost x: nat)
    returns (next: Node?<I, O>)
    requires OrderOf(h, o) && NodesFor(nodes, h) && ListInv(nodes, TrailOf(h, o)) && head == nodes[0]
    requires x < |h| / 2 && x !in o && entry == At(nodes, Position(h, true, x) + 1) && entry.id == x
    requires Bitset.Members(linearized[..]) == Elements(o) && x < 64 * linearized.Length
    modifies nodes, linearized
    ensures ListInv(nodes, TrailOf(h, o + [x]))
    ensures Bitset.Members(linearized[..]) == Elements(o + [x])
    ensures next == At(nodes, NextEntry(h, o + [x], -1) + 1)
  {
    hide *;
    PairOf(nodes, h, o, x, entry);
    NextLinkInList(h, o + [x], -1);
    ElementsAppend(o, x);
    Bitset.Set(linearized, entry.id);
    next := Advance(entry, head, nodes, TrailOf(h, o), Position(h, true, x) + 1, Position(h, false, x) + 1, NextEntry(h, o + [x], -1) + 1);
  }

  /** Takes back the last operation `x`.  The cursor goes on after its call. */
  method Leave<I, O>(
    entry: Node<I, O>, linearized: array<Bitset.Word>,
    ghost nodes: seq<Node<I, O>>, ghost h: seq<Entry<I, O>>, ghost o: seq<nat>, ghost x: nat)
    returns (next: Node?<I, O>)
    requires OrderOf(h, o) && NodesFor(nodes, h) && ListInv(nodes, TrailOf(h, o + [x]))
    requires x < |h| / 2 && x !in o && entry == At(nodes, Position(h, true, x) + 1) && entry.id == x
    requires Bitset.Members(linearized[..]) == Elements(o + [x]) && x < 64 * linearized.Length
    modifies nodes, linearized
    ensures ListInv(nodes, TrailOf(h, o))
    ensures Bitset.Members(linearized[..]) == Elements(o)
    ensures next == At(nodes, NextEntry(h, o, Position(h, true, x)) + 1)
  {
    hide *;
    PairOf(nodes, h, o, x, entry);
    NextLinkInList(h, o, Position(h, true, x));
    ElementsAppend(o, x);
    Bitset.Clear(linearized, entry.id);
    next := Retreat(entry, nodes, TrailOf(h, o), Position(h, true, x) + 1, Position(h, false, x) + 1, NextEntry(h, o, Position(h, true, x)) + 1);
  }

  /** The order built so far, its configurations, and the cursor position. */
  datatype Walk<+S> = Walk(o: seq<nat>, stack: seq<Config<S>>, p: int)

  ghost predicate State<S(!new), I, O>(
    m: Model<S, I, O>, h: seq<Entry<I, O>>, nodes: seq<Node<I, O>>, w: Walk<S>, entry: Node?<I, O>, state: S,
    calls: seq<CallsEntry<S, I, O>>, linearized: array<Bitset.Word>, cache: Cache.Table<S>)
    requires WellFormed(h)
    reads nodes, linearized, cache, cache.owned
  {
    && NodesFor(nodes, h) && ListInv(nodes, TrailOf(h, w.o)) && entry == At(nodes, w.p + 1)
    && SearchInv(m, h, cache.configs, w.o, w.stack, w.p)
    && CallsFor(calls, nodes, h, w.o, w.stack) && state == w.stack[|w.o|].state
    && Bitset.Members(linearized[..]) == Elements(w.o)
    && linearized.Length == cache.len && |h| / 2 <= 64 * cache.len
    && cache.Valid() && linearized !in cache.owned
  }

  /** What the node under the cursor says about the history. */
  lemma CursorNode<I, O>(h: seq<Entry<I, O>>, nodes: seq<Node<I, O>>, o: seq<nat>, p: int, entry: Node<I, O>)
    requires WellFormed(h) && CursorAt(h, o, p)
    requires NodesFor(nodes, h) && entry == At(nodes, p + 1)
    ensures 0 <= p < |h| && |nodes| == |h| + 1 && entry == nodes[p + 1]
    ensures entry.matching == null <==> h[p].ReturnEntry?
    ensures 0 <= entry.id == h[p].id < |h| / 2 == |OpsOf(h)| && entry.id !in o && Position(h, h[p].CallEntry?, entry.id) == p
    ensures h[p].CallEntry? ==> entry.value == Input(OpsOf(h)[entry.id].input) && entry.matching.value == Output(OpsOf(h)[entry.id].output)
  {
    NodeAt(nodes, h, p);
    if h[p].CallEntry? {
      NodeAt(nodes, h, Position(h, false, h[p].id));
    }
    hide NodesFor;
  }

  lemma CallsPush<S, I, O>(
    calls: seq<CallsEntry<S, I, O>>, nodes: seq<Node<I, O>>, h: seq<Entry<I, O>>, o: seq<nat>, stack: seq<Config<S>>,
    entry: Node<I, O>, x: nat, c: Config<S>)
    requires CallsFor(calls, nodes, h, o, stack) && entry == At(nodes, Position(h, true, x) + 1) && entry.id == x
    ensures CallsFor(calls + [CallsEntry(entry, stack[|o|].state)], nodes, h, o + [x], stack + [c])
  {
    hide Position, At;
    var calls', o', stack' := calls + [CallsEntry(entry, stack[|o|].state)], o + [x], stack + [c];
    forall i | 0 <= i < |o'| ensures
      calls'[i].entry == At(nodes, Position(h, true, o'[i]) + 1) && calls'[i].entry.id == o'[i] && calls'[i].state == stack'[i].state
    {
      if i < |o| {
        assert calls'[i] == calls[i] && o'[i] == o[i] && stack'[i] == stack[i];
      }
    }
  }

  lemma SearchFacts<S(!new), I, O>(
    m: Model<S, I, O>, h: seq<Entry<I, O>>, cache: set<Config<S>>, o: seq<nat>, stack: seq<Config<S>>, p: int)
    requires WellFormed(h) && SearchInv(m, h, cache, o, stack, p)
    ensures OrderOf(h, o) && |o| <= |h| / 2 && |stack| == |o| + 1 && stack[|o|].done == Elements(o)
    ensures Path(m, OpsOf(h), o, stack) && Distinct(o) && |stack[|o|].done| == |o|
    ensures |o| < |h| / 2 ==> CursorAt(h, o, p)
  {
    OrderOnPath(m, h, o, stack);
  }

  lemma StateParts<S(!new), I, O>(
    m: Model<S, I, O>, h: seq<Entry<I, O>>, nodes: seq<Node<I, O>>, w: Walk<S>, entry: Node?<I, O>, state: S,
    calls: seq<CallsEntry<S, I, O>>, linearized: array<Bitset.Word>, cache: Cache.Table<S>)
    requires WellFormed(h) && State(m, h, nodes, w, entry, state, calls, linearized, cache)
    ensures NodesFor(nodes, h) && ListInv(nodes, TrailOf(h, w.o)) && SearchInv(m, h, cache.configs, w.o, w.stack, w.p)
    ensures CallsFor(calls, nodes, h, w.o, w.stack) && |w.stack| == |w.o| + 1 && state == w.stack[|w.o|].state
    ensures Bitset.Members(linearized[..]) == Elements(w.o)
    ensures linearized.Length == cache.len && |h| / 2 <= 64 * cache.len && cache.Valid() && linearized !in cache.owned
    ensures entry == At(nodes, w.p + 1) && |nodes| == |h| + 1
  {
    hide SearchInv, ListInv, WellFormed, Cache.Table.Valid;
  }

  lemma OpenState<S(!new), I, O>(
    m: Model<S, I, O>, h: seq<Entry<I, O>>, nodes: seq<Node<I, O>>, w: Walk<S>, entry: Node<I, O>, state: S,
    calls: seq<CallsEntry<S, I, O>>, linearized: array<Bitset.Word>, cache: Cache.Table<S>)
    requires WellFormed(h) && |w.o| < |h| / 2 && State(m, h, nodes, w, entry, state, calls, linearized, cache)
    ensures NodesFor(nodes, h) && ListInv(nodes, TrailOf(h, w.o)) && SearchInv(m, h, cache.configs, w.o, w.stack, w.p)
    ensures CallsFor(calls, nodes, h, w.o, w.stack) && |w.stack| == |w.o| + 1 && state == w.stack[|w.o|].state
    ensures Bitset.Members(linearized[..]) == Elements(w.o) == w.stack[|w.o|].done
    ensures linearized.Length == cache.len && |h| / 2 <= 64 * cache.len && cache.Valid() && linearized !in cache.owned
    ensures OrderOf(h, w.o) && 0 <= w.p < |h| && |nodes| == |h| + 1 && entry == At(nodes, w.p + 1) == nodes[w.p + 1]
    ensures entry.matching == null <==> h[w.p].ReturnEntry?
    ensures 0 <= entry.id == h[w.p].id < |h| / 2 == |OpsOf(h)| && entry.id !in w.o
    ensures h[w.p].CallEntry? ==>
      && Position(h, true, entry.id) == w.p
      && entry.value == Input(OpsOf(h)[entry.id].input) && entry.matching.value == Output(OpsOf(h)[entry.id].output)
  {
    hide *;
    StateParts(m, h, nodes, w, entry, state, calls, linearized, cache);
    SearchFacts(m, h, cache.configs, w.o, w.stack, w.p);
    CursorNode(h, nodes, w.o, w.p, entry);
  }

  lemma CloseState<S(!new), I, O>(
    m: Model<S, I, O>, h: seq<Entry<I, O>>, nodes: seq<Node<I, O>>, w: Walk<S>, entry: Node?<I, O>, state: S,
    calls: seq<CallsEntry<S, I, O>>, linearized: array<Bitset.Word>, cache: Cache.Table<S>)
    requires WellFormed(h)
    requires NodesFor(nodes, h) && ListInv(nodes, TrailOf(h, w.o)) && entry == At(nodes, w.p + 1)
    requires SearchInv(m, h, cache.configs, w.o, w.stack, w.p)
    requires CallsFor(calls, nodes, h, w.o, w.stack) && |w.stack| == |w.o| + 1 && state == w.stack[|w.o|].state
    requires Bitset.Members(linearized[..]) == Elements(w.o)
    requires linearized.Length == cache.len && |h| / 2 <= 64 * cache.len && cache.Valid() && linearized !in cache.owned
    ensures State(m, h, nodes, w, entry, state, calls, linearized, cache)
  {
  }

  /** A step at a call either enters a new configuration or only moves the cursor. */
  ghost predicate CallStep<S>(cache: set<Config<S>>, w: Walk<S>, cache': set<Config<S>>, w': Walk<S>) {
    || (cache' == cache && w'.o == w.o && w'.stack == w.stack && w.p < w'.p)
    || (|w'.stack| == |w.stack| + 1 && w'.stack[..|w.stack|] == w.stack &&
        w'.stack[|w.stack|] !in cache && cache' == cache + {w'.stack[|w.stack|]})
  }

  lemma PushIsCallStep<S>(cache: set<Config<S>>, w: Walk<S>, c: Config<S>, o: seq<nat>, p: int)
    requires c !in cache
    ensures CallStep(cache, w, cache + {c}, Walk(o, w.stack + [c], p))
  {
  }

  lemma SkipIsCallStep<S>(cache: set<Config<S>>, w: Walk<S>, p: int)
    requires w.p < p
    ensures CallStep(cache, w, cache, Walk(w.o, w.stack, p))
  {
  }

  method StepCall<S(!new), I(!new), O(!new)>(
    m: Model<S, I, O>, ghost h: seq<Entry<I, O>>, ghost nodes: seq<Node<I, O>>, ghost w: Walk<S>,
    head: Node<I, O>, entry: Node<I, O>, state: S,
    calls: seq<CallsEntry<S, I, O>>, linearized: array<Bitset.Word>, cache: Cache.Table<S>)
    returns (entry': Node?<I, O>, state': S, calls': seq<CallsEntry<S, I, O>>, ghost w': Walk<S>)
    requires EqualRespectsStep(m) && WellFormed(h) && |w.o| < |h| / 2
    requires State(m, h, nodes, w, entry, state, calls, linearized, cache) && |nodes| > 0 && head == nodes[0]
    requires entry.matching != null
    modifies nodes, linearized, cache
    ensures State(m, h, nodes, w', entry', state', calls', linearized, cache)
    ensures CallStep(old(cache.configs), w, cache.configs, w') && Path(m, OpsOf(h), w'.o, w'.stack)
  {
    hide *;
    OpenState(m, h, nodes, w, entry, state, calls, linearized, cache);
    ghost var x: nat := entry.id;
    var enter, newState := TryCall(m, entry, state, linearized, cache);
    StepOf(m, OpsOf(h), w.stack[|w.o|], x);
    if enter {
      ghost var c := Successor(m, OpsOf(h), w.stack[|w.o|], x);
      PushSearch(m, h, old(cache.configs), w.o, w.stack, w.p, x);
      CallsPush(calls, nodes, h, w.o, w.stack, entry, x, c);
      calls' := calls + [CallsEntry(entry, state)];
      state' := newState;
      entry' := Enter(entry, head, linearized, nodes, h, w.o, x);
      w' := Walk(w.o + [x], w.stack + [c], NextEntry(h, w.o + [x], -1));
      PushIsCallStep(old(cache.configs), w, c, w'.o, w'.p);
    } else {
      calls', state' := calls, state;
      SkipSearch(m, h, cache.configs, w.o, w.stack, w.p);
      NextNode(nodes, h, w.o, w.p);
      entry' := entry.next;
      w' := Walk(w.o, w.stack, NextEntry(h, w.o, w.p));
      SkipIsCallStep(cache.configs, w, w'.p);
    }
    SearchFacts(m, h, cache.configs, w'.o, w'.stack, w'.p);
    CloseState(m, h, nodes, w', entry', state', calls', linearized, cache);
  }

  lemma StepOf<S, I, O>(m: Model<S, I, O>, ops: seq<Operation<I, O>>, c: Config<S>, x: nat)
    requires x < |ops|
    ensures Accepts(m, ops, c, x) == m.step(c.state, ops[x].input, ops[x].output).0
    ensures Successor(m, ops, c, x) == Config(c.done + {x}, m.step(c.state, ops[x].input, ops[x].output).1)
  {
  }

  lemma LastOf<I, O>(h: seq<Entry<I, O>>, o: seq<nat>)
    requires OrderOf(h, o) && o != []
    ensures var k := |o| - 1; o == o[..k] + [o[k]] && o[k] !in o[..k] && o[k] < |h| / 2
  {
  }

  lemma CallsPop<S, I, O>(
    calls: seq<CallsEntry<S, I, O>>, nodes: seq<Node<I, O>>, h: seq<Entry<I, O>>, o: seq<nat>, stack: seq<Config<S>>)
    requires CallsFor(calls, nodes, h, o, stack) && calls != []
    ensures var k := |o| - 1;
      && |calls| == |o| && |stack| == |o| + 1
      && calls[k].entry == At(nodes, Position(h, true, o[k]) + 1) && calls[k].entry.id == o[k] && calls[k].state == stack[k].state
      && CallsFor(calls[..k], nodes, h, o[..k], stack[..|o|])
  {
    hide Position, At;
  }

  method StepReturn<S(!new), I(!new), O(!new)>(
    ghost m: Model<S, I, O>, ghost h: seq<Entry<I, O>>, ghost nodes: seq<Node<I, O>>, ghost w: Walk<S>,
    entry: Node<I, O>, state: S, calls: seq<CallsEntry<S, I, O>>, linearized: array<Bitset.Word>, ghost cache: Cache.Table<S>)
    returns (entry': Node?<I, O>, state': S, calls': seq<CallsEntry<S, I, O>>, ghost w': Walk<S>)
    requires EqualRespectsStep(m) && WellFormed(h) && |w.o| < |h| / 2
    requires State(m, h, nodes, w, entry, state, calls, linearized, cache)
    requires entry.matching == null && calls != []
    modifies nodes, linearized
    ensures State(m, h, nodes, w', entry', state', calls', linearized, cache)
    ensures 0 < |w.o| == |w'.o| + 1 && |w.stack| == |w.o| + 1 && w'.stack == w.stack[..|w.o|]
  {
    hide *;
    OpenState(m, h, nodes, w, entry, state, calls, linearized, cache);
    ghost var k := |w.o| - 1;
    CallsPop(calls, nodes, h, w.o, w.stack);
    LastOf(h, w.o);
    PopSearch(m, h, cache.configs, w.o, w.stack, w.p);
    var callsTop := calls[|calls| - 1];
    state' := callsTop.state;
    calls' := calls[..|calls| - 1];
    ghost var x := w.o[k];
    entry' := Leave(callsTop.entry, linearized, nodes, h, w.o[..k], x);
    w' := Walk(w.o[..k], w.stack[..|w.o|], NextEntry(h, w.o[..k], Position(h, true, x)));
    CloseState(m, h, nodes, w', entry', state', calls', linearized, cache);
  }

  // ---- setting up ----

  lemma ChainIsList<I, O>(nodes: seq<Node<I, O>>)
    requires Chained(nodes) && nodes != []
    ensures ListInv(nodes, [])
  {
    var nx, pv := NextLinks(|nodes|, []), PrevLinks(|nodes|, []);
    assert Elements<int>([]) == {};
    assert forall p | 0 <= p < |nodes| :: nx[p] == p + 1 && pv[p] == p - 1;
  }

  lemma {:induction false} MatchIsReturn<I, O>(h: seq<Entry<I, O>>, k: nat)
    requires WellFormed(h) && k < |h| && h[k].CallEntry?
    ensures k + Position(h[k..], false, h[k].id) == Position(h, false, h[k].id)
  {
    var id := h[k].id;
    var q, r := k + Position(h[k..], false, id), Position(h, false, id);
    assert r > k && h[r] == h[k..][r - k];
    assert q <= r;
    assert h[q] == h[k..][q - k];
  }

  lemma HeadedNodes<I, O>(head: Node<I, O>, body: seq<Node<I, O>>, h: seq<Entry<I, O>>)
    requires WellFormed(h) && |body| == |h| && forall k | 0 <= k < |h| :: NodeFor(body, h, k)
    ensures NodesFor([head] + body, h)
  {
    hide WellFormed, NodeFor, Carries;
    var nodes := [head] + body;
    forall k | 0 <= k < |h| ensures Carries(nodes, nodes[k + 1], h, h[k]) {
      assert nodes[k + 1] == body[k];
      HeadedNode(head, body, h, k);
    }
  }

  lemma HeadedNode<I, O>(head: Node<I, O>, body: seq<Node<I, O>>, h: seq<Entry<I, O>>, k: nat)
    requires WellFormed(h) && k < |h| == |body| && NodeFor(body, h, k)
    ensures Carries([head] + body, body[k], h, h[k])
  {
    hide WellFormed, Position;
    if h[k].CallEntry? {
      MatchIsReturn(h, k);
    }
  }

  method Setup<I, O>(h: seq<Entry<I, O>>) returns (head: Node<I, O>, entry: Node?<I, O>, n: nat, ghost nodes: seq<Node<I, O>>)
    requires WellFormed(h)
    ensures n == |h| / 2 && |nodes| == |h| + 1 && head == nodes[0] && entry == At(nodes, 1)
    ensures NodesFor(nodes, h) && ListInv(nodes, []) && forall k | 0 <= k < |nodes| :: fresh(nodes[k])
  {
    ghost var body;
    entry, body := MakeLinkedEntries(h);
    var len := Length(entry, body);
    n := len / 2;
    head := Prepend(Nil, null, -1, entry, body);
    nodes := [head] + body;
    ChainIsList(nodes);
    HeadedNodes(head, body, h);
  }

  // ---- the result ----

  /** What a run of the search says about a history.  `killed` tells whether the run saw the kill
      flag set; `order` is the linearization found.  */
  ghost predicate Outcome<S, I, O>(
    m: Model<S, I, O>, h: seq<Entry<I, O>>, computePartial: bool,
    ok: bool, longest: seq<Option<seq<nat>>>, killed: bool, order: seq<nat>)
    requires WellFormed(h)
  {
    var ops := OpsOf(h);
    && |longest| == |ops|
    && RecordsAreValid(m, ops, longest)
    && (ok ==> !killed && Linearization(m, ops, order) && forall id | 0 <= id < |ops| :: longest[id] == Some(order))
    && (!ok && !killed ==> !Linearizable(m, ops))
    && (!ok && !killed && computePartial ==> forall id | 0 <= id < |ops| :: IsLongestFor(m, ops, id, longest[id]))
  }

  lemma StartState<S(!new), I, O>(
    m: Model<S, I, O>, h: seq<Entry<I, O>>, nodes: seq<Node<I, O>>, entry: Node?<I, O>, linearized: array<Bitset.Word>, cache: Cache.Table<S>)
    returns (w: Walk<S>)
    requires WellFormed(h) && NodesFor(nodes, h) && ListInv(nodes, []) && entry == At(nodes, 1)
    requires Bitset.Members(linearized[..]) == {} && linearized.Length == cache.len && |h| / 2 <= 64 * cache.len
    requires cache.Valid() && cache.owned == {} && cache.configs == {}
    ensures State(m, h, nodes, w, entry, m.init, [], linearized, cache)
    ensures w == Walk([], [Config({}, m.init)], 0)
  {
    hide SearchInv, ListInv, WellFormed, Cache.Table.Valid, Bitset.Members, NodesFor;
    w := Walk([], [Config({}, m.init)], 0);
    StartSearch(m, h);
    assert Elements<nat>([]) == {};
  }

  lemma ListEmpty<I, O>(h: seq<Entry<I, O>>, nodes: seq<Node<I, O>>, o: seq<nat>)
    requires OrderOf(h, o) && |nodes| == |h| + 1 && ListInv(nodes, TrailOf(h, o))
    ensures nodes[0].next == null <==> |o| == |h| / 2
  {
    hide *;
    OrderIsWellFormed(h, o);
    FirstEntry(h, o);
    NextNode(nodes, h, o, -1);
    var p := NextEntry(h, o, -1);
    if p < |h| {
      CursorIsNode(h, nodes, o, p, At(nodes, p + 1));
    } else {
      PastTheEnd(nodes, p + 1);
    }
  }

  lemma PastTheEnd<I, O>(nodes: seq<Node<I, O>>, p: int)
    requires p >= |nodes|
    ensures At(nodes, p) == null
  {
  }

  lemma CallsHaveIds<S, I, O>(
    calls: seq<CallsEntry<S, I, O>>, nodes: seq<Node<I, O>>, h: seq<Entry<I, O>>, o: seq<nat>, stack: seq<Config<S>>)
    requires CallsFor(calls, nodes, h, o, stack) && OrderOf(h, o)
    ensures |calls| == |o| && forall i | 0 <= i < |o| :: calls[i].entry.id == o[i] < |h| / 2
  {
    hide WellFormed;
  }

  /** What the loop reads off its state. */
  lemma LoopFacts<S(!new), I, O>(
    m: Model<S, I, O>, h: seq<Entry<I, O>>, nodes: seq<Node<I, O>>, w: Walk<S>, entry: Node?<I, O>, state: S,
    calls: seq<CallsEntry<S, I, O>>, linearized: array<Bitset.Word>, cache: Cache.Table<S>)
    requires WellFormed(h) && State(m, h, nodes, w, entry, state, calls, linearized, cache)
    ensures |nodes| == |h| + 1 && (nodes[0].next == null <==> |w.o| == |h| / 2)
    ensures SearchInv(m, h, cache.configs, w.o, w.stack, w.p) && Path(m, OpsOf(h), w.o, w.stack)
    ensures |w.o| <= |h| / 2 && Distinct(w.o) && |w.stack| == |w.o| + 1 == |calls| + 1
    ensures w.stack[|w.o|].done == Elements(w.o) && |w.stack[|w.o|].done| == |w.o|
    ensures forall i | 0 <= i < |w.o| :: calls[i].entry.id == w.o[i] < |h| / 2
    ensures |w.o| < |h| / 2 ==>
      && entry != null && 0 <= w.p < |h| && CursorAt(h, w.o, w.p)
      && (entry.matching == null <==> h[w.p].ReturnEntry?)
  {
    hide *;
    StateParts(m, h, nodes, w, entry, state, calls, linearized, cache);
    SearchFacts(m, h, cache.configs, w.o, w.stack, w.p);
    ListEmpty(h, nodes, w.o);
    CallsHaveIds(calls, nodes, h, w.o, w.stack);
    if |w.o| < |h| / 2 {
      CursorIsNode(h, nodes, w.o, w.p, entry);
      CursorNode(h, nodes, w.o, w.p, entry);
    }
  }

  lemma CursorIsNode<I, O>(h: seq<Entry<I, O>>, nodes: seq<Node<I, O>>, o: seq<nat>, p: int, entry: Node?<I, O>)
    requires CursorAt(h, o, p) && |nodes| == |h| + 1 && entry == At(nodes, p + 1)
    ensures entry != null
  {
  }

  lemma OrderFound<S, I, O>(m: Model<S, I, O>, h: seq<Entry<I, O>>, o: seq<nat>, stack: seq<Config<S>>)
    requires WellFormed(h) && Path(m, OpsOf(h), o, stack) && |o| == |h| / 2
    ensures Linearization(m, OpsOf(h), o)
  {
    OpsHavePositions(h);
    PathIsPartial(m, OpsOf(h), o, stack);
    FullPartialIsLinearization(m, OpsOf(h), o);
  }

  lemma OrderIsValidRecord<S, I, O>(m: Model<S, I, O>, h: seq<Entry<I, O>>, o: seq<nat>, longest: seq<Option<seq<nat>>>)
    requires WellFormed(h) && Linearization(m, OpsOf(h), o)
    requires |longest| == |h| / 2 && forall id | 0 <= id < |longest| :: longest[id] == Some(o)
    ensures RecordsAreValid(m, OpsOf(h), longest)
  {
    OpsHavePositions(h);
    FullPartialIsLinearization(m, OpsOf(h), o);
    PartialIsDistinct(m, OpsOf(h), o);
  }

  /** The cursor met a return with nothing ordered: the search is over. */
  lemma NothingFound<S(!new), I(!new), O(!new)>(
    m: Model<S, I, O>, h: seq<Entry<I, O>>, cache: set<Config<S>>, stack: seq<Config<S>>, p: int)
    requires EqualRespectsStep(m) && WellFormed(h) && SearchInv(m, h, cache, [], stack, p)
    requires 0 < |h| && CursorAt(h, [], p) && h[p].ReturnEntry?
    ensures !Linearizable(m, OpsOf(h))
    ensures forall longest, id: nat |
      Recorded(cache, stack, longest) && RecordsAreValid(m, OpsOf(h), longest) && |longest| == |h| / 2 && id < |longest| ::
      IsLongestFor(m, OpsOf(h), id, longest[id])
  {
    OpsHavePositions(h);
    ReturnEndsFrame(h, [], p);
    assert Elements<nat>([]) == {};
    ExhaustedMeansNotLinearizable(m, OpsOf(h), cache, stack, p);
    forall longest, id: nat |
      Recorded(cache, stack, longest) && RecordsAreValid(m, OpsOf(h), longest) && |longest| == |h| / 2 && id < |longest|
      ensures IsLongestFor(m, OpsOf(h), id, longest[id])
    {
      ExhaustedMeansLongest(m, OpsOf(h), cache, stack, p, longest, id);
    }
  }

  lemma PushBookkeeping<S>(
    cache: set<Config<S>>, cache': set<Config<S>>, all: set<Config<S>>, stack: seq<Config<S>>, stack': seq<Config<S>>, longest: seq<Option<seq<nat>>>)
    requires |stack'| == |stack| + 1 && stack'[..|stack|] == stack
    requires var c := stack'[|stack|]; c in all && c !in cache && cache' == cache + {c}
    requires cache <= all
    ensures cache' <= all && |all - cache'| < |all - cache|
    ensures Recorded(cache, stack, longest) ==> Recorded(cache', stack', longest)
  {
    var c := stack'[|stack|];
    assert all - cache == (all - cache') + {c};
    assert stack' == stack + [c];
  }

  lemma OutcomeFound<S, I, O>(
    m: Model<S, I, O>, h: seq<Entry<I, O>>, computePartial: bool, longest: seq<Option<seq<nat>>>, o: seq<nat>, stack: seq<Config<S>>)
    requires WellFormed(h) && Path(m, OpsOf(h), o, stack) && |o| == |h| / 2 == |longest|
    requires forall id | 0 <= id < |longest| :: longest[id] == Some(o)
    ensures Outcome(m, h, computePartial, true, longest, false, o)
  {
    OrderFound(m, h, o, stack);
    OrderIsValidRecord(m, h, o, longest);
  }

  lemma OutcomeKilled<S, I, O>(m: Model<S, I, O>, h: seq<Entry<I, O>>, computePartial: bool, longest: seq<Option<seq<nat>>>)
    requires WellFormed(h) && |longest| == |h| / 2 && RecordsAreValid(m, OpsOf(h), longest)
    ensures Outcome(m, h, computePartial, false, longest, true, [])
  {
  }

  lemma OutcomeExhausted<S(!new), I(!new), O(!new)>(
    m: Model<S, I, O>, h: seq<Entry<I, O>>, computePartial: bool, longest: seq<Option<seq<nat>>>,
    cache: set<Config<S>>, stack: seq<Config<S>>, p: int)
    requires EqualRespectsStep(m) && WellFormed(h) && SearchInv(m, h, cache, [], stack, p)
    requires 0 < |h| && CursorAt(h, [], p) && h[p].ReturnEntry?
    requires |longest| == |h| / 2 && RecordsAreValid(m, OpsOf(h), longest) && (computePartial ==> Recorded(cache, stack, longest))
    ensures Outcome(m, h, computePartial, false, longest, false, [])
  {
    hide SearchInv, IsLongestFor, Recorded, EqualRespectsStep, WellFormed;
    NothingFound(m, h, cache, stack, p);
  }

  // ---- pruning, at every iteration ----

  lemma SomethingMissing(done: set<nat>, n: nat)
    requires |done| < n
    ensures exists x: nat :: x < n && x !in done
  {
    if forall x: nat | x < n :: x in done {
      SupersetOfRange(done, n);
    }
  }

  /** Whenever the loop goes on, a cached configuration is the one after some prefix of the calls stack, or
      no order of the remaining operations completes it.  */
  lemma PrunedHasNoCompletion<S(!new), I(!new), O(!new)>(
    m: Model<S, I, O>, h: seq<Entry<I, O>>, nodes: seq<Node<I, O>>, w: Walk<S>, entry: Node?<I, O>, state: S,
    calls: seq<CallsEntry<S, I, O>>, linearized: array<Bitset.Word>, cache: Cache.Table<S>, c: Config<S>, r: seq<nat>)
    requires EqualRespectsStep(m) && WellFormed(h) && State(m, h, nodes, w, entry, state, calls, linearized, cache)
    requires nodes[0].next != null && c in cache.configs
    ensures Path(m, OpsOf(h), w.o, w.stack) && (c in w.stack || !Completes(m, OpsOf(h), c, r))
  {
    hide *;
    LoopFacts(m, h, nodes, w, entry, state, calls, linearized, cache);
    if c !in w.stack {
      PrunedBySearch(m, h, cache.configs, w.o, w.stack, w.p, c, r);
    }
  }

  lemma PrunedBySearch<S(!new), I(!new), O(!new)>(
    m: Model<S, I, O>, h: seq<Entry<I, O>>, cache: set<Config<S>>, o: seq<nat>, stack: seq<Config<S>>, p: int, c: Config<S>, r: seq<nat>)
    requires EqualRespectsStep(m) && WellFormed(h) && SearchInv(m, h, cache, o, stack, p) && |o| < |h| / 2
    requires c in cache && c !in stack
    ensures !Completes(m, OpsOf(h), c, r)
  {
    hide WalkInv, WellFormed, EqualRespectsStep, Completes, CursorAt;
    forall d | d in cache ensures exists x: nat :: x < |OpsOf(h)| && x !in d.done {
      SomethingMissing(d.done, |OpsOf(h)|);
    }
    FinishedHasNoCompletion(m, OpsOf(h), cache, o, stack, p, c, r);
  }

  // ---- an outcome exists for every history ----

  /** Among the partial linearizations with `id` there is a longest, if there is any. */
  lemma {:induction false} LongestWithin<S(!new), I(!new), O(!new)>(
    m: Model<S, I, O>, ops: seq<Operation<I, O>>, id: nat, bound: nat) returns (longest: Option<seq<nat>>)
    requires forall q | PartialLinearization(m, ops, q) && id in q :: |q| <= bound
    ensures IsLongestFor(m, ops, id, longest)
    decreases bound
  {
    hide PartialLinearization;
    if q :| PartialLinearization(m, ops, q) && id in q && |q| == bound {
      longest := Some(q);
    } else if bound > 0 {
      longest := LongestWithin(m, ops, id, bound - 1);
    } else {
      longest := None;
    }
  }

  lemma LongestExists<S(!new), I(!new), O(!new)>(m: Model<S, I, O>, ops: seq<Operation<I, O>>, id: nat) returns (longest: Option<seq<nat>>)
    ensures IsLongestFor(m, ops, id, longest)
  {
    forall q | PartialLinearization(m, ops, q) && id in q ensures |q| <= |ops| {
      PartialIsDistinct(m, ops, q);
    }
    longest := LongestWithin(m, ops, id, |ops|);
  }

  lemma {:induction false} RecordsExist<S(!new), I(!new), O(!new)>(m: Model<S, I, O>, ops: seq<Operation<I, O>>, n: nat)
    returns (longest: seq<Option<seq<nat>>>)
    ensures |longest| == n && forall id: nat | id < n :: IsLongestFor(m, ops, id, longest[id])
  {
    hide IsLongestFor;
    if n == 0 {
      longest := [];
    } else {
      var rest := RecordsExist(m, ops, n - 1);
      var last := LongestExists(m, ops, n - 1);
      longest := rest + [last];
    }
  }

  /** Whatever the history, a run that sees no kill has something to return. */
  lemma OutcomeExists<S(!new), I(!new), O(!new)>(m: Model<S, I, O>, h: seq<Entry<I, O>>, computePartial: bool)
    returns (ok: bool, longest: seq<Option<seq<nat>>>, order: seq<nat>)
    requires WellFormed(h)
    ensures Outcome(m, h, computePartial, ok, longest, false, order)
  {
    hide WellFormed, Linearization, PartialLinearization;
    var ops := OpsOf(h);
    if order' :| Linearization(m, ops, order') {
      ok, order := true, order';
      longest := seq(|ops|, _ => Some(order'));
      OrderIsValidRecord(m, h, order, longest);
    } else {
      ok, order := false, [];
      longest := RecordsExist(m, ops, |ops|);
      RecordsOfLongest(m, ops, longest);
    }
  }

  lemma RecordsOfLongest<S(!new), I(!new), O(!new)>(m: Model<S, I, O>, ops: seq<Operation<I, O>>, longest: seq<Option<seq<nat>>>)
    requires forall id: nat | id < |longest| :: IsLongestFor(m, ops, id, longest[id])
    ensures RecordsAreValid(m, ops, longest)
  {
    hide PartialLinearization;
  }

  /** The invariant of the records: valid, and complete for what left the stack if asked for. */
  ghost predicate RecordsInv<S, I, O>(
    m: Model<S, I, O>, ops: seq<Operation<I, O>>, cache: set<Config<S>>, stack: seq<Config<S>>, computePartial: bool,
    longest: seq<Option<seq<nat>>>)
  {
    && RecordsAreValid(m, ops, longest)
    && if computePartial then Recorded(cache, stack, longest) else forall id | 0 <= id < |longest| :: longest[id] == None
  }

  lemma NoRecords<S, I, O>(
    m: Model<S, I, O>, ops: seq<Operation<I, O>>, stack: seq<Config<S>>, computePartial: bool, longest: seq<Option<seq<nat>>>)
    requires forall id | 0 <= id < |longest| :: longest[id] == None
    ensures RecordsInv(m, ops, {}, stack, computePartial, longest)
  {
  }

  lemma AfterCall<S(!new), I, O>(
    m: Model<S, I, O>, ops: seq<Operation<I, O>>, all: set<Config<S>>, cache: set<Config<S>>, w: Walk<S>,
    cache': set<Config<S>>, w': Walk<S>, computePartial: bool, longest: seq<Option<seq<nat>>>)
    requires CallStep(cache, w, cache', w') && RecordsInv(m, ops, cache, w.stack, computePartial, longest)
    requires cache <= all && Path(m, ops, w.o, w.stack) && Path(m, ops, w'.o, w'.stack)
    requires HoldsAll(m, ops, all)
    ensures cache' <= all && RecordsInv(m, ops, cache', w'.stack, computePartial, longest)
    ensures |all - cache'| < |all - cache| || (cache' == cache && w'.o == w.o && w.p < w'.p)
    ensures |w'.stack| <= |w.stack| + 1
  {
    if cache' != cache {
      PushBookkeeping(cache, cache', all, w.stack, w'.stack, longest);
    }
  }

  lemma RecordsFacts<S, I, O>(
    m: Model<S, I, O>, ops: seq<Operation<I, O>>, cache: set<Config<S>>, stack: seq<Config<S>>, computePartial: bool,
    longest: seq<Option<seq<nat>>>)
    requires RecordsInv(m, ops, cache, stack, computePartial, longest)
    ensures RecordsAreValid(m, ops, longest)
    ensures computePartial ==> Recorded(cache, stack, longest)
    ensures !computePartial ==> forall id | 0 <= id < |longest| :: longest[id] == None
  {
  }

  /** Records the current order at a dead end, if asked for. */
  method DeadEnd<S(!new), I, O>(
    computePartial: bool, calls: seq<CallsEntry<S, I, O>>, records: array<Option<seq<nat>>>,
    ghost m: Model<S, I, O>, ghost ops: seq<Operation<I, O>>, ghost cache: set<Config<S>>, ghost o: seq<nat>, ghost stack: seq<Config<S>>)
    requires Path(m, ops, o, stack) && |stack| == |o| + 1 && stack[|o|].done == Elements(o) && |stack[|o|].done| == |o|
    requires |calls| == |o| && Distinct(o) && records.Length == |ops| && forall i | 0 <= i < |o| :: calls[i].entry.id == o[i] < |ops|
    requires RecordsInv(m, ops, cache, stack, computePartial, records[..])
    modifies records
    ensures RecordsInv(m, ops, cache, stack[..|o|], computePartial, records[..])
  {
    hide Path, Recorded, RecordsAreValid;
    if computePartial {
      ghost var before := records[..];
      RecordLongest(calls, records, o);
      RecordedAfterDeadEnd(cache, o, stack, before, records[..]);
      RecordsStayValid(m, ops, o, stack, before, records[..]);
    }
  }

  method RecordAll(records: array<Option<seq<nat>>>, order: seq<nat>)
    modifies records
    ensures forall id | 0 <= id < records.Length :: records[id] == Some(order)
  {
    for i := 0 to records.Length
      invariant forall id | 0 <= id < i :: records[id] == Some(order)
    {
      records[i] := Some(order);
    }
  }

  /** The order found becomes the record of every operation. */
  method RecordFound<S(!new), I, O>(
    calls: seq<CallsEntry<S, I, O>>, records: array<Option<seq<nat>>>,
    ghost m: Model<S, I, O>, ghost h: seq<Entry<I, O>>, ghost computePartial: bool, ghost o: seq<nat>, ghost stack: seq<Config<S>>)
    requires WellFormed(h) && Path(m, OpsOf(h), o, stack) && |o| == |h| / 2 == records.Length
    requires |calls| == |o| && forall i | 0 <= i < |o| :: calls[i].entry.id == o[i]
    modifies records
    ensures Outcome(m, h, computePartial, true, records[..], false, o)
  {
    hide *;
    var ids := IdsOf(calls, o);
    RecordAll(records, ids);
    OutcomeFound(m, h, computePartial, records[..], o, stack);
  }

  /** The list, bitset, cache and records at the start. */
  method Begin<S(!new), I, O>(ghost m: Model<S, I, O>, h: seq<Entry<I, O>>, ghost computePartial: bool)
    returns (head: Node<I, O>, entry: Node?<I, O>, linearized: array<Bitset.Word>, cache: Cache.Table<S>,
             records: array<Option<seq<nat>>>, ghost nodes: seq<Node<I, O>>, ghost w: Walk<S>)
    requires WellFormed(h)
    ensures State(m, h, nodes, w, entry, m.init, [], linearized, cache) && cache.configs == {}
    ensures |nodes| > 0 && head == nodes[0] && fresh(cache) && fresh(linearized) && fresh(records)
    ensures forall k | 0 <= k < |nodes| :: fresh(nodes[k])
    ensures records.Length == |h| / 2 && RecordsInv(m, OpsOf(h), {}, w.stack, computePartial, records[..])
    ensures |w.stack| == 1
  {
    hide *;
    var n;
    head, entry, n, nodes := Setup(h);
    linearized := Bitset.New(n);
    cache := new Cache.Table<S>(linearized.Length);
    records := new Option<seq<nat>>[n](_ => None);
    w := StartState(m, h, nodes, entry, linearized, cache);
    NoRecords(m, OpsOf(h), w.stack, computePartial, records[..]);
  }

  /** The first `n` loads of the flag return false. */
  ghost predicate NoKill(kill: nat -> bool, n: nat) {
    forall t: nat | t < n :: !kill(t)
  }

  lemma OneMoreLoad(kill: nat -> bool, n: nat)
    requires NoKill(kill, n)
    ensures NoKill(kill, n + 1) <==> !kill(n)
  {
  }

  lemma NoLoads(kill: nat -> bool)
    ensures NoKill(kill, 0)
  {
  }

  /** Searches for a linearization of `h`.  `kill(t)` is what the t-th load of the kill flag returns; `loads` of
      them happen, one in each iteration, and the first that returns true ends the search.  */
  method CheckSingle<S(!new), I(!new), O(!new)>(
    m: Model<S, I, O>, h: seq<Entry<I, O>>, computePartial: bool, kill: nat -> bool)
    returns (ok: bool, longest: seq<Option<seq<nat>>>, killed: bool, ghost order: seq<nat>, ghost loads: nat)
    requires EqualRespectsStep(m) && WellFormed(h)
    ensures Outcome(m, h, computePartial, ok, longest, killed, order)
    ensures if killed then loads > 0 && kill(loads - 1) && NoKill(kill, loads - 1) else NoKill(kill, loads)
    ensures if ok then |h| / 2 <= loads else loads > 0
    ensures !computePartial && !ok ==> forall id | 0 <= id < |longest| :: longest[id] == None
  {
    hide *;
    var head, entry, linearized, cache, records;
    ghost var nodes, w;
    head, entry, linearized, cache, records, nodes, w := Begin(m, h, computePartial);
    var calls: seq<CallsEntry<S, I, O>> := [];
    var state := m.init;
    ghost var all := FinitelyManyConfigs(m, OpsOf(h));
    var load: nat := 0;
    NoLoads(kill);
    while head.next != null
      invariant State(m, h, nodes, w, entry, state, calls, linearized, cache)
      invariant |nodes| > 0 && head == nodes[0] && fresh(cache) && fresh(linearized) && fresh(records)
      invariant forall k | 0 <= k < |nodes| :: fresh(nodes[k])
      invariant cache.configs <= all
      invariant RecordsInv(m, OpsOf(h), cache.configs, w.stack, computePartial, records[..])
      invariant NoKill(kill, load) && |w.stack| <= load + 1
      decreases |all - cache.configs|, |w.o|, |h| - w.p
    {
      LoopFacts(m, h, nodes, w, entry, state, calls, linearized, cache);
      RecordsFacts(m, OpsOf(h), cache.configs, w.stack, computePartial, records[..]);
      OneMoreLoad(kill, load);
      load := load + 1;
      if kill(load - 1) {
        OutcomeKilled(m, h, computePartial, records[..]);
        return false, records[..], true, [], load;
      }
      if entry.matching != null {
        ghost var configs, was := cache.configs, w;
        entry, state, calls, w := StepCall(m, h, nodes, w, head, entry, state, calls, linearized, cache);
        AfterCall(m, OpsOf(h), all, configs, was, cache.configs, w, computePartial, records[..]);
      } else {
        if calls == [] {
          OutcomeExhausted(m, h, computePartial, records[..], cache.configs, w.stack, w.p);
          return false, records[..], false, [], load;
        }
        DeadEnd(computePartial, calls, records, m, OpsOf(h), cache.configs, w.o, w.stack);
        entry, state, calls, w := StepReturn(m, h, nodes, w, entry, state, calls, linearized, cache);
      }
    }
    LoopFacts(m, h, nodes, w, entry, state, calls, linearized, cache);
    RecordFound(calls, records, m, h, computePartial, w.o, w.stack);
    return true, records[..], false, w.o, load;
  }
}
