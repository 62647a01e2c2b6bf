/** The state space that the checker walks, and the invariant of a depth-first walk with a cache.

    A configuration is a set of operations already ordered together with the model state they
    lead to.  The walk keeps a stack of configurations, one for every prefix of the order built so
    far, and a cache of every configuration it ever entered.  */
module Search {
  import opened Wrappers
  import opened Linearizability

  datatype Config<+S> = Config(done: set<nat>, state: S)

  predicate Accepts<S, I, O>(m: Model<S, I, O>, ops: seq<Operation<I, O>>, c: Config<S>, x: nat)
    requires x < |ops|
  {
    m.step(c.state, ops[x].input, ops[x].output).0
  }

  function Successor<S, I, O>(m: Model<S, I, O>, ops: seq<Operation<I, O>>, c: Config<S>, x: nat): Config<S>
    requires x < |ops|
  {
    Config(c.done + {x}, m.step(c.state, ops[x].input, ops[x].output).1)
  }

  ghost predicate Covered<S(!new), I, O>(m: Model<S, I, O>, cache: set<Config<S>>, c: Config<S>) {
    exists t :: Config(c.done, t) in cache && m.equal(c.state, t)
  }

  /** Every possible next operation called before time `p` leads to a cached configuration. */
  ghost predicate ExploredUpTo<S(!new), I, O>(
    m: Model<S, I, O>, ops: seq<Operation<I, O>>, cache: set<Config<S>>, c: Config<S>, p: int)
  {
    forall x: nat | Enabled(ops, c.done, x) && ops[x].call < p && Accepts(m, ops, c, x) ::
      Covered(m, cache, Successor(m, ops, c, x))
  }

  ghost predicate Explored<S(!new), I, O>(
    m: Model<S, I, O>, ops: seq<Operation<I, O>>, cache: set<Config<S>>, c: Config<S>)
  {
    forall x: nat | Enabled(ops, c.done, x) && Accepts(m, ops, c, x) ::
      Covered(m, cache, Successor(m, ops, c, x))
  }

  /** `stack[i]` is the configuration after the first `i` operations of `o`. */
  ghost predicate Path<S, I, O>(
    m: Model<S, I, O>, ops: seq<Operation<I, O>>, o: seq<nat>, stack: seq<Config<S>>)
  {
    && |stack| == |o| + 1
    && stack[0] == Config({}, m.init)
    && (forall i | 0 <= i < |o| ::
          && Enabled(ops, stack[i].done, o[i])
          && Accepts(m, ops, stack[i], o[i])
          && stack[i + 1] == Successor(m, ops, stack[i], o[i]))
  }

  /** What holds whenever the walk looks at time `p` with order `o`: the stack is a path, its
      configurations are cached and explored as far as the walk has come in each of them, and
      every cached configuration that left the stack is explored completely, and leads only to
      others that left it too.  */
  ghost predicate WalkInv<S(!new), I, O>(
    m: Model<S, I, O>, ops: seq<Operation<I, O>>, cache: set<Config<S>>,
    o: seq<nat>, stack: seq<Config<S>>, p: int)
  {
    && Path(m, ops, o, stack)
    && (forall i | 0 < i <= |o| :: stack[i] in cache)
    && (forall i | 0 <= i < |o| :: ExploredUpTo(m, ops, cache, stack[i], ops[o[i]].call))
    && ExploredUpTo(m, ops, cache, stack[|o|], p)
    && (forall c | c in Finished(cache, stack) :: Explored(m, ops, Finished(cache, stack), c))
  }

  /** The cached configurations that the walk has left for good. */
  ghost function Finished<S>(cache: set<Config<S>>, stack: seq<Config<S>>): set<Config<S>> {
    cache - Elements(stack)
  }

  /** Every operation of a cached configuration that left the stack has a recorded order at least
      as long as that configuration.  */
  ghost predicate Recorded<S>(cache: set<Config<S>>, stack: seq<Config<S>>, longest: seq<Option<seq<nat>>>) {
    forall c, id: nat | c in cache && c !in stack && id in c.done :: HasRecord(longest, c, id)
  }

  ghost predicate HasRecord<S>(longest: seq<Option<seq<nat>>>, c: Config<S>, id: nat) {
    id < |longest| && longest[id].Some? && |c.done| <= |longest[id].value|
  }

  ghost predicate DistinctCalls<I, O>(ops: seq<Operation<I, O>>) {
    forall x, y | 0 <= x < |ops| && 0 <= y < |ops| && ops[x].call == ops[y].call :: x == y
  }

  lemma PathSlice<S, I, O>(
    m: Model<S, I, O>, ops: seq<Operation<I, O>>, o: seq<nat>, stack: seq<Config<S>>, i: nat)
    requires Path(m, ops, o, stack) && i <= |o|
    ensures Path(m, ops, o[..i], stack[..i + 1])
  {
  }

  lemma {:induction false} PathDone<S, I, O>(
    m: Model<S, I, O>, ops: seq<Operation<I, O>>, o: seq<nat>, stack: seq<Config<S>>)
    requires Path(m, ops, o, stack)
    ensures stack[|o|].done == Elements(o) && |stack[|o|].done| == |o|
  {
    if o != [] {
      var k := |o| - 1;
      PathSlice(m, ops, o, stack, k);
      PathDone(m, ops, o[..k], stack[..|o|]);
      assert Elements(o) == Elements(o[..k]) + {o[k]};
    }
  }

  lemma {:induction false} PathExec<S, I, O>(
    m: Model<S, I, O>, ops: seq<Operation<I, O>>, o: seq<nat>, stack: seq<Config<S>>)
    requires Path(m, ops, o, stack)
    ensures ValidIds(ops, o) && Exec(m, ops, o) == Some(stack[|o|].state)
  {
    assert forall i | 0 <= i < |o| :: Enabled(ops, stack[i].done, o[i]);
    if o != [] {
      var k := |o| - 1;
      PathSlice(m, ops, o, stack, k);
      PathExec(m, ops, o[..k], stack[..|o|]);
    }
  }

  lemma PathPrefix<S, I, O>(
    m: Model<S, I, O>, ops: seq<Operation<I, O>>, o: seq<nat>, stack: seq<Config<S>>, i: nat)
    requires Path(m, ops, o, stack) && i <= |o|
    ensures Path(m, ops, o[..i], stack[..i + 1])
    ensures stack[i].done == Elements(o[..i]) && |stack[i].done| == i
  {
    hide Enabled;
    PathSlice(m, ops, o, stack, i);
    PathDone(m, ops, o[..i], stack[..i + 1]);
  }

  lemma PathIsPartial<S, I, O>(
    m: Model<S, I, O>, ops: seq<Operation<I, O>>, o: seq<nat>, stack: seq<Config<S>>)
    requires Path(m, ops, o, stack)
    ensures PartialLinearization(m, ops, o)
    ensures stack[|o|] == Config(Elements(o), Exec(m, ops, o).value)
    ensures |stack[|o|].done| == |o|
  {
    hide Exec;
    PathDone(m, ops, o, stack);
    PathExec(m, ops, o, stack);
    forall i | 0 <= i < |o| ensures Enabled(ops, Elements(o[..i]), o[i]) {
      PathPrefix(m, ops, o, stack, i);
    }
  }

  lemma CoveredMonotone<S(!new), I, O>(m: Model<S, I, O>, cache: set<Config<S>>, more: set<Config<S>>, c: Config<S>)
    requires cache <= more && Covered(m, cache, c)
    ensures Covered(m, more, c)
  {
    var t :| Config(c.done, t) in cache && m.equal(c.state, t);
    assert Config(c.done, t) in more;
  }

  lemma CachedIsCovered<S(!new), I(!new), O(!new)>(m: Model<S, I, O>, cache: set<Config<S>>, c: Config<S>)
    requires EqualRespectsStep(m) && c in cache
    ensures Covered(m, cache, c)
  {
    assert Config(c.done, c.state) in cache && m.equal(c.state, c.state);
  }

  lemma ExploredMonotone<S(!new), I, O>(
    m: Model<S, I, O>, ops: seq<Operation<I, O>>, cache: set<Config<S>>, more: set<Config<S>>, c: Config<S>)
    requires cache <= more
    ensures forall p :: ExploredUpTo(m, ops, cache, c, p) ==> ExploredUpTo(m, ops, more, c, p)
    ensures Explored(m, ops, cache, c) ==> Explored(m, ops, more, c)
  {
    forall d | Covered(m, cache, d) ensures Covered(m, more, d) {
      CoveredMonotone(m, cache, more, d);
    }
  }

  lemma NothingBefore<S(!new), I, O>(
    m: Model<S, I, O>, ops: seq<Operation<I, O>>, cache: set<Config<S>>, c: Config<S>, p: int)
    requires forall y: nat | Enabled(ops, c.done, y) :: p <= ops[y].call
    ensures ExploredUpTo(m, ops, cache, c, p)
  {
  }

  /** Entering an uncached configuration keeps the invariant. */
  lemma Push<S(!new), I(!new), O(!new)>(
    m: Model<S, I, O>, ops: seq<Operation<I, O>>, cache: set<Config<S>>,
    o: seq<nat>, stack: seq<Config<S>>, x: nat, p: int)
    requires EqualRespectsStep(m)
    requires x < |ops| && WalkInv(m, ops, cache, o, stack, ops[x].call)
    requires Enabled(ops, stack[|o|].done, x) && Accepts(m, ops, stack[|o|], x)
    requires Successor(m, ops, stack[|o|], x) !in cache
    requires forall y: nat | Enabled(ops, stack[|o|].done + {x}, y) :: p <= ops[y].call
    ensures var c := Successor(m, ops, stack[|o|], x);
      WalkInv(m, ops, cache + {c}, o + [x], stack + [c], p)
  {
    hide ExploredUpTo, Explored;
    var c := Successor(m, ops, stack[|o|], x);
    var more, o', stack' := cache + {c}, o + [x], stack + [c];
    assert Path(m, ops, o', stack');
    NothingBefore(m, ops, more, c, p);
    forall i | 0 <= i < |o'| ensures ExploredUpTo(m, ops, more, stack'[i], ops[o'[i]].call) {
      ExploredMonotone(m, ops, cache, more, stack[i]);
    }
    assert Finished(more, stack') == Finished(cache, stack);
  }

  /** Moving the cursor past operations that are impossible, rejected or cached keeps it. */
  lemma Skip<S(!new), I, O>(
    m: Model<S, I, O>, ops: seq<Operation<I, O>>, cache: set<Config<S>>,
    o: seq<nat>, stack: seq<Config<S>>, p: int, p': int)
    requires WalkInv(m, ops, cache, o, stack, p)
    requires forall x: nat | Enabled(ops, stack[|o|].done, x) && p <= ops[x].call < p' && Accepts(m, ops, stack[|o|], x) ::
      Covered(m, cache, Successor(m, ops, stack[|o|], x))
    ensures WalkInv(m, ops, cache, o, stack, p')
  {
  }

  /** The successors of the last configuration are larger than everything on the stack. */
  lemma LastIsExplored<S(!new), I, O>(
    m: Model<S, I, O>, ops: seq<Operation<I, O>>, cache: set<Config<S>>,
    o: seq<nat>, stack: seq<Config<S>>, p: int)
    requires WalkInv(m, ops, cache, o, stack, p)
    requires forall x: nat | Enabled(ops, stack[|o|].done, x) :: ops[x].call < p
    ensures Explored(m, ops, Finished(cache, stack), stack[|o|])
  {
    var c := stack[|o|];
    forall i | 0 <= i < |stack| ensures |stack[i].done| == i {
      PathPrefix(m, ops, o, stack, i);
    }
    forall x: nat | Enabled(ops, c.done, x) && Accepts(m, ops, c, x)
      ensures Covered(m, Finished(cache, stack), Successor(m, ops, c, x))
    {
      var d := Successor(m, ops, c, x);
      var t :| Config(d.done, t) in cache && m.equal(d.state, t);
      assert Config(d.done, t) in Finished(cache, stack);
    }
  }

  lemma FinishedAfterPop<S(!new), I, O>(m: Model<S, I, O>, ops: seq<Operation<I, O>>, cache: set<Config<S>>, stack: seq<Config<S>>)
    requires stack != [] && Explored(m, ops, Finished(cache, stack), stack[|stack| - 1])
    requires forall c | c in Finished(cache, stack) :: Explored(m, ops, Finished(cache, stack), c)
    ensures var left := Finished(cache, stack[..|stack| - 1]); forall c | c in left :: Explored(m, ops, left, c)
  {
    hide Explored;
    var left, left' := Finished(cache, stack), Finished(cache, stack[..|stack| - 1]);
    assert stack == stack[..|stack| - 1] + [stack[|stack| - 1]];
    assert left <= left';
    forall c | c in left' ensures Explored(m, ops, left', c) {
      assert c in left || c == stack[|stack| - 1];
      ExploredMonotone(m, ops, left, left', c);
    }
  }

  /** Leaving a configuration all of whose next operations lie before `p` keeps the invariant;
      the walk goes on just after the operation it takes back.  */
  lemma Pop<S(!new), I(!new), O(!new)>(
    m: Model<S, I, O>, ops: seq<Operation<I, O>>, cache: set<Config<S>>,
    o: seq<nat>, stack: seq<Config<S>>, p: int)
    requires EqualRespectsStep(m) && DistinctCalls(ops)
    requires WalkInv(m, ops, cache, o, stack, p) && o != []
    requires forall x: nat | Enabled(ops, stack[|o|].done, x) :: ops[x].call < p
    ensures WalkInv(m, ops, cache, o[..|o| - 1], stack[..|o|], ops[o[|o| - 1]].call + 1)
  {
    var k := |o| - 1;
    var o', stack' := o[..k], stack[..|o|];
    CachedIsCovered(m, cache, stack[|o|]);
    assert ExploredUpTo(m, ops, cache, stack'[k], ops[o[k]].call + 1);
    LastIsExplored(m, ops, cache, o, stack, p);
    FinishedAfterPop(m, ops, cache, stack);
  }

  /** The central induction: once everything cached is explored, every partial linearization ends
      in a cached configuration, although the walk never built most of those orders.  */
  lemma {:induction false} ExploredCoversAll<S(!new), I(!new), O(!new)>(
    m: Model<S, I, O>, ops: seq<Operation<I, O>>, cache: set<Config<S>>, q: seq<nat>)
    requires EqualRespectsStep(m)
    requires Explored(m, ops, cache, Config({}, m.init))
    requires forall c | c in cache :: Explored(m, ops, cache, c)
    requires PartialLinearization(m, ops, q) && q != []
    ensures Covered(m, cache, Config(Elements(q), Exec(m, ops, q).value))
  {
    var k := |q| - 1;
    var p := q[..k];
    PartialPrefix(m, ops, q);
    var s := Exec(m, ops, p).value;
    var t;
    if p == [] {
      t := m.init;
      assert Elements(p) == {};
    } else {
      ExploredCoversAll(m, ops, cache, p);
      t :| Config(Elements(p), t) in cache && m.equal(s, t);
    }
    var c := Config(Elements(p), t);
    assert Explored(m, ops, cache, c);
    assert m.equal(s, t) && Accepts(m, ops, c, q[k]);
    var d := Successor(m, ops, c, q[k]);
    var u :| Config(d.done, u) in cache && m.equal(d.state, u);
    assert Config(Elements(q), u) in cache && m.equal(Exec(m, ops, q).value, u);
  }

  /** `r` orders all remaining operations after configuration `c`. */
  ghost predicate Completes<S, I, O>(m: Model<S, I, O>, ops: seq<Operation<I, O>>, c: Config<S>, r: seq<nat>)
    decreases |r|
  {
    if r == [] then forall x: nat | x < |ops| :: x in c.done
    else Enabled(ops, c.done, r[0]) && Accepts(m, ops, c, r[0]) && Completes(m, ops, Successor(m, ops, c, r[0]), r[1..])
  }

  lemma {:induction false} EqualCompletes<S(!new), I(!new), O(!new)>(
    m: Model<S, I, O>, ops: seq<Operation<I, O>>, c: Config<S>, t: S, r: seq<nat>)
    requires EqualRespectsStep(m) && m.equal(c.state, t) && Completes(m, ops, c, r)
    ensures Completes(m, ops, Config(c.done, t), r)
    decreases |r|
  {
    if r != [] {
      var d := Successor(m, ops, Config(c.done, t), r[0]);
      EqualCompletes(m, ops, Successor(m, ops, c, r[0]), d.state, r[1..]);
    }
  }

  /** Pruning on the cache never changes the verdict: a cached configuration is still on the stack
      or no order of the remaining operations completes it.  */
  lemma {:induction false} FinishedHasNoCompletion<S(!new), I(!new), O(!new)>(
    m: Model<S, I, O>, ops: seq<Operation<I, O>>, cache: set<Config<S>>,
    o: seq<nat>, stack: seq<Config<S>>, p: int, c: Config<S>, r: seq<nat>)
    requires EqualRespectsStep(m)
    requires WalkInv(m, ops, cache, o, stack, p)
    requires forall d | d in cache :: exists x: nat :: x < |ops| && x !in d.done
    requires c in cache && c !in stack
    ensures !Completes(m, ops, c, r)
    decreases |r|
  {
    if r != [] && Enabled(ops, c.done, r[0]) && Accepts(m, ops, c, r[0]) {
      var d := Successor(m, ops, c, r[0]);
      assert Explored(m, ops, Finished(cache, stack), c);
      var t :| Config(d.done, t) in Finished(cache, stack) && m.equal(d.state, t);
      FinishedHasNoCompletion(m, ops, cache, o, stack, p, Config(d.done, t), r[1..]);
      if Completes(m, ops, d, r[1..]) {
        EqualCompletes(m, ops, d, t, r[1..]);
      }
    }
  }

  ghost predicate IsLongestFor<S, I, O>(m: Model<S, I, O>, ops: seq<Operation<I, O>>, id: nat, longest: Option<seq<nat>>) {
    match longest
    case None => !exists q :: PartialLinearization(m, ops, q) && id in q
    case Some(best) =>
      && PartialLinearization(m, ops, best)
      && id in best
      && forall q | PartialLinearization(m, ops, q) && id in q :: |q| <= |best|
  }

  ghost predicate RecordsAreValid<S, I, O>(m: Model<S, I, O>, ops: seq<Operation<I, O>>, longest: seq<Option<seq<nat>>>) {
    forall id | 0 <= id < |longest| && longest[id].Some? ::
      PartialLinearization(m, ops, longest[id].value) && id in longest[id].value
  }

  /** A walk that ends with an empty stack has seen everything. */
  lemma Exhausted<S(!new), I(!new), O(!new)>(
    m: Model<S, I, O>, ops: seq<Operation<I, O>>, cache: set<Config<S>>, stack: seq<Config<S>>, p: int)
    requires EqualRespectsStep(m)
    requires WalkInv(m, ops, cache, [], stack, p)
    requires forall x: nat | Enabled(ops, {}, x) :: ops[x].call < p
    requires Config({}, m.init) !in cache
    ensures forall q | PartialLinearization(m, ops, q) && q != [] ::
      Covered(m, cache, Config(Elements(q), Exec(m, ops, q).value))
  {
    LastIsExplored(m, ops, cache, [], stack, p);
    assert stack == [Config({}, m.init)] && Finished(cache, stack) == cache;
    forall q | PartialLinearization(m, ops, q) && q != []
      ensures Covered(m, cache, Config(Elements(q), Exec(m, ops, q).value))
    {
      ExploredCoversAll(m, ops, cache, q);
    }
  }

  lemma ExhaustedMeansNotLinearizable<S(!new), I(!new), O(!new)>(
    m: Model<S, I, O>, ops: seq<Operation<I, O>>, cache: set<Config<S>>, stack: seq<Config<S>>, p: int)
    requires EqualRespectsStep(m) && TimesOrdered(ops) && ops != []
    requires WalkInv(m, ops, cache, [], stack, p)
    requires forall x: nat | Enabled(ops, {}, x) :: ops[x].call < p
    requires forall c | c in cache :: 0 < |c.done| < |ops|
    ensures !Linearizable(m, ops)
  {
    forall o | |o| == |ops| && PartialLinearization(m, ops, o)
      ensures !Covered(m, cache, Config(Elements(o), Exec(m, ops, o).value))
    {
      PartialIsDistinct(m, ops, o);
    }
    Exhausted(m, ops, cache, stack, p);
    forall o ensures !Linearization(m, ops, o) {
      FullPartialIsLinearization(m, ops, o);
    }
  }

  lemma RecordedAt<S>(cache: set<Config<S>>, stack: seq<Config<S>>, longest: seq<Option<seq<nat>>>, c: Config<S>, id: nat)
    requires Recorded(cache, stack, longest) && c in cache && c !in stack && id in c.done
    ensures HasRecord(longest, c, id)
  {
    hide HasRecord;
  }

  /** An order that ends in a configuration equal to a cached one is no longer than the records of its operations. */
  lemma CoveredIsRecorded<S(!new), I, O>(
    m: Model<S, I, O>, cache: set<Config<S>>, stack: seq<Config<S>>, longest: seq<Option<seq<nat>>>, q: seq<nat>, state: S, id: nat)
    requires Covered(m, cache, Config(Elements(q), state)) && |Elements(q)| == |q| && id in q
    requires |stack| == 1 && stack[0].done == {} && Recorded(cache, stack, longest)
    ensures id < |longest| && longest[id].Some? && |q| <= |longest[id].value|
  {
    var t :| Config(Elements(q), t) in cache && m.equal(state, t);
    var c := Config(Elements(q), t);
    RecordedAt(cache, stack, longest, c, id);
  }

  lemma PartialRuns<S, I, O>(m: Model<S, I, O>, ops: seq<Operation<I, O>>, q: seq<nat>)
    requires PartialLinearization(m, ops, q)
    ensures ValidIds(ops, q) && Exec(m, ops, q).Some?
  {
  }

  lemma RecordIsLongest<S(!new), I, O>(m: Model<S, I, O>, ops: seq<Operation<I, O>>, longest: seq<Option<seq<nat>>>, id: nat)
    requires RecordsAreValid(m, ops, longest) && id < |longest|
    requires forall q | PartialLinearization(m, ops, q) && id in q :: longest[id].Some? && |q| <= |longest[id].value|
    ensures IsLongestFor(m, ops, id, longest[id])
  {
    hide PartialLinearization;
  }

  lemma ExhaustedMeansLongest<S(!new), I(!new), O(!new)>(
    m: Model<S, I, O>, ops: seq<Operation<I, O>>, cache: set<Config<S>>, stack: seq<Config<S>>, p: int,
    longest: seq<Option<seq<nat>>>, id: nat)
    requires EqualRespectsStep(m)
    requires WalkInv(m, ops, cache, [], stack, p)
    requires forall x: nat | Enabled(ops, {}, x) :: ops[x].call < p
    requires forall c | c in cache :: 0 < |c.done|
    requires Recorded(cache, stack, longest) && RecordsAreValid(m, ops, longest)
    requires id < |longest|
    ensures IsLongestFor(m, ops, id, longest[id])
  {
    assert |stack| == 1 && stack[0].done == {} && Config({}, m.init) !in cache;
    hide *;
    Exhausted(m, ops, cache, stack, p);
    forall q | PartialLinearization(m, ops, q) && id in q
      ensures longest[id].Some? && |q| <= |longest[id].value|
    {
      PartialRuns(m, ops, q);
      PartialIsDistinct(m, ops, q);
      CoveredIsRecorded(m, cache, stack, longest, q, Exec(m, ops, q).value, id);
    }
    RecordIsLongest(m, ops, longest, id);
  }

  // ---- finitely many configurations, for termination ----

  ghost function Words(n: nat, len: nat): set<seq<nat>> {
    if len == 0 then {[]}
    else Words(n, len - 1) + set w, x: nat | w in Words(n, len - 1) && x < n :: w + [x]
  }

  lemma {:induction false} InWords(n: nat, len: nat, w: seq<nat>)
    requires |w| <= len && forall i | 0 <= i < |w| :: w[i] < n
    ensures w in Words(n, len)
  {
    if len == 0 {
      assert w == [];
    } else if |w| < len {
      InWords(n, len - 1, w);
    } else {
      InWords(n, len - 1, w[..len - 1]);
      assert w == w[..len - 1] + [w[len - 1]];
    }
  }

  /** `all` has every configuration that a path can end in. */
  ghost predicate HoldsAll<S(!new), I, O>(m: Model<S, I, O>, ops: seq<Operation<I, O>>, all: set<Config<S>>) {
    forall o, stack | Path(m, ops, o, stack) :: stack[|o|] in all
  }

  /** There are finitely many configurations in all: those some partial linearization ends in. */
  lemma FinitelyManyConfigs<S(!new), I, O>(m: Model<S, I, O>, ops: seq<Operation<I, O>>) returns (all: set<Config<S>>)
    ensures HoldsAll(m, ops, all)
  {
    all := set w | w in Words(|ops|, |ops|) && PartialLinearization(m, ops, w) ::
      Config(Elements(w), Exec(m, ops, w).value);
    forall o, stack | Path(m, ops, o, stack) ensures stack[|o|] in all {
      PathIsPartial(m, ops, o, stack);
      PartialIsDistinct(m, ops, o);
      InWords(|ops|, |ops|, o);
    }
  }

  lemma PathAppend<S, I, O>(
    m: Model<S, I, O>, ops: seq<Operation<I, O>>, o: seq<nat>, stack: seq<Config<S>>, x: nat)
    requires Path(m, ops, o, stack) && Enabled(ops, stack[|o|].done, x) && Accepts(m, ops, stack[|o|], x)
    ensures var c := Successor(m, ops, stack[|o|], x);
      && Path(m, ops, o + [x], stack + [c])
      && c.done == Elements(o + [x])
      && |c.done| == |o| + 1 <= |ops|
      && Distinct(o + [x]) && ValidIds(ops, o + [x])
  {
    var o', stack' := o + [x], stack + [Successor(m, ops, stack[|o|], x)];
    assert Path(m, ops, o', stack');
    PathIsPartial(m, ops, o', stack');
    PartialIsDistinct(m, ops, o');
  }
}
