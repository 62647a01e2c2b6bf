/** Operations, sequential models and the definition of linearizability.

    A history is a sequence of operations; an operation's id is its index.  A sequential model is
    an initial state together with a step function that accepts or rejects an operation.  */
module Linearizability {
  import opened Wrappers

  datatype Operation<+I, +O> = Operation(clientId: int, input: I, call: int, output: O, ret: int)

  /** `step` says whether the operation is possible in a state, and the state that follows.
      `equal` is what the search cache uses to compare states.  */
  datatype Model<!S, !I, !O> = Model(init: S, step: (S, I, O) -> (bool, S), equal: (S, S) -> bool)

  /** All the checker needs from `equal`: it is a preorder that `step` respects, so a state can
      only be equal to one that allows at least the same continuations.  */
  ghost predicate EqualRespectsStep<S(!new), I(!new), O(!new)>(m: Model<S, I, O>) {
    && (forall s :: m.equal(s, s))
    && (forall s, t, u :: m.equal(s, t) && m.equal(t, u) ==> m.equal(s, u))
    && (forall s, t, i, o {:trigger m.equal(s, t), m.step(s, i, o)} :: m.equal(s, t) && m.step(s, i, o).0 ==>
          m.step(t, i, o).0 && m.equal(m.step(s, i, o).1, m.step(t, i, o).1))
  }

  /** The default comparison, equality on states, meets the requirement for every step function. */
  lemma ShallowEqualRespectsStep<S(!new), I(!new), O(!new)>(m: Model<S, I, O>)
    requires forall s, t :: m.equal(s, t) <==> s == t
    ensures EqualRespectsStep(m)
  {
  }

  ghost predicate TimesOrdered<I, O>(ops: seq<Operation<I, O>>) {
    forall x | 0 <= x < |ops| :: ops[x].call <= ops[x].ret
  }

  /** Real-time order: `a` returned before `b` was called. */
  predicate Precedes<I, O>(a: Operation<I, O>, b: Operation<I, O>) {
    a.ret < b.call
  }

  predicate ValidIds<I, O>(ops: seq<Operation<I, O>>, o: seq<nat>) {
    forall i | 0 <= i < |o| :: o[i] < |ops|
  }

  predicate Distinct<T(==)>(o: seq<T>) {
    forall i, j | 0 <= i < j < |o| :: o[i] != o[j]
  }

  function Elements<T>(o: seq<T>): set<T> {
    set x | x in o
  }

  /** The state after the operations `o`, in that order, from the initial state; `None` when the
      model rejects one of them.  */
  function Exec<S, I, O>(m: Model<S, I, O>, ops: seq<Operation<I, O>>, o: seq<nat>): Option<S>
    requires ValidIds(ops, o)
  {
    if o == [] then Some(m.init)
    else
      var rest := Exec(m, ops, o[..|o| - 1]);
      if rest.None? then None
      else
        var op := ops[o[|o| - 1]];
        var r := m.step(rest.value, op.input, op.output);
        if r.0 then Some(r.1) else None
  }

  /** `o` is a total order of all operations that keeps real-time order and that the model accepts. */
  ghost predicate Linearization<S, I, O>(m: Model<S, I, O>, ops: seq<Operation<I, O>>, o: seq<nat>) {
    && |o| == |ops|
    && ValidIds(ops, o)
    && Distinct(o)
    && (forall i, j | 0 <= i < j < |o| :: !Precedes(ops[o[j]], ops[o[i]]))
    && Exec(m, ops, o).Some?
  }

  ghost predicate Linearizable<S, I, O>(m: Model<S, I, O>, ops: seq<Operation<I, O>>) {
    exists o :: Linearization(m, ops, o)
  }

  /** `x` can come next after exactly the operations in `done`. */
  ghost predicate Enabled<I, O>(ops: seq<Operation<I, O>>, done: set<nat>, x: nat) {
    && x < |ops|
    && x !in done
    && (forall a: nat | a < |ops| && Precedes(ops[a], ops[x]) :: a in done)
  }

  /** `o` orders some of the operations; an operation comes in only after all operations that
      precede it in real time, and the model accepts the whole of `o`.  */
  ghost predicate PartialLinearization<S, I, O>(m: Model<S, I, O>, ops: seq<Operation<I, O>>, o: seq<nat>) {
    && ValidIds(ops, o)
    && (forall i | 0 <= i < |o| :: Enabled(ops, Elements(o[..i]), o[i]))
    && Exec(m, ops, o).Some?
  }

  lemma {:induction false} DistinctCardinality(o: seq<nat>)
    requires Distinct(o)
    ensures |Elements(o)| == |o|
  {
    if o != [] {
      var last := |o| - 1;
      DistinctCardinality(o[..last]);
      assert Elements(o) == Elements(o[..last]) + {o[last]};
    }
  }

  lemma {:induction false} SubsetOfRange(s: set<nat>, n: nat)
    requires forall x | x in s :: x < n
    ensures |s| <= n
    ensures |s| == n ==> forall x: nat | x < n :: x in s
  {
    if n > 0 {
      SubsetOfRange(s - {n - 1}, n - 1);
      assert n - 1 in s ==> s == s - {n - 1} + {n - 1};
      assert n - 1 !in s ==> s == s - {n - 1};
    } else {
      assert s == {};
    }
  }

  lemma {:induction false} SupersetOfRange(s: set<nat>, n: nat)
    requires forall x: nat | x < n :: x in s
    ensures n <= |s|
  {
    if n > 0 {
      SupersetOfRange(s - {n - 1}, n - 1);
      assert s == s - {n - 1} + {n - 1};
    }
  }

  lemma PartialIsDistinct<S, I, O>(m: Model<S, I, O>, ops: seq<Operation<I, O>>, o: seq<nat>)
    requires PartialLinearization(m, ops, o)
    ensures Distinct(o)
    ensures |Elements(o)| == |o| <= |ops|
    ensures |o| == |ops| ==> forall x: nat | x < |ops| :: x in o
  {
    forall i, j | 0 <= i < j < |o| ensures o[i] != o[j] {
      assert o[i] == o[..j][i];
    }
    DistinctCardinality(o);
    SubsetOfRange(Elements(o), |ops|);
    assert forall x: nat | x in Elements(o) :: x in o;
  }

  /** A partial linearization of all operations is the same thing as a linearization. */
  lemma FullPartialIsLinearization<S, I, O>(m: Model<S, I, O>, ops: seq<Operation<I, O>>, o: seq<nat>)
    requires TimesOrdered(ops)
    ensures Linearization(m, ops, o) <==> |o| == |ops| && PartialLinearization(m, ops, o)
  {
    if Linearization(m, ops, o) {
      DistinctCardinality(o);
      SubsetOfRange(Elements(o), |ops|);
      forall i | 0 <= i < |o| ensures Enabled(ops, Elements(o[..i]), o[i]) {
        forall a: nat | a < |ops| && Precedes(ops[a], ops[o[i]]) ensures a in o[..i] {
          assert a in Elements(o);
          var k :| 0 <= k < |o| && o[k] == a;
          assert k < i;
          assert o[..i][k] == a;
        }
      }
    }
    if |o| == |ops| && PartialLinearization(m, ops, o) {
      PartialIsDistinct(m, ops, o);
      forall i, j | 0 <= i < j < |o| ensures !Precedes(ops[o[j]], ops[o[i]]) {
        var before := Elements(o[..i]);
        assert o[j] !in before && Enabled(ops, before, o[i]);
      }
    }
  }

  lemma PartialPrefix<S, I, O>(m: Model<S, I, O>, ops: seq<Operation<I, O>>, o: seq<nat>)
    requires PartialLinearization(m, ops, o) && o != []
    ensures PartialLinearization(m, ops, o[..|o| - 1])
    ensures Enabled(ops, Elements(o[..|o| - 1]), o[|o| - 1])
    ensures Elements(o) == Elements(o[..|o| - 1]) + {o[|o| - 1]}
  {
    var p := o[..|o| - 1];
    forall i | 0 <= i < |p| ensures Enabled(ops, Elements(p[..i]), p[i]) {
      assert p[..i] == o[..i];
    }
  }
}
