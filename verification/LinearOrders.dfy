/** Linearizability stated on operations instead of ids: an order is a sequence of operations. */
module LinearOrders {
  import opened Wrappers
  import opened Linearizability

  function Run<S, I, O>(m: Model<S, I, O>, s: S, w: seq<Operation<I, O>>): Option<S> {
    if w == [] then Some(s)
    else
      var r := m.step(s, w[0].input, w[0].output);
      if r.0 then Run(m, r.1, w[1..]) else None
  }

  ghost predicate KeepsRealTime<I, O>(w: seq<Operation<I, O>>) {
    forall i, j | 0 <= i < j < |w| :: !Precedes(w[j], w[i])
  }

  /** `w` rearranges `ops`, keeps real-time order, and the model accepts it. */
  ghost predicate LinearOrder<S, I, O>(m: Model<S, I, O>, ops: seq<Operation<I, O>>, w: seq<Operation<I, O>>) {
    multiset(w) == multiset(ops) && KeepsRealTime(w) && Run(m, m.init, w).Some?
  }

  lemma {:induction false} RunAppend<S, I, O>(m: Model<S, I, O>, s: S, w: seq<Operation<I, O>>, x: Operation<I, O>)
    ensures Run(m, s, w + [x]) ==
      var r := Run(m, s, w);
      if r.None? then None
      else
        var t := m.step(r.value, x.input, x.output);
        if t.0 then Some(t.1) else None
    decreases |w|
  {
    if w == [] {
      assert [] + [x] == [x];
    } else {
      var r := m.step(s, w[0].input, w[0].output);
      assert (w + [x])[1..] == w[1..] + [x];
      if r.0 {
        RunAppend(m, r.1, w[1..], x);
      }
    }
  }

  function Select<T>(ops: seq<T>, o: seq<nat>): (w: seq<T>)
    requires forall i | 0 <= i < |o| :: o[i] < |ops|
    ensures |w| == |o| && forall i | 0 <= i < |o| :: w[i] == ops[o[i]]
  {
    seq(|o|, i requires 0 <= i < |o| => ops[o[i]])
  }

  lemma {:induction false} ExecIsRun<S, I, O>(m: Model<S, I, O>, ops: seq<Operation<I, O>>, o: seq<nat>)
    requires ValidIds(ops, o)
    ensures Exec(m, ops, o) == Run(m, m.init, Select(ops, o))
  {
    if o != [] {
      var k := |o| - 1;
      ExecIsRun(m, ops, o[..k]);
      RunAppend(m, m.init, Select(ops, o[..k]), ops[o[k]]);
      assert Select(ops, o) == Select(ops, o[..k]) + [ops[o[k]]];
    }
  }

  function Without<T>(s: seq<T>, k: nat): (r: seq<T>)
    requires k < |s|
    ensures |r| == |s| - 1
    ensures forall i | 0 <= i < |r| :: r[i] == if i < k then s[i] else s[i + 1]
  {
    s[..k] + s[k + 1..]
  }

  lemma MultisetWithout<T>(s: seq<T>, k: nat)
    requires k < |s|
    ensures multiset(s) == multiset(Without(s, k)) + multiset{s[k]}
  {
    assert s == s[..k] + [s[k]] + s[k + 1..];
  }

  lemma Cancel<T>(a: multiset<T>, b: multiset<T>, x: T)
    requires a + multiset{x} == b + multiset{x}
    ensures a == b
  {
    assert a == a + multiset{x} - multiset{x};
    assert b == b + multiset{x} - multiset{x};
  }

  lemma {:induction false} SelectAll<T>(ops: seq<T>, o: seq<nat>)
    requires Distinct(o) && |o| == |ops| && forall i | 0 <= i < |o| :: o[i] < |ops|
    ensures multiset(Select(ops, o)) == multiset(ops)
    decreases |o|
  {
    if o == [] {
      assert ops == [];
    } else {
      var n := |ops| - 1;
      var k := IndexOf(o, n);
      var rest := Without(o, k);
      SelectAll(ops[..n], rest);
      assert Select(ops[..n], rest) == Without(Select(ops, o), k);
      MultisetWithout(Select(ops, o), k);
      MultisetWithout(ops, n);
      assert Without(ops, n) == ops[..n];
    }
  }

  lemma IndexOf(o: seq<nat>, x: nat) returns (k: nat)
    requires Distinct(o) && x < |o| && forall i | 0 <= i < |o| :: o[i] < |o|
    ensures k < |o| && o[k] == x
  {
    DistinctCardinality(o);
    SubsetOfRange(Elements(o), |o|);
    assert x in Elements(o);
    k :| 0 <= k < |o| && o[k] == x;
  }

  lemma {:induction false} Unselect<T>(ops: seq<T>, w: seq<T>) returns (o: seq<nat>)
    requires multiset(w) == multiset(ops)
    ensures Distinct(o) && |o| == |ops| && forall i | 0 <= i < |o| :: o[i] < |ops|
    ensures Select(ops, o) == w
    decreases |ops|
  {
    assert |w| == |multiset(w)| == |multiset(ops)| == |ops|;
    if ops == [] {
      o := [];
    } else {
      var n := |ops| - 1;
      assert ops[n] in multiset(w);
      var k :| 0 <= k < |w| && w[k] == ops[n];
      MultisetWithout(w, k);
      MultisetWithout(ops, n);
      assert Without(ops, n) == ops[..n];
      Cancel(multiset(Without(w, k)), multiset(ops[..n]), ops[n]);
      var rest := Unselect(ops[..n], Without(w, k));
      o := Inserted(ops, w, rest, k);
    }
  }

  lemma Inserted<T>(ops: seq<T>, w: seq<T>, rest: seq<nat>, k: nat) returns (o: seq<nat>)
    requires |ops| == |w| == |rest| + 1 && k < |w| && w[k] == ops[|ops| - 1]
    requires Distinct(rest) && forall i | 0 <= i < |rest| :: rest[i] < |ops| - 1
    requires Select(ops[..|ops| - 1], rest) == Without(w, k)
    ensures Distinct(o) && |o| == |ops| && forall i | 0 <= i < |o| :: o[i] < |ops|
    ensures Select(ops, o) == w
  {
    o := rest[..k] + [|ops| - 1] + rest[k..];
    assert Distinct(o);
    hide Distinct;
    forall i | 0 <= i < |w| ensures ops[o[i]] == w[i] {
      assert i < k ==> w[i] == Without(w, k)[i] == ops[rest[i]];
      assert i > k ==> w[i] == Without(w, k)[i - 1] == ops[rest[i - 1]];
    }
  }

  /** The definition by ids and the definition by operations agree. */
  lemma LinearizableByOrder<S, I(!new), O(!new)>(m: Model<S, I, O>, ops: seq<Operation<I, O>>)
    ensures Linearizable(m, ops) <==> exists w :: LinearOrder(m, ops, w)
  {
    if Linearizable(m, ops) {
      var o :| Linearization(m, ops, o);
      var w := Select(ops, o);
      SelectAll(ops, o);
      ExecIsRun(m, ops, o);
      assert LinearOrder(m, ops, w);
    }
    if w :| LinearOrder(m, ops, w) {
      var o := Unselect(ops, w);
      ExecIsRun(m, ops, o);
      assert Linearization(m, ops, o);
    }
  }
}
