/** What the key/value specification means: every get returns what was written before it. */
module Reads {
  import opened Wrappers
  import opened Linearizability
  import opened LinearOrders
  import opened Kv

  /** The last of the first `i` operations that puts a value under `key`; -1 when there is none. */
  function LastPut(w: seq<Op>, key: string, i: nat): (j: int)
    requires i <= |w|
    ensures -1 <= j < i
    ensures 0 <= j ==> w[j].input.op == 1 && w[j].input.key == key
    ensures forall l | j < l < i :: !(w[l].input.op == 1 && w[l].input.key == key)
  {
    if i == 0 then -1
    else if w[i - 1].input.op == 1 && w[i - 1].input.key == key then i - 1
    else LastPut(w, key, i - 1)
  }

  /** The values appended to `key` by the operations from `lo` to before `i`, in order. */
  function Appended(w: seq<Op>, key: string, lo: nat, i: nat): string
    requires lo <= i <= |w|
  {
    if lo == i then ""
    else
      var x := w[i - 1].input;
      Appended(w, key, lo, i - 1) + if x.key == key && x.op != 0 && x.op != 1 then x.value else ""
  }

  /** What is under `key` before operation `i` when `s` was there at the start: the value of the last put,
      followed by everything appended since.  */
  function Written(s: string, w: seq<Op>, key: string, i: nat): string
    requires i <= |w|
  {
    var j := LastPut(w, key, i);
    (if j < 0 then s else w[j].input.value) + Appended(w, key, j + 1, i)
  }

  /** The get at `i`, if it is one, returned what was written under its key. */
  ghost predicate ReadsWritten(s: string, w: seq<Op>, i: nat)
    requires i < |w|
  {
    w[i].input.op == 0 ==> w[i].output.value == Written(s, w, w[i].input.key, i)
  }

  lemma WrittenAtStart(s: string, w: seq<Op>, key: string)
    ensures Written(s, w, key, 0) == s
  {
    assert s + "" == s;
  }

  lemma WrittenNext(s: string, w: seq<Op>, key: string, i: nat)
    requires i < |w|
    ensures Written(s, w, key, i + 1) ==
      if w[i].input.key != key || w[i].input.op == 0 then Written(s, w, key, i)
      else if w[i].input.op == 1 then w[i].input.value
      else Written(s, w, key, i) + w[i].input.value
  {
    var j := LastPut(w, key, i);
    var base := if j < 0 then s else w[j].input.value;
    var x := w[i].input;
    if x.key == key && x.op == 1 {
      assert Appended(w, key, i + 1, i + 1) == "" && x.value + "" == x.value;
    } else {
      var more := if x.key == key && x.op != 0 && x.op != 1 then x.value else "";
      assert base + (Appended(w, key, j + 1, i) + more) == base + Appended(w, key, j + 1, i) + more;
      assert Written(s, w, key, i) + "" == Written(s, w, key, i);
    }
  }

  // ---- one key ----

  ghost predicate OnlyKey(w: seq<Op>, key: string) {
    forall x | x in w :: x.input.key == key
  }

  lemma {:induction false} KeyRunIs(s: string, w: seq<Op>, key: string, i: nat)
    requires OnlyKey(w, key) && i <= |w|
    ensures Run(KvModel, s, w[..i]).Some? <==> forall l: nat | l < i :: ReadsWritten(s, w, l)
    ensures Run(KvModel, s, w[..i]).Some? ==> Run(KvModel, s, w[..i]).value == Written(s, w, key, i)
  {
    hide *;
    if i == 0 {
      WrittenAtStart(s, w, key);
      EmptyRun(s, w);
    } else {
      KeyRunIs(s, w, key, i - 1);
      KeyRunNext(s, w, i - 1);
      KeyNext(s, w, key, i - 1);
    }
  }

  lemma EmptyRun(s: string, w: seq<Op>)
    ensures Run(KvModel, s, w[..0]) == Some(s)
  {
    assert w[..0] == [];
  }

  lemma KeyRunNext(s: string, w: seq<Op>, k: nat)
    requires k < |w|
    ensures var r := Run(KvModel, s, w[..k]);
      Run(KvModel, s, w[..k + 1]) ==
        if r.None? then None
        else
          var t := KvStep(r.value, w[k].input, w[k].output);
          if t.0 then Some(t.1) else None
  {
    hide Run, KvStep;
    assert w[..k + 1] == w[..k] + [w[k]];
    RunAppend(KvModel, s, w[..k], w[k]);
  }

  lemma KeyNext(s: string, w: seq<Op>, key: string, k: nat)
    requires OnlyKey(w, key) && k < |w|
    ensures var t := KvStep(Written(s, w, key, k), w[k].input, w[k].output);
      (t.0 <==> ReadsWritten(s, w, k)) && (t.0 ==> t.1 == Written(s, w, key, k + 1))
  {
    assert w[k] in w;
    WrittenNext(s, w, key, k);
    hide Written;
  }

  /** An order of one key's operations is accepted from `s` exactly when every get in it returned the value of
      the last put before it, or `s`, followed by all appends in between.  */
  lemma KeyAccepts(s: string, w: seq<Op>, key: string)
    requires OnlyKey(w, key)
    ensures Run(KvModel, s, w).Some? <==> forall i: nat | i < |w| :: ReadsWritten(s, w, i)
  {
    KeyRunIs(s, w, key, |w|);
    assert w[..|w|] == w;
  }

  // ---- the whole store ----

  ghost predicate Holds(store: map<string, string>, w: seq<Op>, i: nat)
    requires i <= |w|
  {
    forall key :: ValueOf(store, key) == Written("", w, key, i)
  }

  lemma StoreNext(store: map<string, string>, w: seq<Op>, i: nat)
    requires i < |w| && Holds(store, w, i)
    ensures var r := StoreStep(store, w[i].input, w[i].output);
      (r.0 <==> ReadsWritten("", w, i)) && (r.0 ==> Holds(r.1, w, i + 1))
  {
    hide Written;
    var r := StoreStep(store, w[i].input, w[i].output);
    assert ValueOf(store, w[i].input.key) == Written("", w, w[i].input.key, i);
    if r.0 {
      forall key ensures ValueOf(r.1, key) == Written("", w, key, i + 1) {
        assert ValueOf(store, key) == Written("", w, key, i);
        WrittenNext("", w, key, i);
      }
    }
  }

  lemma EmptyStore(w: seq<Op>)
    ensures Run(StoreModel, map[], w[..0]) == Some(map[]) && Holds(map[], w, 0)
  {
    assert w[..0] == [];
    forall key ensures ValueOf(map[], key) == Written("", w, key, 0) {
      WrittenAtStart("", w, key);
    }
  }

  lemma StoreRunNext(w: seq<Op>, k: nat)
    requires k < |w|
    ensures var r := Run(StoreModel, map[], w[..k]);
      Run(StoreModel, map[], w[..k + 1]) ==
        if r.None? then None
        else
          var t := StoreStep(r.value, w[k].input, w[k].output);
          if t.0 then Some(t.1) else None
  {
    hide Run, StoreStep;
    assert w[..k + 1] == w[..k] + [w[k]];
    RunAppend(StoreModel, map[], w[..k], w[k]);
  }

  lemma {:induction false} StoreRunIs(w: seq<Op>, i: nat)
    requires i <= |w|
    ensures Run(StoreModel, map[], w[..i]).Some? <==> forall l: nat | l < i :: ReadsWritten("", w, l)
    ensures Run(StoreModel, map[], w[..i]).Some? ==> Holds(Run(StoreModel, map[], w[..i]).value, w, i)
  {
    hide *;
    if i == 0 {
      EmptyStore(w);
    } else {
      StoreRunIs(w, i - 1);
      StoreRunNext(w, i - 1);
      var r := Run(StoreModel, map[], w[..i - 1]);
      if r.Some? {
        StoreNext(r.value, w, i - 1);
      }
    }
  }

  /** The store accepts an order exactly when every get returned the value of the last put on its key before it,
      or nothing for a key without a put, followed by all appends to the key in between.  */
  lemma StoreAccepts(w: seq<Op>)
    ensures Run(StoreModel, map[], w).Some? <==> forall i: nat | i < |w| :: ReadsWritten("", w, i)
  {
    StoreRunIs(w, |w|);
    assert w[..|w|] == w;
  }

  /** `w` rearranges the history, keeps real-time order, and all its gets return what was written. */
  ghost predicate ConsistentOrder(history: seq<Op>, w: seq<Op>) {
    && multiset(w) == multiset(history)
    && (forall i, j | 0 <= i < j < |w| :: w[i].call <= w[j].ret)
    && (forall i: nat | i < |w| :: ReadsWritten("", w, i))
  }

  lemma ConsistentIsLinear(history: seq<Op>, w: seq<Op>)
    ensures LinearOrder(StoreModel, history, w) <==> ConsistentOrder(history, w)
  {
    hide Run, ReadsWritten;
    StoreAccepts(w);
  }

  /** A history is linearizable against the store exactly when it has a consistent order. */
  lemma LinearizableMeansConsistent(history: seq<Op>)
    ensures Linearizable(StoreModel, history) <==> exists w :: ConsistentOrder(history, w)
  {
    hide LinearOrder, ConsistentOrder;
    LinearizableByOrder(StoreModel, history);
    if w :| LinearOrder(StoreModel, history, w) {
      ConsistentIsLinear(history, w);
    }
    if w :| ConsistentOrder(history, w) {
      ConsistentIsLinear(history, w);
    }
  }
}
