/** The key/value specification and its partition by key. */
module Kv {
  import opened Wrappers
  import opened Linearizability
  import opened LinearOrders

  newtype uint8 = x: int | 0 <= x < 256

  /** `op` is 0 for get, 1 for put; every other value appends. */
  datatype KvInput = KvInput(op: uint8, key: string, value: string)

  datatype KvOutput = KvOutput(value: string)

  type Op = Operation<KvInput, KvOutput>

  // ---- the specification of one key ----

  function KvStep(st: string, inp: KvInput, out: KvOutput): (bool, string) {
    if inp.op == 0 then (out.value == st, st)
    else if inp.op == 1 then (true, inp.value)
    else (true, st + inp.value)
  }

  const KvModel: Model<string, KvInput, KvOutput> := Model("", KvStep, (a, b) => a == b)

  // ---- the specification of the whole store ----

  function ValueOf(store: map<string, string>, key: string): string {
    if key in store then store[key] else ""
  }

  function StoreStep(store: map<string, string>, inp: KvInput, out: KvOutput): (bool, map<string, string>) {
    var r := KvStep(ValueOf(store, inp.key), inp, out);
    (r.0, store[inp.key := r.1])
  }

  const StoreModel: Model<map<string, string>, KvInput, KvOutput> := Model(map[], StoreStep, (a, b) => a == b)

  function OfKey(w: seq<Op>, key: string): seq<Op> {
    if w == [] then []
    else (if w[0].input.key == key then [w[0]] else []) + OfKey(w[1..], key)
  }

  // ---- one order of the whole store, seen key by key ----

  /** The store accepts an order exactly when every key accepts its part of it. */
  lemma {:induction false} StoreRunsKeyByKey(store: map<string, string>, w: seq<Op>)
    ensures Run(StoreModel, store, w).Some? <==> forall k :: Run(KvModel, ValueOf(store, k), OfKey(w, k)).Some?
    decreases |w|
  {
    if w != [] {
      var op := w[0];
      var key := op.input.key;
      var r := StoreStep(store, op.input, op.output);
      StoreRunsKeyByKey(r.1, w[1..]);
      assert OfKey(w, key) == [op] + OfKey(w[1..], key);
      forall k ensures r.0 ==>
        (Run(KvModel, ValueOf(store, k), OfKey(w, k)).Some? <==> Run(KvModel, ValueOf(r.1, k), OfKey(w[1..], k)).Some?)
      {
        if k == key {
          assert OfKey(w, k)[0] == op && OfKey(w, k)[1..] == OfKey(w[1..], k);
        } else {
          assert OfKey(w, k) == OfKey(w[1..], k);
        }
      }
      if !r.0 {
        assert Run(KvModel, ValueOf(store, key), OfKey(w, key)).None?;
      }
    }
  }

  lemma {:induction false} OfKeyCount(w: seq<Op>, key: string, x: Op)
    ensures multiset(OfKey(w, key))[x] == if x.input.key == key then multiset(w)[x] else 0
    decreases |w|
  {
    if w != [] {
      OfKeyCount(w[1..], key, x);
      assert w == [w[0]] + w[1..];
    }
  }

  lemma {:induction false} OfKeyFrom(w: seq<Op>, key: string)
    ensures forall x | x in OfKey(w, key) :: x in w
    decreases |w|
  {
    if w != [] {
      OfKeyFrom(w[1..], key);
    }
  }

  lemma {:induction false} OfKeyKeepsRealTime(w: seq<Op>, key: string)
    requires KeepsRealTime(w)
    ensures KeepsRealTime(OfKey(w, key))
    decreases |w|
  {
    if w != [] {
      var rest := w[1..];
      assert forall i, j | 0 <= i < j < |rest| :: rest[i] == w[i + 1] && rest[j] == w[j + 1];
      OfKeyKeepsRealTime(rest, key);
      OfKeyFrom(rest, key);
      if w[0].input.key == key {
        var part := OfKey(rest, key);
        forall j | 0 <= j < |part| ensures !Precedes(part[j], w[0]) {
          assert part[j] in rest;
        }
      }
    }
  }

  /** Restricting a linear order of the store to a key gives a linear order of that key. */
  lemma Restrict(history: seq<Op>, w: seq<Op>, key: string)
    requires LinearOrder(StoreModel, history, w)
    ensures LinearOrder(KvModel, OfKey(history, key), OfKey(w, key))
  {
    forall x ensures multiset(OfKey(w, key))[x] == multiset(OfKey(history, key))[x] {
      OfKeyCount(w, key, x);
      OfKeyCount(history, key, x);
    }
    OfKeyKeepsRealTime(w, key);
    StoreRunsKeyByKey(map[], w);
    assert Run(KvModel, ValueOf(map[], key), OfKey(w, key)).Some?;
  }

  // ---- merging the orders of the keys ----

  /** `orders` holds exactly the operations of `bag`, each under its own key. */
  ghost predicate Split(bag: multiset<Op>, orders: map<string, seq<Op>>) {
    && (forall k, i | k in orders && 0 <= i < |orders[k]| :: orders[k][i].input.key == k)
    && (forall x :: bag[x] == if x.input.key in orders then multiset(orders[x.input.key])[x] else 0)
  }

  lemma {:induction false} EarliestReturn(bag: multiset<Op>) returns (z: Op)
    requires bag != multiset{}
    ensures z in bag && forall x | x in bag :: z.ret <= x.ret
    decreases |bag|
  {
    var y :| y in bag;
    var rest := bag - multiset{y};
    assert bag == rest + multiset{y};
    if rest == multiset{} {
      z := y;
      assert forall x | x in bag :: x == y;
    } else {
      var z' := EarliestReturn(rest);
      z := if y.ret < z'.ret then y else z';
      forall x | x in bag ensures z.ret <= x.ret {
        assert x == y || x in rest;
      }
    }
  }

  /** Some key's first remaining operation was called no later than every remaining return. */
  lemma NextToMerge(bag: multiset<Op>, orders: map<string, seq<Op>>) returns (k: string)
    requires Split(bag, orders) && bag != multiset{}
    requires forall x | x in bag :: x.call <= x.ret
    requires forall k | k in orders :: KeepsRealTime(orders[k])
    ensures k in orders && orders[k] != [] && orders[k][0] in bag && orders[k][0].input.key == k
    ensures forall x | x in bag :: !Precedes(x, orders[k][0])
  {
    var z := EarliestReturn(bag);
    k := z.input.key;
    assert z in multiset(orders[k]);
    var i :| 0 <= i < |orders[k]| && orders[k][i] == z;
    var first := orders[k][0];
    assert first in multiset(orders[k]) && first.input.key == k;
    assert first.call <= z.ret by {
      if i > 0 {
        assert !Precedes(orders[k][i], orders[k][0]);
      }
    }
  }

  lemma SplitRest(bag: multiset<Op>, orders: map<string, seq<Op>>, k: string)
    requires Split(bag, orders) && k in orders && orders[k] != []
    ensures Split(bag - multiset{orders[k][0]}, orders[k := orders[k][1..]])
  {
    var first, rest := orders[k][0], orders[k][1..];
    assert orders[k] == [first] + rest;
    var orders': map<string, seq<Op>> := orders[k := rest];
    forall k', i | k' in orders' && 0 <= i < |orders'[k']| ensures orders'[k'][i].input.key == k' {
      assert k' == k ==> orders'[k'][i] == orders[k][i + 1];
    }
  }

  lemma NothingLeft(orders: map<string, seq<Op>>)
    requires Split(multiset{}, orders)
    ensures forall k | k in orders :: orders[k] == []
    ensures KeepsRealTime<KvInput, KvOutput>([]) && forall k :: OfKey([], k) == []
  {
    forall k | k in orders ensures orders[k] == [] {
      assert multiset(orders[k]) == multiset{};
      assert |orders[k]| == |multiset(orders[k])|;
    }
  }

  lemma TailKeepsRealTime(s: seq<Op>)
    requires KeepsRealTime(s) && s != []
    ensures KeepsRealTime(s[1..])
  {
    var t := s[1..];
    assert forall i | 0 <= i < |t| :: t[i] == s[i + 1];
  }

  lemma PutFirst(first: Op, rest: seq<Op>)
    requires KeepsRealTime(rest) && forall x | x in multiset(rest) :: !Precedes(x, first)
    ensures KeepsRealTime([first] + rest)
    ensures forall k :: OfKey([first] + rest, k) == (if first.input.key == k then [first] else []) + OfKey(rest, k)
  {
    assert ([first] + rest)[1..] == rest;
    assert forall j | 0 <= j < |rest| :: rest[j] in multiset(rest);
  }

  /** Orders of the keys that each keep real time can be merged into one that does. */
  lemma {:induction false} Merge(bag: multiset<Op>, orders: map<string, seq<Op>>) returns (w: seq<Op>)
    requires Split(bag, orders)
    requires forall x | x in bag :: x.call <= x.ret
    requires forall k | k in orders :: KeepsRealTime(orders[k])
    ensures multiset(w) == bag && KeepsRealTime(w)
    ensures forall k | k in orders :: OfKey(w, k) == orders[k]
    decreases |bag|
  {
    hide *;
    if bag == multiset{} {
      w := [];
      NothingLeft(orders);
    } else {
      var k := NextToMerge(bag, orders);
      var first, tail := orders[k][0], orders[k][1..];
      var bag' := bag - multiset{first};
      Taken(bag, first);
      SplitRest(bag, orders, k);
      TailKeepsRealTime(orders[k]);
      var rest := Merge(bag', orders[k := tail]);
      PutFirst(first, rest);
      w := [first] + rest;
      assert orders[k] == [first] + tail;
    }
  }

  lemma Taken(bag: multiset<Op>, x: Op)
    requires x in bag
    ensures |bag - multiset{x}| < |bag| && bag == bag - multiset{x} + multiset{x}
    ensures forall y | y in bag - multiset{x} :: y in bag
  {
  }

  // ---- the locality theorem ----

  /** `parts[i]` holds the operations of `keys[i]` in the order of the history; every key occurs once. */
  ghost predicate IsPartition(history: seq<Op>, keys: seq<string>, parts: seq<seq<Op>>) {
    && |keys| == |parts| && Distinct(keys)
    && (forall i | 0 <= i < |keys| :: parts[i] == OfKey(history, keys[i]))
    && (forall x | x in history :: x.input.key in keys)
  }

  lemma OrdersSplit(history: seq<Op>, keys: seq<string>, orders: map<string, seq<Op>>)
    requires orders.Keys == Elements(keys)
    requires forall x | x in history :: x.input.key in keys
    requires forall k | k in keys :: multiset(orders[k]) == multiset(OfKey(history, k))
    ensures Split(multiset(history), orders)
  {
    hide OfKey;
    forall k, i | k in orders && 0 <= i < |orders[k]| ensures orders[k][i].input.key == k {
      assert orders[k][i] in multiset(orders[k]);
      OfKeyCount(history, k, orders[k][i]);
    }
    forall x ensures multiset(history)[x] == if x.input.key in orders then multiset(orders[x.input.key])[x] else 0 {
      OfKeyCount(history, x.input.key, x);
    }
  }

  lemma Together(history: seq<Op>, keys: seq<string>, orders: map<string, seq<Op>>) returns (w: seq<Op>)
    requires TimesOrdered(history) && orders.Keys == Elements(keys)
    requires forall x | x in history :: x.input.key in keys
    requires forall k | k in keys :: LinearOrder(KvModel, OfKey(history, k), orders[k])
    ensures LinearOrder(StoreModel, history, w)
  {
    hide Run, KeepsRealTime, OfKey, Split;
    OrdersSplit(history, keys, orders);
    w := Merge(multiset(history), orders);
    forall k ensures Run(KvModel, ValueOf(map[], k), OfKey(w, k)).Some? {
      if k !in orders {
        forall x | x in w ensures x.input.key != k {
          assert x in multiset(w);
        }
        NoneOfKey(w, k);
      }
    }
    StoreRunsKeyByKey(map[], w);
  }

  lemma {:induction false} NoneOfKey(w: seq<Op>, key: string)
    requires forall x | x in w :: x.input.key != key
    ensures OfKey(w, key) == [] && forall s :: Run(KvModel, s, OfKey(w, key)).Some?
    decreases |w|
  {
    if w != [] {
      assert forall x | x in w[1..] :: x in w;
      NoneOfKey(w[1..], key);
    }
  }

  /** A history is linearizable against the whole store if and only if its operations on each key
      are linearizable against the specification of one key.  */
  lemma Locality(history: seq<Op>, keys: seq<string>, parts: seq<seq<Op>>)
    requires TimesOrdered(history) && IsPartition(history, keys, parts)
    ensures Linearizable(StoreModel, history) <==> forall i | 0 <= i < |parts| :: Linearizable(KvModel, parts[i])
  {
    LinearizableByOrder(StoreModel, history);
    forall i | 0 <= i < |parts| ensures Linearizable(KvModel, parts[i]) <==> exists w :: LinearOrder(KvModel, parts[i], w) {
      LinearizableByOrder(KvModel, parts[i]);
    }
    if w :| LinearOrder(StoreModel, history, w) {
      forall i | 0 <= i < |parts| ensures Linearizable(KvModel, parts[i]) {
        Restrict(history, w, keys[i]);
      }
    }
    if forall i | 0 <= i < |parts| :: Linearizable(KvModel, parts[i]) {
      forall k | k in keys ensures exists w :: LinearOrder(KvModel, OfKey(history, k), w) {
        var i :| 0 <= i < |keys| && keys[i] == k;
        assert Linearizable(KvModel, parts[i]);
      }
      var orders := map k | k in keys :: var w :| LinearOrder(KvModel, OfKey(history, k), w); w;
      var w := Together(history, keys, orders);
    }
  }
}
