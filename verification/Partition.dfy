/** Splitting a key/value history by key. */
module Partition {
  import opened Linearizability
  import opened Kv
  import opened Sequences
  import MakeEntries

  predicate Before(a: string, b: string) {
    b != "" && (a == "" || a[0] < b[0] || (a[0] == b[0] && Before(a[1..], b[1..])))
  }

  lemma {:induction false} BeforeIsAsymmetric(a: string, b: string)
    requires Before(a, b)
    ensures !Before(b, a)
    decreases |a|
  {
    if a != "" && a[0] == b[0] {
      BeforeIsAsymmetric(a[1..], b[1..]);
    }
  }

  /** `a` and `b` agree on the first `k` characters, and `b` goes on with one that `a` does not have there. */
  ghost predicate DiffersAt(a: string, b: string, k: nat) {
    k <= |a| && k < |b| && a[..k] == b[..k] && (k < |a| ==> a[k] != b[k])
  }

  lemma DiffersLater(a: string, b: string, k: nat)
    requires a != "" && b != "" && a[0] == b[0]
    ensures DiffersAt(a, b, k + 1) <==> DiffersAt(a[1..], b[1..], k)
    ensures !DiffersAt(a, b, 0)
  {
    assert k + 1 <= |a| ==> a[..k + 1] == [a[0]] + a[1..][..k];
    assert k + 1 <= |b| ==> b[..k + 1] == [b[0]] + b[1..][..k];
    assert k + 1 <= |a| ==> a[..k + 1][1..] == a[1..][..k];
    assert k + 1 <= |b| ==> b[..k + 1][1..] == b[1..][..k];
  }

  /** The order of strings: at the first difference the smaller character, or the end of the string, comes first. */
  lemma {:induction false} BeforeIsLexicographic(a: string, b: string)
    ensures Before(a, b) <==> exists k: nat :: DiffersAt(a, b, k) && (k == |a| || a[k] < b[k])
    decreases |a|
  {
    if a != "" && b != "" && a[0] == b[0] {
      BeforeIsLexicographic(a[1..], b[1..]);
      if k: nat :| DiffersAt(a[1..], b[1..], k) && (k == |a[1..]| || a[1..][k] < b[1..][k]) {
        DiffersLater(a, b, k);
      }
      if k: nat :| DiffersAt(a, b, k) && (k == |a| || a[k] < b[k]) {
        DiffersLater(a, b, if k > 0 then k - 1 else 0);
      }
    } else if b != "" {
      assert a == "" || a[0] < b[0] ==> DiffersAt(a, b, 0);
    }
  }

  ghost predicate Ordered(keys: seq<string>) {
    forall i | 0 < i < |keys| :: !Before(keys[i], keys[i - 1])
  }

  lemma InsertKey(keys: seq<string>, x: string, k: nat)
    requires Ordered(keys) && k <= |keys|
    requires (k > 0 ==> !Before(x, keys[k - 1])) && (k < |keys| ==> Before(x, keys[k]))
    ensures Ordered(keys[..k] + [x] + keys[k..])
  {
    hide Before;
    if k < |keys| {
      BeforeIsAsymmetric(x, keys[k]);
    }
  }

  method SortStrings(raw: seq<string>) returns (keys: seq<string>)
    ensures Ordered(keys) && multiset(keys) == multiset(raw)
  {
    hide Before, Ordered;
    keys := [];
    InOrder();
    for n := 0 to |raw|
      invariant Ordered(keys) && multiset(keys) == multiset(raw[..n])
    {
      var k := |keys|;
      while k > 0 && Before(raw[n], keys[k - 1])
        invariant 0 <= k <= |keys|
        invariant k < |keys| ==> Before(raw[n], keys[k])
      {
        k := k - 1;
      }
      InsertKey(keys, raw[n], k);
      InsertAt(keys, raw[n], k);
      TakeNext(raw, n);
      keys := keys[..k] + [raw[n]] + keys[k..];
    }
    assert raw[..|raw|] == raw;
  }

  lemma InOrder()
    ensures Ordered([])
  {
  }

  lemma {:induction false} OfKeyAppend(w: seq<Op>, x: Op, key: string)
    ensures OfKey(w + [x], key) == OfKey(w, key) + if x.input.key == key then [x] else []
    decreases |w|
  {
    if w == [] {
      assert [] + [x] == [x];
    } else {
      var first := if w[0].input.key == key then [w[0]] else [];
      var last := if x.input.key == key then [x] else [];
      OfKeyAppend(w[1..], x, key);
      assert (w + [x])[1..] == w[1..] + [x] && (w + [x])[0] == w[0];
      assert first + (OfKey(w[1..], key) + last) == (first + OfKey(w[1..], key)) + last;
    }
  }

  method KeysOf(m: map<string, seq<Op>>) returns (keys: seq<string>)
    ensures Distinct(keys) && forall k :: k in keys <==> k in m
  {
    keys := [];
    var rest := m.Keys;
    while rest != {}
      invariant rest <= m.Keys && Distinct(keys) && forall k :: k in keys <==> k in m && k !in rest
      decreases |rest|
    {
      var k :| k in rest;
      keys := keys + [k];
      rest := rest - {k};
    }
  }

  /** `m` maps each key that occurs to its operations. */
  ghost predicate Grouped(history: seq<Op>, m: map<string, seq<Op>>) {
    && (forall x | x in history :: x.input.key in m)
    && (forall k | k in m :: m[k] == OfKey(history, k) && OfKey(history, k) != [])
  }

  lemma GroupOne(history: seq<Op>, m: map<string, seq<Op>>, v: Op)
    requires Grouped(history, m)
    ensures Grouped(history + [v], m[v.input.key := (if v.input.key in m then m[v.input.key] else []) + [v]])
  {
    forall k ensures OfKey(history + [v], k) == OfKey(history, k) + if v.input.key == k then [v] else [] {
      OfKeyAppend(history, v, k);
    }
    if v.input.key !in m {
      NoneOfKey(history, v.input.key);
    }
  }

  method Group(history: seq<Op>) returns (m: map<string, seq<Op>>)
    ensures Grouped(history, m)
  {
    hide OfKey;
    m := map[];
    for i := 0 to |history|
      invariant Grouped(history[..i], m)
    {
      var v := history[i];
      GroupOne(history[..i], m, v);
      assert history[..i + 1] == history[..i] + [v];
      m := m[v.input.key := (if v.input.key in m then m[v.input.key] else []) + [v]];
    }
    assert history[..|history|] == history;
  }

  /** One sub-history per key that occurs, in the order of the keys. */
  method Split(history: seq<Op>) returns (ret: seq<seq<Op>>, ghost keys: seq<string>)
    ensures IsPartition(history, keys, ret) && Ordered(keys)
    ensures forall i | 0 <= i < |ret| :: ret[i] != []
  {
    hide OfKey, Ordered;
    var m := Group(history);
    var unsorted := KeysOf(m);
    var sorted := SortStrings(unsorted);
    MakeEntries.PermutationDistinct(unsorted, sorted);
    assert forall k :: k in sorted <==> k in multiset(sorted);
    assert forall k :: k in unsorted <==> k in multiset(unsorted);
    keys := sorted;
    ret := [];
    for i := 0 to |sorted|
      invariant |ret| == i && forall j | 0 <= j < i :: ret[j] == OfKey(history, sorted[j]) && ret[j] != []
    {
      assert sorted[i] in multiset(sorted);
      ret := ret + [m[sorted[i]]];
    }
  }
}
