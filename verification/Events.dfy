/** Event histories: renumbering ids and conversion to entries. */
module Events {
  import opened Linearizability
  import opened Entries

  datatype Event<+I, +O> =
    | CallEvent(clientId: int, input: I, id: int)
    | ReturnEvent(clientId: int, output: O, id: int)

  // ---- numbering by first occurrence ----

  function NumDistinct(ids: seq<int>): nat {
    if ids == [] then 0
    else
      var rest := ids[..|ids| - 1];
      NumDistinct(rest) + if ids[|ids| - 1] in rest then 0 else 1
  }

  /** How many different ids occur before the first `x`. */
  function Rank(ids: seq<int>, x: int): nat
    requires x in ids
  {
    var rest := ids[..|ids| - 1];
    if x in rest then Rank(rest, x) else NumDistinct(rest)
  }

  lemma {:induction false} RankInRange(ids: seq<int>, x: int)
    requires x in ids
    ensures Rank(ids, x) < NumDistinct(ids)
  {
    var rest := ids[..|ids| - 1];
    assert ids == rest + [ids[|ids| - 1]];
    if x in rest {
      RankInRange(rest, x);
    }
  }

  /** Different ids get different numbers, smaller for the one seen first. */
  lemma {:induction false} RankIsInjective(ids: seq<int>, x: int, y: int)
    requires x in ids && y in ids && x != y
    ensures Rank(ids, x) != Rank(ids, y)
    ensures Rank(ids, x) < Rank(ids, y) <==> exists i :: 0 <= i < |ids| && ids[i] == x && y !in ids[..i]
  {
    var k := |ids| - 1;
    var rest := ids[..k];
    assert ids == rest + [ids[k]];
    if x in rest {
      RankInRange(rest, x);
    }
    if y in rest {
      RankInRange(rest, y);
    }
    assert forall i | 0 <= i <= k :: rest[..i] == ids[..i];
    if x in rest && y in rest {
      RankIsInjective(rest, x, y);
    } else if x in rest {
      var i :| 0 <= i < k && rest[i] == x;
      assert ids[i] == x && y !in ids[..i];
    } else if y in rest {
      assert y in ids[..k];
    }
  }

  /** The numbers fill the range from 0. */
  lemma {:induction false} RankIsDense(ids: seq<int>, v: nat) returns (x: int)
    requires v < NumDistinct(ids)
    ensures x in ids && Rank(ids, x) == v
  {
    var k := |ids| - 1;
    var rest := ids[..k];
    if v < NumDistinct(rest) {
      x := RankIsDense(rest, v);
    } else {
      x := ids[k];
    }
  }

  lemma RankAppend(ids: seq<int>, v: int)
    ensures NumDistinct(ids + [v]) == NumDistinct(ids) + if v in ids then 0 else 1
    ensures forall x | x in ids :: Rank(ids + [v], x) == Rank(ids, x)
    ensures v !in ids ==> Rank(ids + [v], v) == NumDistinct(ids)
  {
    assert (ids + [v])[..|ids|] == ids;
  }

  function IdsOf<I, O>(events: seq<Event<I, O>>): (ids: seq<int>)
    ensures |ids| == |events| && forall i | 0 <= i < |ids| :: ids[i] == events[i].id
  {
    seq(|events|, i requires 0 <= i < |events| => events[i].id)
  }

  /** `m` has the numbers of the ids seen so far. */
  ghost predicate Numbered(m: map<int, int>, ids: seq<int>) {
    (forall x :: x in m <==> x in ids) && forall x | x in ids :: m[x] == Rank(ids, x)
  }

  lemma NothingSeen()
    ensures NumDistinct([]) == 0 && Numbered(map[], [])
  {
  }

  lemma SeeOne(m: map<int, int>, ids: seq<int>, v: int)
    requires Numbered(m, ids)
    ensures v in m <==> v in ids
    ensures NumDistinct(ids + [v]) == NumDistinct(ids) + if v in ids then 0 else 1
    ensures Numbered(if v in m then m else m[v := NumDistinct(ids)], ids + [v])
  {
    hide Rank, NumDistinct;
    RankAppend(ids, v);
  }

  lemma AllNumbered(m: map<int, int>, ids: seq<int>, x: int)
    requires Numbered(m, ids) && x in m
    ensures x in ids && m[x] == Rank(ids, x)
  {
  }

  method Renumber<I, O>(events: seq<Event<I, O>>) returns (e: seq<Event<I, O>>)
    ensures IsRenumbering(events, e)
  {
    hide Rank, NumDistinct, Numbered;
    e := [];
    NothingSeen();
    var m: map<int, int> := map[];
    var id := 0;
    ghost var ids: seq<int> := [];
    for i := 0 to |events|
      invariant |e| == i && ids == IdsOf(events)[..i] && id == NumDistinct(ids)
      invariant Numbered(m, ids)
      invariant forall j | 0 <= j < i :: events[j].id in m && e[j] == events[j].(id := m[events[j].id])
    {
      var v := events[i];
      ghost var ids' := ids + [v.id];
      SeeOne(m, ids, v.id);
      if v.id in m {
        e := e + [v.(id := m[v.id])];
      } else {
        e := e + [v.(id := id)];
        m := m[v.id := id];
        id := id + 1;
      }
      ids := ids';
    }
    assert IdsOf(events)[..|events|] == IdsOf(events);
    forall i | 0 <= i < |e| ensures events[i].id in IdsOf(events) && e[i] == events[i].(id := Rank(IdsOf(events), events[i].id)) {
      AllNumbered(m, ids, events[i].id);
    }
  }

  // ---- conversion ----

  function Converted<I, O>(ev: Event<I, O>, i: nat): Entry<I, O> {
    match ev
    case CallEvent(c, input, id) => CallEntry(input, id, i, c)
    case ReturnEvent(c, output, id) => ReturnEntry(output, id, i, c)
  }

  method ConvertEntries<I, O>(events: seq<Event<I, O>>) returns (entries: seq<Entry<I, O>>)
    ensures |entries| == |events| && forall i | 0 <= i < |events| :: entries[i] == Converted(events[i], i)
  {
    entries := [];
    for i := 0 to |events|
      invariant |entries| == i && forall j | 0 <= j < i :: entries[j] == Converted(events[j], j)
    {
      var elem := events[i];
      if elem.ReturnEvent? {
        entries := entries + [ReturnEntry(elem.output, elem.id, i, elem.clientId)];
      } else {
        entries := entries + [CallEntry(elem.input, elem.id, i, elem.clientId)];
      }
    }
  }

  // ---- the result is a well-formed history ----

  /** Each id has exactly one call and, later, exactly one return. */
  ghost predicate Paired<I, O>(events: seq<Event<I, O>>) {
    && (forall i, j | 0 <= i < j < |events| && events[i].id == events[j].id :: events[i].CallEvent? && events[j].ReturnEvent?)
    && (forall i | 0 <= i < |events| && events[i].CallEvent? :: exists j :: i < j < |events| && events[j].id == events[i].id)
    && (forall j | 0 <= j < |events| && events[j].ReturnEvent? :: exists i :: 0 <= i < j && events[i].id == events[j].id)
  }

  ghost predicate IsRenumbering<I, O>(events: seq<Event<I, O>>, e: seq<Event<I, O>>) {
    && |e| == |events|
    && forall i | 0 <= i < |e| :: events[i].id in IdsOf(events) && e[i] == events[i].(id := Rank(IdsOf(events), events[i].id))
  }

  lemma {:induction false} InjectiveImage(s: set<nat>, f: nat -> nat)
    requires forall a, b | a in s && b in s && f(a) == f(b) :: a == b
    ensures |set a | a in s :: f(a)| == |s|
  {
    if s != {} {
      var x :| x in s;
      var rest := s - {x};
      InjectiveImage(rest, f);
      assert (set a | a in s :: f(a)) == (set a | a in rest :: f(a)) + {f(x)};
    }
  }

  ghost predicate Occurs<I, O>(e: seq<Event<I, O>>, v: int) {
    exists i :: 0 <= i < |e| && e[i].id == v
  }

  /** The same pattern of calls, returns and equal ids, with ids exactly 0 to n - 1. */
  ghost predicate Dense<I, O>(events: seq<Event<I, O>>, e: seq<Event<I, O>>, n: nat) {
    && |e| == |events|
    && (forall i | 0 <= i < |e| :: 0 <= e[i].id < n && e[i].CallEvent? == events[i].CallEvent?)
    && (forall i, j | 0 <= i < |e| && 0 <= j < |e| :: e[i].id == e[j].id <==> events[i].id == events[j].id)
    && (forall v | 0 <= v < n :: Occurs(e, v))
  }

  /** Renumbering is injective on ids, keeps the pattern, and maps onto a range from 0. */
  lemma RenumberingIsDense<I, O>(events: seq<Event<I, O>>, e: seq<Event<I, O>>)
    requires IsRenumbering(events, e)
    ensures Dense(events, e, NumDistinct(IdsOf(events)))
  {
    hide Rank, NumDistinct;
    var ids := IdsOf(events);
    forall i | 0 <= i < |e| ensures 0 <= e[i].id < NumDistinct(ids) {
      RankInRange(ids, events[i].id);
    }
    forall i, j | 0 <= i < |e| && 0 <= j < |e| ensures e[i].id == e[j].id <==> events[i].id == events[j].id {
      if events[i].id != events[j].id {
        RankIsInjective(ids, events[i].id, events[j].id);
      }
    }
    forall v | 0 <= v < NumDistinct(ids) ensures Occurs(e, v) {
      var x := RankIsDense(ids, v);
      var i :| 0 <= i < |ids| && ids[i] == x;
      assert e[i].id == v;
    }
  }

  lemma PairedStays<I, O>(events: seq<Event<I, O>>, e: seq<Event<I, O>>, n: nat)
    requires Paired(events) && Dense(events, e, n)
    ensures Paired(e)
  {
    forall i | 0 <= i < |e| && e[i].CallEvent? ensures exists j :: i < j < |e| && e[j].id == e[i].id {
      var j :| i < j < |events| && events[j].id == events[i].id;
      assert e[j].id == e[i].id;
    }
    forall j | 0 <= j < |e| && e[j].ReturnEvent? ensures exists i :: 0 <= i < j && e[i].id == e[j].id {
      var i :| 0 <= i < j && events[i].id == events[j].id;
      assert e[i].id == e[j].id;
    }
  }

  lemma PairFor<I, O>(e: seq<Event<I, O>>, v: int) returns (i: nat, j: nat)
    requires Paired(e) && Occurs(e, v)
    ensures i < j < |e| && e[i].CallEvent? && e[j].ReturnEvent? && e[i].id == e[j].id == v
  {
    var k :| 0 <= k < |e| && e[k].id == v;
    if e[k].CallEvent? {
      i := k;
      j :| i < j < |e| && e[j].id == e[i].id;
    } else {
      j := k;
      i :| 0 <= i < j && e[i].id == e[j].id;
    }
  }

  ghost function Places<I, O>(e: seq<Event<I, O>>, call: bool): set<nat> {
    set i: nat | i < |e| && e[i].CallEvent? == call
  }

  lemma OneKindOnce<I, O>(e: seq<Event<I, O>>, call: bool, a: nat, b: nat)
    requires Paired(e) && a in Places(e, call) && b in Places(e, call) && e[a].id == e[b].id
    ensures a == b
  {
  }

  lemma {:induction false} OneOfEach<I, O>(e: seq<Event<I, O>>, n: nat, call: bool)
    requires Paired(e) && Dense(e, e, n)
    ensures |Places(e, call)| == n
  {
    hide Paired, Occurs;
    var s := Places(e, call);
    var id: nat -> nat := (i: nat) => if i < |e| && e[i].id >= 0 then e[i].id else 0;
    forall a, b | a in s && b in s && id(a) == id(b) ensures a == b {
      OneKindOnce(e, call, a, b);
    }
    InjectiveImage(s, id);
    var image := set i | i in s :: id(i);
    forall v: nat | v < n ensures v in image {
      var i, j := PairFor(e, v);
      var k := if call then i else j;
      assert k in s && id(k) == v;
    }
    SubsetOfRange(image, n);
    SupersetOfRange(image, n);
  }

  /** With ids 0 to n - 1, each with a call and a return, there are 2n events. */
  lemma PairedCount<I, O>(e: seq<Event<I, O>>, n: nat)
    requires Paired(e) && Dense(e, e, n)
    ensures |e| == 2 * n
  {
    hide Paired, Dense;
    OneOfEach(e, n, true);
    OneOfEach(e, n, false);
    var all := Places(e, true) + Places(e, false);
    assert Places(e, true) !! Places(e, false);
    SubsetOfRange(all, |e|);
    SupersetOfRange(all, |e|);
  }

  lemma {:induction false} PositionOf<I, O>(e: seq<Event<I, O>>, h: seq<Entry<I, O>>, i: nat)
    requires Paired(e) && |h| == |e| && forall k | 0 <= k < |e| :: h[k] == Converted(e[k], k)
    requires i < |h|
    ensures Position(h, h[i].CallEntry?, h[i].id) == i
  {
    hide Paired, Position;
    var p := Position(h, h[i].CallEntry?, h[i].id);
    assert p <= i && h[p].CallEntry? == h[i].CallEntry? && h[p].id == h[i].id;
    assert h[p] == Converted(e[p], p) && h[i] == Converted(e[i], i);
    assert p in Places(e, h[i].CallEntry?) && i in Places(e, h[i].CallEntry?);
    OneKindOnce(e, h[i].CallEntry?, p, i);
  }

  /** Renumbered and converted, paired events are a well-formed history. */
  lemma EventsAreWellFormed<I, O>(events: seq<Event<I, O>>, e: seq<Event<I, O>>, h: seq<Entry<I, O>>)
    requires Paired(events) && IsRenumbering(events, e)
    requires |h| == |e| && forall i | 0 <= i < |e| :: h[i] == Converted(e[i], i)
    ensures WellFormed(h)
  {
    hide IsRenumbering, NumDistinct, IdsOf, Paired, Position, Occurs;
    var n := NumDistinct(IdsOf(events));
    RenumberingIsDense(events, e);
    PairedStays(events, e, n);
    PairedCount(e, n);
    forall i | 0 <= i < |h| ensures 0 <= h[i].id < n && Position(h, h[i].CallEntry?, h[i].id) == i {
      PositionOf(e, h, i);
    }
    forall id | 0 <= id < n ensures Position(h, true, id) < Position(h, false, id) < |h| {
      var i, j := PairFor(e, id);
      PositionOf(e, h, i);
      PositionOf(e, h, j);
    }
  }
}
