/** The doubly linked list of entries: building it, and taking call/return pairs out and back in.

    Positions number the nodes from the head, which is 0, and `|nodes|` stands for nil.  `trail`
    lists the positions taken out so far, oldest first.  A node that was taken out keeps the links
    it had at that moment, which is what makes the way back possible.  */
module LinkedEntries {
  import opened Linearizability
  import opened Entries

  datatype Value<+I, +O> = Nil | Input(i: I) | Output(o: O)

  class Node<I, O> {
    const value: Value<I, O>
    const matching: Node?<I, O>   // the return node of a call, nil for a return
    const id: int
    var next: Node?<I, O>
    var prev: Node?<I, O>

    constructor (value: Value<I, O>, matching: Node?<I, O>, id: int)
      ensures this.value == value && this.matching == matching && this.id == id
      ensures next == null && prev == null
    {
      this.value, this.matching, this.id := value, matching, id;
      next, prev := null, null;
    }
  }

  function Next(gone: set<int>, len: nat, p: int): (q: int)
    requires 0 <= p < len
    ensures p < q <= len
    ensures q < len ==> q !in gone
    ensures forall k | p < k < q :: k in gone
    decreases len - p
  {
    if p + 1 == len || p + 1 !in gone then p + 1 else Next(gone, len, p + 1)
  }

  function Prev(gone: set<int>, p: int): (q: int)
    requires 0 <= p
    ensures -1 <= q < p
    ensures 0 <= q ==> q !in gone
    ensures forall k | q < k < p :: k in gone
    decreases p
  {
    if p == 0 || p - 1 !in gone then p - 1 else Prev(gone, p - 1)
  }

  lemma NextSkips(gone: set<int>, len: nat, p: int, q: int)
    requires 0 <= p < len && 0 <= q < len && q !in gone && p !in gone && p != q
    ensures Next(gone + {q}, len, p) == if Prev(gone, q) == p then Next(gone, len, q) else Next(gone, len, p)
    ensures Next(gone, len, p) == q <==> Prev(gone, q) == p
  {
  }

  lemma PrevSkips(gone: set<int>, len: nat, p: int, q: int)
    requires 0 <= p < len && 0 <= q < len && q !in gone && p !in gone && p != q
    ensures Prev(gone + {q}, p) == if Next(gone, len, q) == p then Prev(gone, q) else Prev(gone, p)
    ensures Next(gone, len, q) == p <==> Prev(gone, p) == q
  {
  }

  /** `trail` lists positions taken out of a list of `len` nodes; the head always stays. */
  ghost predicate Trail(len: nat, trail: seq<int>) {
    && 0 < len
    && (forall k | 0 <= k < |trail| :: 0 < trail[k] < len)
    && Distinct(trail)
  }

  /** The positions that were out when `p` left the list, or that are out now if it never did. */
  ghost function GoneBefore(trail: seq<int>, p: int): (gone: set<int>)
    ensures p !in gone && gone <= Elements(trail)
    ensures p !in trail ==> gone == Elements(trail)
  {
    if trail == [] then {}
    else
      var rest := trail[..|trail| - 1];
      assert Elements(trail) == Elements(rest) + {trail[|trail| - 1]};
      if p in rest || p == trail[|trail| - 1] then GoneBefore(rest, p) else Elements(trail)
  }

  lemma GoneBeforeAppend(trail: seq<int>, p: int, q: int)
    ensures GoneBefore(trail + [p], q) == if q in trail || q == p then GoneBefore(trail, q) else Elements(trail) + {p}
  {
    assert (trail + [p])[..|trail|] == trail;
    assert Elements(trail + [p]) == Elements(trail) + {p};
  }

  ghost function NextIn(len: nat, trail: seq<int>, p: int): int
    requires 0 <= p < len
  {
    Next(GoneBefore(trail, p), len, p)
  }

  ghost function PrevIn(trail: seq<int>, p: int): int
    requires 0 <= p
  {
    Prev(GoneBefore(trail, p), p)
  }

  lemma TakeOutNext(len: nat, trail: seq<int>, p: int, q: int)
    requires Trail(len, trail) && 0 < p < len && p !in trail && 0 <= q < len
    ensures NextIn(len, trail + [p], q) == if q == PrevIn(trail, p) then NextIn(len, trail, p) else NextIn(len, trail, q)
    ensures q == PrevIn(trail, p) ==> NextIn(len, trail, q) == p
  {
    GoneBeforeAppend(trail, p, q);
    if q !in trail && q != p {
      NextSkips(Elements(trail), len, q, p);
    }
  }

  lemma TakeOutPrev(len: nat, trail: seq<int>, p: int, q: int)
    requires Trail(len, trail) && 0 < p < len && p !in trail && 0 <= q < len
    ensures PrevIn(trail + [p], q) == if q == NextIn(len, trail, p) then PrevIn(trail, p) else PrevIn(trail, q)
    ensures q == NextIn(len, trail, p) ==> PrevIn(trail, q) == p
  {
    GoneBeforeAppend(trail, p, q);
    if q !in trail && q != p {
      PrevSkips(Elements(trail), len, q, p);
    }
  }

  ghost function NextLinks(len: nat, trail: seq<int>): seq<int> {
    seq(len, p requires 0 <= p < len => NextIn(len, trail, p))
  }

  ghost function PrevLinks(len: nat, trail: seq<int>): seq<int> {
    seq(len, p requires 0 <= p < len => PrevIn(trail, p))
  }

  lemma LinksInRange(len: nat, trail: seq<int>, p: int)
    requires 0 <= p < len
    ensures p < NextLinks(len, trail)[p] <= len
    ensures -1 <= PrevLinks(len, trail)[p] < p
    ensures Trail(len, trail) && 0 < p ==> 0 <= PrevLinks(len, trail)[p]
  {
    assert Trail(len, trail) ==> 0 !in GoneBefore(trail, p);
  }

  /** Taking out `p` changes one forward and one backward link; putting it back undoes that. */
  lemma TakeOutLinks(len: nat, trail: seq<int>, p: int)
    requires Trail(len, trail) && 0 < p < len && p !in trail
    ensures Trail(len, trail + [p])
    ensures var nx, pv := NextLinks(len, trail), PrevLinks(len, trail);
      var a, b := pv[p], nx[p];
      && 0 <= a < p < b <= len
      && nx[a] == p
      && (b < len ==> pv[b] == p)
      && NextLinks(len, trail + [p]) == nx[a := b]
      && PrevLinks(len, trail + [p]) == if b < len then pv[b := a] else pv
  {
    var nx, pv := NextLinks(len, trail), PrevLinks(len, trail);
    var nx', pv' := NextLinks(len, trail + [p]), PrevLinks(len, trail + [p]);
    var a, b := pv[p], nx[p];
    LinksInRange(len, trail, p);
    forall q | 0 <= q < len ensures nx'[q] == nx[a := b][q] && (q == a ==> nx[q] == p) {
      TakeOutNext(len, trail, p, q);
    }
    forall q | 0 <= q < len ensures pv'[q] == (if q == b then a else pv[q]) && (q == b ==> pv[q] == p) {
      TakeOutPrev(len, trail, p, q);
    }
  }

  lemma TrailAppend(len: nat, trail: seq<int>, p: int)
    requires Trail(len, trail) && p !in trail && 0 < p < len
    ensures Trail(len, trail + [p])
  {
  }

  lemma TrailPrefix(len: nat, trail: seq<int>, p: int)
    requires Trail(len, trail + [p])
    ensures Trail(len, trail) && p !in trail && 0 < p < len
  {
    var longer := trail + [p];
    assert longer[|trail|] == p && forall k | 0 <= k < |trail| :: longer[k] == trail[k];
  }

  lemma PutBackLinks(len: nat, trail: seq<int>, p: int)
    requires Trail(len, trail + [p])
    ensures Trail(len, trail) && p !in trail && 0 < p < len
    ensures var nx, pv := NextLinks(len, trail + [p]), PrevLinks(len, trail + [p]);
      var a, b := pv[p], nx[p];
      && 0 <= a < p < b <= len
      && NextLinks(len, trail) == nx[a := p]
      && PrevLinks(len, trail) == if b < len then pv[b := p] else pv
  {
    TrailPrefix(len, trail, p);
    TakeOutLinks(len, trail, p);
  }

  ghost function At<I, O>(nodes: seq<Node<I, O>>, p: int): Node?<I, O> {
    if 0 <= p < |nodes| then nodes[p] else null
  }

  ghost predicate Linked<I, O>(nodes: seq<Node<I, O>>, nx: seq<int>, pv: seq<int>)
    reads nodes
  {
    && |nx| == |pv| == |nodes|
    && (forall p | 0 <= p < |nodes| :: nodes[p].next == At(nodes, nx[p]))
    && (forall p | 0 <= p < |nodes| :: nodes[p].prev == At(nodes, pv[p]))
  }

  lemma PlaceOf<I, O>(nodes: seq<Node<I, O>>, a: int)
    requires Distinct(nodes) && 0 <= a < |nodes|
    ensures At(nodes, a) == nodes[a] && forall q | 0 <= q < |nodes| && q != a :: nodes[q] != nodes[a]
  {
  }

  /** One pointer write: the node at position `a` gets the one at `b` as its successor. */
  method SetNext<I, O>(n: Node<I, O>, next: Node?<I, O>, ghost nodes: seq<Node<I, O>>, ghost nx: seq<int>, ghost pv: seq<int>, ghost a: int, ghost b: int)
    requires Linked(nodes, nx, pv) && Distinct(nodes) && 0 <= a < |nodes| && n == nodes[a] && next == At(nodes, b)
    modifies n
    ensures Linked(nodes, nx[a := b], pv)
  {
    PlaceOf(nodes, a);
    hide Distinct, At;
    n.next := next;
  }

  method SetPrev<I, O>(n: Node<I, O>, prev: Node?<I, O>, ghost nodes: seq<Node<I, O>>, ghost nx: seq<int>, ghost pv: seq<int>, ghost a: int, ghost b: int)
    requires Linked(nodes, nx, pv) && Distinct(nodes) && 0 <= a < |nodes| && n == nodes[a] && prev == At(nodes, b)
    modifies n
    ensures Linked(nodes, nx, pv[a := b])
  {
    PlaceOf(nodes, a);
    hide Distinct, At;
    n.prev := prev;
  }

  lemma LinksOf<I, O>(nodes: seq<Node<I, O>>, nx: seq<int>, pv: seq<int>, p: int)
    requires Linked(nodes, nx, pv) && 0 <= p < |nodes|
    ensures |nx| == |pv| == |nodes| && nodes[p].next == At(nodes, nx[p]) && nodes[p].prev == At(nodes, pv[p])
    ensures nodes[p] == At(nodes, p)
    ensures nodes[p].next != null <==> 0 <= nx[p] < |nodes|
    ensures 0 <= nx[p] < |nodes| ==> nodes[p].next == nodes[nx[p]]
    ensures 0 <= pv[p] < |nodes| ==> nodes[p].prev == nodes[pv[p]]
  {
  }

  /** The pointer writes that bypass `n`. */
  method Unlink<I, O>(n: Node<I, O>, ghost nodes: seq<Node<I, O>>, ghost nx: seq<int>, ghost pv: seq<int>, ghost p: int)
    requires Linked(nodes, nx, pv) && Distinct(nodes)
    requires 0 <= p < |nodes| == |nx| == |pv| && n == nodes[p] && 0 <= pv[p] < p < nx[p]
    modifies nodes
    ensures Linked(nodes, nx[pv[p] := nx[p]], if nx[p] < |nodes| then pv[nx[p] := pv[p]] else pv)
  {
    hide *;
    ghost var a, b := pv[p], nx[p];
    LinksOf(nodes, nx, pv, p);
    SetNext(n.prev, n.next, nodes, nx, pv, a, b);
    LinksOf(nodes, nx[a := b], pv, p);
    if n.next != null {
      SetPrev(n.next, n.prev, nodes, nx[a := b], pv, b, a);
    }
  }

  /** The pointer writes that make the neighbours of `n` point to it again. */
  method Relink<I, O>(n: Node<I, O>, ghost nodes: seq<Node<I, O>>, ghost nx: seq<int>, ghost pv: seq<int>, ghost p: int)
    requires Linked(nodes, nx, pv) && Distinct(nodes)
    requires 0 <= p < |nodes| == |nx| == |pv| && n == nodes[p] && 0 <= pv[p] < p < nx[p]
    modifies nodes
    ensures Linked(nodes, nx[pv[p] := p], if nx[p] < |nodes| then pv[nx[p] := p] else pv)
  {
    hide *;
    ghost var a, b := pv[p], nx[p];
    LinksOf(nodes, nx, pv, p);
    SetNext(n.prev, n, nodes, nx, pv, a, p);
    LinksOf(nodes, nx[a := p], pv, p);
    if n.next != null {
      SetPrev(n.next, n, nodes, nx[a := p], pv, b, p);
    }
  }

  /** The list holds exactly the positions not in `trail`, linked both ways, and every node of the
      trail still has the links it had when it was taken out.  */
  ghost predicate ListInv<I, O>(nodes: seq<Node<I, O>>, trail: seq<int>)
    reads nodes
  {
    && Distinct(nodes)
    && Trail(|nodes|, trail)
    && Linked(nodes, NextLinks(|nodes|, trail), PrevLinks(|nodes|, trail))
  }

  /** Following `next` from a node. */
  lemma NextOf<I, O>(nodes: seq<Node<I, O>>, trail: seq<int>, p: int)
    requires ListInv(nodes, trail) && 0 <= p < |nodes|
    ensures nodes[p].next == At(nodes, NextLinks(|nodes|, trail)[p])
  {
    hide NextLinks, PrevLinks;
  }

  method TakeOut<I, O>(n: Node<I, O>, ghost nodes: seq<Node<I, O>>, ghost trail: seq<int>, ghost p: int)
    requires ListInv(nodes, trail)
    requires 0 < p < |nodes| && p !in trail && n == nodes[p]
    modifies nodes
    ensures ListInv(nodes, trail + [p])
  {
    TakeOutLinks(|nodes|, trail, p);
    Unlink(n, nodes, NextLinks(|nodes|, trail), PrevLinks(|nodes|, trail), p);
  }

  method PutBack<I, O>(n: Node<I, O>, ghost nodes: seq<Node<I, O>>, ghost trail: seq<int>, ghost p: int)
    requires ListInv(nodes, trail + [p])
    requires 0 < p < |nodes| && n == nodes[p]
    modifies nodes
    ensures ListInv(nodes, trail)
  {
    PutBackLinks(|nodes|, trail, p);
    Relink(n, nodes, NextLinks(|nodes|, trail + [p]), PrevLinks(|nodes|, trail + [p]), p);
  }

  /** `a` is the position of a call still in the list and `b` that of its return. */
  ghost predicate IsPair<I, O>(nodes: seq<Node<I, O>>, trail: seq<int>, entry: Node<I, O>, a: int, b: int) {
    && 0 < a < b < |nodes| && a !in trail && b !in trail
    && entry == nodes[a] && entry.matching == nodes[b]
  }

  /** Takes a call and its return out of the list.  The call always has a successor. */
  method Lift<I, O>(entry: Node<I, O>, ghost nodes: seq<Node<I, O>>, ghost trail: seq<int>, ghost a: int, ghost b: int)
    requires ListInv(nodes, trail) && IsPair(nodes, trail, entry, a, b)
    modifies nodes
    ensures ListInv(nodes, trail + [a] + [b])
  {
    CallHasSuccessor(nodes, trail, a, b);
    assert entry.next != null;
    TakeOut(entry, nodes, trail, a);
    TakeOut(entry.matching, nodes, trail + [a], b);
  }

  /** Puts the pair that was taken out last back where it was. */
  method Unlift<I, O>(entry: Node<I, O>, ghost nodes: seq<Node<I, O>>, ghost trail: seq<int>, ghost a: int, ghost b: int)
    requires ListInv(nodes, trail + [a] + [b]) && IsPair(nodes, trail, entry, a, b)
    modifies nodes
    ensures ListInv(nodes, trail)
    ensures entry.next != null
  {
    PutBack(entry.matching, nodes, trail + [a], b);
    PutBack(entry, nodes, trail, a);
    CallHasSuccessor(nodes, trail, a, b);
  }

  lemma CallHasSuccessor<I, O>(nodes: seq<Node<I, O>>, trail: seq<int>, a: int, b: int)
    requires ListInv(nodes, trail) && 0 <= a < b < |nodes| && a !in trail && b !in trail
    ensures nodes[a].next != null
  {
    assert b !in Elements(trail);
    assert NextLinks(|nodes|, trail)[a] <= b;
  }

  // ---- building the list ----

  function ValueOf<I, O>(e: Entry<I, O>): Value<I, O> {
    match e
    case CallEntry(input, _, _, _) => Input(input)
    case ReturnEntry(output, _, _, _) => Output(output)
  }

  /** `nodes[k]` carries entry `h[k]`, and a call is matched with the first return of its id that follows. */
  ghost predicate NodeFor<I, O>(nodes: seq<Node<I, O>>, h: seq<Entry<I, O>>, k: int)
    requires 0 <= k < |h| == |nodes|
  {
    && nodes[k].id == h[k].id
    && nodes[k].value == ValueOf(h[k])
    && nodes[k].matching == if h[k].ReturnEntry? then null else At(nodes, k + Position(h[k..], false, h[k].id))
  }

  ghost predicate Chained<I, O>(nodes: seq<Node<I, O>>)
    reads nodes
  {
    && Distinct(nodes)
    && forall k | 0 <= k < |nodes| :: nodes[k].next == At(nodes, k + 1) && nodes[k].prev == At(nodes, k - 1)
  }

  method InsertBefore<I, O>(n: Node<I, O>, mark: Node?<I, O>)
    requires n.next == null && n.prev == null && n != mark && (mark != null ==> mark.prev != n)
    modifies n, mark, if mark != null then {mark.prev} else {}
    ensures n.next == mark && n.prev == if mark == null then null else old(mark.prev)
    ensures mark != null ==> mark.prev == n && (old(mark.prev) == null ==> mark.next == old(mark.next))
    ensures mark != null && old(mark.prev) != null ==> old(mark.prev).next == n
  {
    if mark != null {
      var beforeMark := mark.prev;
      mark.prev := n;
      n.next := mark;
      if beforeMark != null {
        n.prev := beforeMark;
        beforeMark.next := n;
      }
    }
  }

  /** A new node in front of a list. */
  method Prepend<I, O>(
    value: Value<I, O>, matching: Node?<I, O>, id: int, root: Node?<I, O>, ghost nodes: seq<Node<I, O>>)
    returns (entry: Node<I, O>)
    requires Chained(nodes) && root == At(nodes, 0)
    modifies nodes
    ensures fresh(entry) && entry.value == value && entry.matching == matching && entry.id == id
    ensures Chained([entry] + nodes)
  {
    entry := new Node(value, matching, id);
    InsertBefore(entry, root);
    ghost var longer := [entry] + nodes;
    forall k | 0 <= k < |longer| ensures longer[k].next == At(longer, k + 1) && longer[k].prev == At(longer, k - 1) {
      if k > 0 {
        assert longer[k] == nodes[k - 1];
      }
    }
  }

  lemma PrependNode<I, O>(nodes: seq<Node<I, O>>, h: seq<Entry<I, O>>, n: Node<I, O>, e: Entry<I, O>)
    requires |nodes| == |h| && forall k | 0 <= k < |h| :: NodeFor(nodes, h, k)
    requires n.id == e.id && n.value == ValueOf(e)
    requires n.matching == if e.ReturnEntry? then null else At(nodes, Position(h, false, e.id))
    ensures forall k | 0 <= k <= |h| :: NodeFor([n] + nodes, [e] + h, k)
  {
    hide NodeFor;
    var nodes', h' := [n] + nodes, [e] + h;
    forall k | 0 <= k < |h'| ensures NodeFor(nodes', h', k) {
      if k > 0 {
        ShiftNode(nodes, h, n, e, k - 1);
      } else {
        FirstNode(nodes, h, n, e);
      }
    }
  }

  lemma ShiftNode<I, O>(nodes: seq<Node<I, O>>, h: seq<Entry<I, O>>, n: Node<I, O>, e: Entry<I, O>, k: nat)
    requires k < |h| == |nodes| && NodeFor(nodes, h, k)
    ensures NodeFor([n] + nodes, [e] + h, k + 1)
  {
    hide Position;
    assert ([e] + h)[k + 1..] == h[k..] && ([e] + h)[k + 1] == h[k];
  }

  lemma FirstNode<I, O>(nodes: seq<Node<I, O>>, h: seq<Entry<I, O>>, n: Node<I, O>, e: Entry<I, O>)
    requires |nodes| == |h| && n.id == e.id && n.value == ValueOf(e)
    requires n.matching == if e.ReturnEntry? then null else At(nodes, Position(h, false, e.id))
    ensures NodeFor([n] + nodes, [e] + h, 0)
  {
    var h' := [e] + h;
    assert h'[1..] == h && h'[0..] == h';
  }

  /** The match map holds, for each id, the node of its first return. */
  ghost predicate MatchesFor<I, O>(matches: map<int, Node<I, O>>, nodes: seq<Node<I, O>>, h: seq<Entry<I, O>>) {
    forall id :: (if id in matches then matches[id] else null) == At(nodes, Position(h, false, id))
  }

  lemma PrependMatches<I, O>(
    matches: map<int, Node<I, O>>, nodes: seq<Node<I, O>>, h: seq<Entry<I, O>>, n: Node<I, O>, e: Entry<I, O>)
    requires MatchesFor(matches, nodes, h) && |nodes| == |h|
    ensures MatchesFor(if e.ReturnEntry? then matches[e.id := n] else matches, [n] + nodes, [e] + h)
  {
    var matches', nodes', h' := if e.ReturnEntry? then matches[e.id := n] else matches, [n] + nodes, [e] + h;
    assert h'[1..] == h;
    forall id ensures (if id in matches' then matches'[id] else null) == At(nodes', Position(h', false, id)) {
      assert (if id in matches then matches[id] else null) == At(nodes, Position(h, false, id));
    }
  }

  lemma MatchOf<I, O>(matches: map<int, Node<I, O>>, nodes: seq<Node<I, O>>, h: seq<Entry<I, O>>, id: int)
    requires MatchesFor(matches, nodes, h)
    ensures (if id in matches then matches[id] else null) == At(nodes, Position(h, false, id))
  {
  }

  method MakeLinkedEntries<I, O>(h: seq<Entry<I, O>>) returns (root: Node?<I, O>, ghost nodes: seq<Node<I, O>>)
    ensures |nodes| == |h| && root == At(nodes, 0)
    ensures Chained(nodes) && forall k | 0 <= k < |nodes| :: fresh(nodes[k])
    ensures forall k | 0 <= k < |h| :: NodeFor(nodes, h, k)
  {
    hide Position, NodeFor, Chained, MatchesFor, ValueOf;
    root, nodes := null, [];
    var matches: map<int, Node<I, O>> := map[];
    ghost var rest: seq<Entry<I, O>> := [];
    NothingYet<I, O>();
    var i := |h|;
    while i > 0
      invariant 0 <= i <= |h| && rest == h[i..]
      invariant |nodes| == |rest| && root == At(nodes, 0)
      invariant Chained(nodes) && forall k | 0 <= k < |nodes| :: fresh(nodes[k])
      invariant forall k | 0 <= k < |nodes| :: NodeFor(nodes, rest, k)
      invariant MatchesFor(matches, nodes, rest)
    {
      i := i - 1;
      var elem := h[i];
      var entry;
      MatchOf(matches, nodes, rest, elem.id);
      ghost var before := matches;
      if elem.ReturnEntry? {
        entry := Prepend(ValueOf(elem), null, elem.id, root, nodes);
        matches := matches[elem.id := entry];
      } else {
        entry := Prepend(ValueOf(elem), if elem.id in matches then matches[elem.id] else null, elem.id, root, nodes);
      }
      PrependNode(nodes, rest, entry, elem);
      PrependMatches(before, nodes, rest, entry, elem);
      root, nodes, rest := entry, [entry] + nodes, [elem] + rest;
    }
  }

  lemma NothingYet<I, O>()
    ensures MatchesFor<I, O>(map[], [], []) && Chained<I, O>([])
  {
  }

  method Length<I, O>(n: Node?<I, O>, ghost nodes: seq<Node<I, O>>) returns (l: nat)
    requires Chained(nodes) && n == At(nodes, 0)
    ensures l == |nodes|
  {
    l := 0;
    var m := n;
    while m != null
      invariant l <= |nodes| && m == At(nodes, l)
      decreases |nodes| - l
    {
      m := m.next;
      l := l + 1;
    }
  }
}
