/** A history as the checker sees it: call and return entries in time order. */
module Entries {
  import opened Linearizability

  datatype Entry<+I, +O> =
    | CallEntry(input: I, id: int, time: int, clientId: int)
    | ReturnEntry(output: O, id: int, time: int, clientId: int)

  /** Where the call (or return) of `id` stands; `|h|` when there is none. */
  function Position<I, O>(h: seq<Entry<I, O>>, call: bool, id: int): (p: nat)
    ensures p <= |h|
    ensures p < |h| ==> h[p].CallEntry? == call && h[p].id == id
    ensures forall j | 0 <= j < p :: !(h[j].CallEntry? == call && h[j].id == id)
  {
    if h == [] then 0
    else if h[0].CallEntry? == call && h[0].id == id then 0
    else 1 + Position(h[1..], call, id)
  }

  /** Each id below the number of operations has exactly one call, followed later by exactly one return. */
  ghost predicate WellFormed<I, O>(h: seq<Entry<I, O>>) {
    && |h| % 2 == 0
    && (forall i | 0 <= i < |h| :: 0 <= h[i].id < |h| / 2 && Position(h, h[i].CallEntry?, h[i].id) == i)
    && (forall id | 0 <= id < |h| / 2 :: Position(h, true, id) < Position(h, false, id) < |h|)
  }

  /** The operations of a well-formed history, by id, with entry positions as times. */
  ghost function OpsOf<I, O>(h: seq<Entry<I, O>>): (ops: seq<Operation<I, O>>)
    requires WellFormed(h)
    ensures |ops| == |h| / 2
    ensures forall id | 0 <= id < |ops| ::
      var c, r := Position(h, true, id), Position(h, false, id);
      ops[id] == Operation(h[c].clientId, h[c].input, c, h[r].output, r)
  {
    seq(|h| / 2, id requires 0 <= id < |h| / 2 =>
      var c, r := Position(h, true, id), Position(h, false, id);
      Operation(h[c].clientId, h[c].input, c, h[r].output, r))
  }
}
