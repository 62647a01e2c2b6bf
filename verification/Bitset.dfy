/** The bitset of linearized operations, and the finite set of ids it stands for. */
module Bitset {
  import opened Arithmetic

  /** A 64-bit unsigned word, given by its bits, the lowest first. */
  type Word = w: seq<bool> | |w| == 64 witness seq(64, _ => false)

  function Or(v: Word, w: Word): Word {
    seq(64, k requires 0 <= k < 64 => v[k] || w[k])
  }

  function AndNot(v: Word, w: Word): Word {
    seq(64, k requires 0 <= k < 64 => v[k] && !w[k])
  }

  function Xor(v: Word, w: Word): Word {
    seq(64, k requires 0 <= k < 64 => v[k] != w[k])
  }

  function OneShiftedBy(minor: nat): Word {
    seq(64, k requires 0 <= k < 64 => k == minor)
  }

  const ZERO: Word := seq(64, _ => false)

  function Pow2(k: nat): nat {
    if k == 0 then 1 else 2 * Pow2(k - 1)
  }

  lemma {:induction k} Pow2Positive(k: nat)
    ensures Pow2(k) > 0
  {
  }

  /** Conversion from an integer, modulo 2^64. */
  function ToWord(n: nat): Word {
    seq(64, k requires 0 <= k < 64 => Pow2Positive(k); n / Pow2(k) % 2 == 1)
  }

  /** The number given by the lowest `k` bits. */
  function ValueBelow(w: Word, k: nat): nat
    requires k <= 64
  {
    if k == 0 then 0 else ValueBelow(w, k - 1) + if w[k - 1] then Pow2(k - 1) else 0
  }

  lemma NextBit(n: nat, p: nat)
    requires p > 0
    ensures n % (2 * p) == n % p + if n / p % 2 == 1 then p else 0
  {
    var q, r := n / p, n % p;
    assert n == p * q + r;
    var h, b := q / 2, q % 2;
    assert q == 2 * h + b;
    assert p * q == 2 * p * h + p * b;
    Remainder(n, 2 * p, h, p * b + r);
  }

  /** The word of a number has its value modulo 2^64. */
  lemma {:induction false} WordHasValue(n: nat, k: nat)
    requires k <= 64
    ensures Pow2(k) > 0 && ValueBelow(ToWord(n), k) == n % Pow2(k)
  {
    Pow2Positive(k);
    if k > 0 {
      WordHasValue(n, k - 1);
      NextBit(n, Pow2(k - 1));
    }
  }

  /** Position `p` is bit `p % 64` of word `p / 64`. */
  ghost function Members(b: seq<Word>): set<nat> {
    set p: nat | p < 64 * |b| && b[p / 64][p % 64]
  }

  /** Bitsets of the same length with the same members are equal word by word. */
  lemma MembersDetermine(a: seq<Word>, b: seq<Word>)
    requires |a| == |b| && Members(a) == Members(b)
    ensures a == b
  {
    forall i | 0 <= i < |a| ensures a[i] == b[i] {
      forall k: nat | k < 64 ensures a[i][k] == b[i][k] {
        var p := 64 * i + k;
        assert p / 64 == i && p % 64 == k;
        assert p in Members(a) <==> p in Members(b);
      }
    }
  }

  method New(bits: nat) returns (b: array<Word>)
    ensures fresh(b) && bits <= 64 * b.Length < bits + 64
    ensures Members(b[..]) == {}
  {
    var extra := if bits % 64 != 0 then 1 else 0;
    b := new Word[bits / 64 + extra](_ => ZERO);
  }

  method Clone(b: array<Word>) returns (c: array<Word>)
    ensures fresh(c) && c[..] == b[..]
  {
    c := new Word[b.Length](i requires 0 <= i < b.Length reads b => b[i]);
  }

  method Set(b: array<Word>, pos: nat)
    requires pos < 64 * b.Length
    modifies b
    ensures Members(b[..]) == old(Members(b[..])) + {pos}
  {
    var major, minor := pos / 64, pos % 64;
    b[major] := Or(b[major], OneShiftedBy(minor));
  }

  method Clear(b: array<Word>, pos: nat)
    requires pos < 64 * b.Length
    modifies b
    ensures Members(b[..]) == old(Members(b[..])) - {pos}
  {
    var major, minor := pos / 64, pos % 64;
    b[major] := AndNot(b[major], OneShiftedBy(minor));
  }

  method Get(b: array<Word>, pos: nat) returns (r: bool)
    requires pos < 64 * b.Length
    ensures r <==> pos in Members(b[..])
  {
    r := b[pos / 64][pos % 64];
  }

  // ---- counting, hashing, comparing ----

  /** The number of one bits among the lowest `k`. */
  function OnesBelow(w: Word, k: nat): (n: nat)
    requires k <= 64
  {
    if k == 0 then 0 else OnesBelow(w, k - 1) + if w[k - 1] then 1 else 0
  }

  ghost function MembersBelow(b: seq<Word>, n: nat): set<nat>
    requires n <= 64 * |b|
  {
    set p: nat | p < n && b[p / 64][p % 64]
  }

  lemma OneMore(b: seq<Word>, i: nat, k: nat)
    requires i < |b| && k < 64
    ensures |MembersBelow(b, 64 * i + k + 1)| == |MembersBelow(b, 64 * i + k)| + if b[i][k] then 1 else 0
  {
    var p := 64 * i + k;
    assert p / 64 == i && p % 64 == k;
    assert MembersBelow(b, p + 1) == MembersBelow(b, p) + if b[i][k] then {p} else {};
  }

  lemma {:induction false} CountWord(b: seq<Word>, i: nat, k: nat)
    requires i < |b| && k <= 64
    ensures |MembersBelow(b, 64 * i + k)| == |MembersBelow(b, 64 * i)| + OnesBelow(b[i], k)
  {
    if k > 0 {
      hide MembersBelow;
      CountWord(b, i, k - 1);
      OneMore(b, i, k - 1);
    }
  }

  method Popcnt(b: array<Word>) returns (total: nat)
    ensures total == |Members(b[..])|
  {
    total := 0;
    assert MembersBelow(b[..], 0) == {};
    for i := 0 to b.Length
      invariant total == |MembersBelow(b[..], 64 * i)|
    {
      CountWord(b[..], i, 64);
      total := total + OnesBelow(b[i], 64);
    }
    assert MembersBelow(b[..], 64 * b.Length) == Members(b[..]);
  }

  function XorAll(start: Word, b: seq<Word>): Word {
    if b == [] then start else Xor(XorAll(start, b[..|b| - 1]), b[|b| - 1])
  }

  ghost function HashOf(b: seq<Word>): Word {
    XorAll(ToWord(|Members(b)|), b)
  }

  /** The number of words with bit `k` set. */
  function WordsWith(b: seq<Word>, k: nat): nat
    requires k < 64
  {
    if b == [] then 0 else WordsWith(b[..|b| - 1], k) + if b[|b| - 1][k] then 1 else 0
  }

  lemma {:induction false} XorBit(start: Word, b: seq<Word>, k: nat)
    requires k < 64
    ensures XorAll(start, b)[k] <==> (WordsWith(b, k) + if start[k] then 1 else 0) % 2 == 1
  {
    if b != [] {
      XorBit(start, b[..|b| - 1], k);
    }
  }

  /** Bit `k` of the hash is the parity of that bit over the number of members and all words. */
  lemma HashBit(b: seq<Word>, k: nat)
    requires k < 64
    ensures HashOf(b)[k] <==> (WordsWith(b, k) + if ToWord(|Members(b)|)[k] then 1 else 0) % 2 == 1
  {
    hide XorAll, ToWord, Members;
    XorBit(ToWord(|Members(b)|), b, k);
  }

  method Hash(b: array<Word>) returns (hash: Word)
    ensures hash == HashOf(b[..])
  {
    var count := Popcnt(b);
    hash := ToWord(count);
    for i := 0 to b.Length
      invariant hash == XorAll(ToWord(count), b[..i])
    {
      assert b[..i + 1][..i] == b[..i];
      hash := Xor(hash, b[i]);
    }
    assert b[..b.Length] == b[..];
  }

  method Equals(a: array<Word>, b: array<Word>) returns (r: bool)
    ensures r <==> a[..] == b[..]
    ensures a.Length == b.Length ==> (r <==> Members(a[..]) == Members(b[..]))
  {
    if a.Length != b.Length {
      return false;
    }
    for i := 0 to a.Length
      invariant a[..i] == b[..i]
    {
      if a[i] != b[i] {
        assert a[..][i] != b[..][i];
        if Members(a[..]) == Members(b[..]) {
          MembersDetermine(a[..], b[..]);
        }
        return false;
      }
    }
    assert a[..a.Length] == b[..b.Length];
    return true;
  }
}
