/** The least distance between the bitwise or of a subarray and a number. */
module SubarrayOr {
  const MAX_INT: int := 0x7FFF_FFFF_FFFF_FFFF
  const WRAP: int := 0x1_0000_0000_0000_0000

  predicate IsInt64(x: int) {
    -MAX_INT - 1 <= x <= MAX_INT
  }

  type Word = x: int | IsInt64(x)

  /** The number in the 64-bit range that is equal modulo 2^64. */
  function Wrapped(x: int): int {
    var r := x % WRAP;
    if r <= MAX_INT then r else r - WRAP
  }

  function Abs64(x: int): int {
    if x <= 0 then Wrapped(-x) else x
  }

  /** abs(v - k) in 64-bit arithmetic. */
  function Diff(v: Word, k: Word): int {
    Abs64(Wrapped(v - k))
  }

  /** |v - k| */
  function Distance(v: int, k: int): nat {
    if v < k then k - v else v - k
  }

  /** What the 64-bit computation gives instead when the distance does not fit. */
  lemma DiffOf(v: Word, k: Word)
    ensures Diff(v, k) == if Distance(v, k) <= MAX_INT then Distance(v, k)
                          else if Distance(v, k) == MAX_INT + 1 then -MAX_INT - 1
                          else WRAP - Distance(v, k)
  {
    assert IsInt64(v) && IsInt64(k);
    var d := v - k;
    WrapOnce(d);
    WrapOnce(-Wrapped(d));
  }

  lemma WrapOnce(x: int)
    requires -WRAP < x < WRAP
    ensures Wrapped(x) == if x > MAX_INT then x - WRAP else if x < -MAX_INT - 1 then x + WRAP else x
  {
    assert x % WRAP == if x < 0 then x + WRAP else x;
  }

  /** The 64-bit computation gives the true distance exactly when the distance fits. */
  lemma DiffIsDistance(v: Word, k: Word)
    ensures Diff(v, k) == Distance(v, k) <==> Distance(v, k) <= MAX_INT
  {
    DiffOf(v, k);
  }

  // ---- bitwise or ----

  function Size(x: int): nat {
    if x >= 0 then x else -x - 1
  }

  /** The or of the lowest bits. */
  function LowBit(x: int, y: int): int {
    if x % 2 == 1 || y % 2 == 1 then 1 else 0
  }

  /** Bitwise or in two's complement: 0 has only zero bits, -1 only one bits. */
  function BitOr(x: int, y: int): int
    decreases Size(x) + Size(y)
  {
    if Size(x) + Size(y) == 0 then (if x == -1 || y == -1 then -1 else 0)
    else 2 * BitOr(x / 2, y / 2) + LowBit(x, y)
  }

  lemma OrHalf(x: int, y: int)
    ensures BitOr(x, y) / 2 == BitOr(x / 2, y / 2) && BitOr(x, y) % 2 == LowBit(x, y)
  {
  }

  /** Bit `k` of a number in two's complement. */
  function Bit(x: int, k: nat): bool
    decreases k
  {
    if k == 0 then x % 2 == 1 else Bit(x / 2, k - 1)
  }

  /** The or has exactly the bits that one of the numbers has. */
  lemma {:induction false} OrBits(x: int, y: int, k: nat)
    ensures Bit(BitOr(x, y), k) <==> Bit(x, k) || Bit(y, k)
    decreases k
  {
    hide BitOr;
    OrHalf(x, y);
    if k > 0 {
      OrBits(x / 2, y / 2, k - 1);
    }
  }

  lemma {:induction false} OrSelf(x: int)
    ensures BitOr(x, x) == x
    decreases Size(x)
  {
    if Size(x) > 0 {
      OrSelf(x / 2);
    }
  }

  lemma {:induction false} OrCommutes(x: int, y: int)
    ensures BitOr(x, y) == BitOr(y, x)
    decreases Size(x) + Size(y)
  {
    if Size(x) + Size(y) > 0 {
      OrCommutes(x / 2, y / 2);
    }
  }

  lemma OrEnds(x: int, y: int)
    requires Size(x) + Size(y) == 0
    ensures BitOr(x, y) == if x == -1 || y == -1 then -1 else 0
  {
  }

  lemma AssociatesEnds(x: int, y: int, z: int)
    requires Size(x) + Size(y) + Size(z) == 0
    ensures BitOr(BitOr(x, y), z) == BitOr(x, BitOr(y, z))
  {
    hide BitOr;
    OrEnds(x, y);
    OrEnds(y, z);
    OrEnds(BitOr(x, y), z);
    OrEnds(x, BitOr(y, z));
  }

  lemma SameHalves(x: int, y: int)
    requires x / 2 == y / 2 && x % 2 == y % 2
    ensures x == y
  {
  }

  lemma LowBitAssociates(x: int, y: int, z: int, xy: int, yz: int)
    requires xy % 2 == LowBit(x, y) && yz % 2 == LowBit(y, z)
    ensures LowBit(xy, z) == LowBit(x, yz)
  {
  }

  lemma {:induction false} OrAssociates(x: int, y: int, z: int)
    ensures BitOr(BitOr(x, y), z) == BitOr(x, BitOr(y, z))
    decreases Size(x) + Size(y) + Size(z)
  {
    hide BitOr, LowBit;
    if Size(x) + Size(y) + Size(z) == 0 {
      AssociatesEnds(x, y, z);
    } else {
      OrAssociates(x / 2, y / 2, z / 2);
      hide Size;
      OrHalf(x, y);
      OrHalf(y, z);
      LowBitAssociates(x, y, z, BitOr(x, y), BitOr(y, z));
      OrHalf(BitOr(x, y), z);
      OrHalf(x, BitOr(y, z));
      SameHalves(BitOr(BitOr(x, y), z), BitOr(x, BitOr(y, z)));
    }
  }

  function Pow2(n: nat): int {
    if n == 0 then 1 else 2 * Pow2(n - 1)
  }

  /** A word or a word is a word; the or of two non-negative numbers is at least each of them. */
  lemma {:induction false} OrBounds(x: int, y: int, n: nat)
    requires -Pow2(n) <= x < Pow2(n) && -Pow2(n) <= y < Pow2(n)
    ensures -Pow2(n) <= BitOr(x, y) < Pow2(n)
    ensures 0 <= x && 0 <= y ==> x <= BitOr(x, y) && y <= BitOr(x, y)
    decreases n
  {
    if n > 0 {
      OrBounds(x / 2, y / 2, n - 1);
      OrHalf(x, y);
      hide BitOr;
    }
  }

  lemma EightMore(n: nat)
    ensures Pow2(n + 8) == 256 * Pow2(n)
  {
    assert Pow2(n + 4) == 16 * Pow2(n) by {
      assert Pow2(n + 2) == 4 * Pow2(n);
    }
    assert Pow2(n + 6) == 4 * Pow2(n + 4);
  }

  lemma Pow2Of63()
    ensures Pow2(63) == MAX_INT + 1
  {
    assert Pow2(7) == 128 by {
      assert Pow2(3) == 8 && Pow2(5) == 32;
    }
    hide Pow2;
    EightMore(7);
    EightMore(15);
    EightMore(23);
    EightMore(31);
    EightMore(39);
    EightMore(47);
    EightMore(55);
  }

  lemma OrIsWord(x: Word, y: Word)
    ensures IsInt64(BitOr(x, y))
    ensures 0 <= x && 0 <= y ==> x <= BitOr(x, y) && y <= BitOr(x, y)
  {
    hide BitOr;
    assert IsInt64(x) && IsInt64(y);
    Pow2Of63();
    hide Pow2;
    OrBounds(x, y, 63);
  }

  function WordOr(x: Word, y: Word): Word {
    OrIsWord(x, y);
    BitOr(x, y)
  }

  lemma OrTwice(x: int, y: int)
    ensures BitOr(BitOr(x, y), y) == BitOr(x, y)
  {
    hide BitOr;
    OrAssociates(x, y, y);
    OrSelf(y);
  }

  lemma OrBoth(big: int, small: int, x: int)
    requires BitOr(big, small) == big
    ensures BitOr(BitOr(big, x), BitOr(small, x)) == BitOr(big, x)
  {
    hide BitOr;
    OrAssociates(big, x, BitOr(small, x));
    OrCommutes(x, BitOr(small, x));
    OrTwice(small, x);
    OrAssociates(big, small, x);
  }

  lemma Absorb(big: int, small: int, x: int)
    requires BitOr(big, small) == big && BitOr(small, x) == small
    ensures BitOr(big, x) == big
  {
    hide BitOr;
    OrAssociates(big, small, x);
  }

  // ---- subarrays ----

  /** The bitwise or of a[l..r], both ends included. */
  ghost function Or(a: seq<Word>, l: nat, r: nat): Word
    requires l <= r < |a|
  {
    if l == r then a[r] else WordOr(Or(a, l, r - 1), a[r])
  }

  /** A longer subarray with the same end has all the bits of a shorter one. */
  lemma {:induction false} OrGrows(a: seq<Word>, l: nat, j: nat, r: nat)
    requires l <= j <= r < |a|
    ensures BitOr(Or(a, l, r), Or(a, j, r)) == Or(a, l, r)
  {
    hide BitOr;
    if j < r {
      OrGrows(a, l, j, r - 1);
      OrBoth(Or(a, l, r - 1), Or(a, j, r - 1), a[r]);
    } else if l < r {
      OrTwice(Or(a, l, r - 1), a[r]);
    } else {
      OrSelf(a[r]);
    }
  }

  /** The early exit is sound: once a[r] adds nothing to the subarray from `j`, it adds nothing to any
      that starts earlier.  */
  lemma NothingNewBefore(a: seq<Word>, l: nat, j: nat, r: nat)
    requires l <= j < r < |a| && BitOr(Or(a, j, r - 1), a[r]) == Or(a, j, r - 1)
    ensures Or(a, l, r) == Or(a, l, r - 1)
  {
    hide BitOr;
    OrGrows(a, l, j, r - 1);
    Absorb(Or(a, l, r - 1), Or(a, j, r - 1), a[r]);
  }

  // ---- the minimum so far ----

  /** The subarrays seen: those ending before `i`, and those ending at `i` that start after `j`. */
  ghost predicate Seen(i: int, j: int, l: nat, r: nat) {
    l <= r && (r < i || (r == i && j < l))
  }

  /** `ans` is the least difference of the subarrays seen. */
  ghost predicate Least(a: seq<Word>, k: Word, i: int, j: int, ans: int) {
    && (forall l: nat, r: nat | r < |a| && Seen(i, j, l, r) :: ans <= Diff(Or(a, l, r), k))
    && exists l: nat, r: nat :: r < |a| && Seen(i, j, l, r) && ans == Diff(Or(a, l, r), k)
  }

  function Min(x: int, y: int): int {
    if y < x then y else x
  }

  lemma SeeLast(a: seq<Word>, k: Word, i: nat, ans: int)
    requires i < |a| && if i == 0 then ans == MAX_INT else Least(a, k, i, i, ans)
    ensures Least(a, k, i, i - 1, Min(ans, Diff(a[i], k)))
  {
    DiffOf(a[i], k);
    hide Diff;
    assert Seen(i, i - 1, i, i) && Or(a, i, i) == a[i];
    if i > 0 && ans <= Diff(a[i], k) {
      var l: nat, r: nat :| r < |a| && Seen(i, i, l, r) && ans == Diff(Or(a, l, r), k);
      assert Seen(i, i - 1, l, r);
    }
    forall l: nat, r: nat | r < |a| && Seen(i, i - 1, l, r) ensures Min(ans, Diff(a[i], k)) <= Diff(Or(a, l, r), k) {
      assert r < i ==> Seen(i, i, l, r);
    }
  }

  lemma SeeOne(a: seq<Word>, k: Word, i: nat, j: nat, ans: int)
    requires j < i < |a| && Least(a, k, i, j, ans)
    ensures Least(a, k, i, j - 1, Min(ans, Diff(Or(a, j, i), k)))
  {
    hide Diff, Or;
    assert Seen(i, j - 1, j, i);
    var l: nat, r: nat :| r < |a| && Seen(i, j, l, r) && ans == Diff(Or(a, l, r), k);
    assert Seen(i, j - 1, l, r);
    forall l: nat, r: nat | r < |a| && Seen(i, j - 1, l, r) ensures Min(ans, Diff(Or(a, j, i), k)) <= Diff(Or(a, l, r), k) {
      assert (l == j && r == i) || Seen(i, j, l, r);
    }
  }

  lemma SeeRest(a: seq<Word>, k: Word, i: nat, j: int, ans: int)
    requires -1 <= j < i < |a| && Least(a, k, i, j, ans)
    requires forall l: nat | l <= j :: Or(a, l, i) == Or(a, l, i - 1)
    ensures Least(a, k, i + 1, i + 1, ans)
  {
    hide Diff, Or;
    var l: nat, r: nat :| r < |a| && Seen(i, j, l, r) && ans == Diff(Or(a, l, r), k);
    assert Seen(i + 1, i + 1, l, r);
    forall l: nat, r: nat | r < |a| && Seen(i + 1, i + 1, l, r) ensures ans <= Diff(Or(a, l, r), k) {
      assert Seen(i, j, l, r) || (r == i && l <= j && Seen(i, j, l, i - 1));
    }
  }

  lemma OrExtends(a: seq<Word>, l: nat, r: nat)
    requires l <= r < |a|
    ensures Or(a, r, r) == a[r]
    ensures l < r ==> Or(a, l, r) == WordOr(Or(a, l, r - 1), a[r])
  {
    hide WordOr;
  }

  lemma ExitIsSound(a: seq<Word>, j: int, i: nat)
    requires j < i < |a| && (0 <= j ==> WordOr(Or(a, j, i - 1), a[i]) == Or(a, j, i - 1))
    ensures forall l: nat | l <= j :: Or(a, l, i) == Or(a, l, i - 1)
  {
    hide BitOr, Or;
    forall l: nat | l <= j ensures Or(a, l, i) == Or(a, l, i - 1) {
      NothingNewBefore(a, l, j, i);
    }
  }

  /** What the array holds when the inner loop for element `i` has come down to `j`: up to `j` the or up
      to the element before `i`, from there to `i` the or up to `i`, behind `i` the original elements.  */
  ghost function Held(a: seq<Word>, i: int, j: int): (b: seq<Word>)
    requires -1 <= j <= i <= |a|
    ensures |b| == |a|
  {
    seq(|a|, l requires 0 <= l < |a| =>
      if l <= j && l < i then Or(a, l, i - 1) else if l <= i < |a| then Or(a, l, i) else a[l])
  }

  lemma HeldAt(a: seq<Word>, i: nat, j: int)
    requires -1 <= j < i < |a|
    ensures Held(a, i, j)[i] == a[i]
    ensures 0 <= j ==> Held(a, i, j)[j] == Or(a, j, i - 1)
    ensures 0 <= j ==> Or(a, j, i) == WordOr(Or(a, j, i - 1), a[i]) && Held(a, i, j)[j := Or(a, j, i)] == Held(a, i, j - 1)
  {
    OrExtends(a, i, i);
    if 0 <= j {
      OrExtends(a, j, i);
    }
    hide Or;
  }

  lemma HeldAtStart(a: seq<Word>)
    requires a != []
    ensures Held(a, 0, -1) == a
  {
  }

  /** The array at the end of the inner loop is the array at the beginning of the next one. */
  lemma HeldNext(a: seq<Word>, i: nat, j: int)
    requires -1 <= j < i < |a| && forall l: nat | l <= j :: Or(a, l, i) == Or(a, l, i - 1)
    ensures Held(a, i, j) == Held(a, i + 1, i)
  {
    if i + 1 < |a| {
      OrExtends(a, i + 1, i + 1);
    }
    hide Or;
  }

  /** Down to `j` the loop over element `i` has seen what `ans` says and left what the array holds. */
  ghost predicate InnerInv(a: seq<Word>, b: seq<Word>, k: Word, i: nat, j: int, ans: int) {
    -1 <= j < i < |a| && b == Held(a, i, j) && Least(a, k, i, j, ans)
  }

  ghost predicate OuterInv(a: seq<Word>, b: seq<Word>, k: Word, i: nat, ans: int) {
    && i <= |a|
    && if i == 0 then b == a && ans == MAX_INT else b == Held(a, i, i - 1) && Least(a, k, i, i, ans)
  }

  lemma BeginInner(a: seq<Word>, b: seq<Word>, k: Word, i: nat, ans: int)
    requires OuterInv(a, b, k, i, ans) && i < |a|
    ensures |b| == |a| && b[i] == a[i] && InnerInv(a, b, k, i, i - 1, Min(ans, Diff(a[i], k)))
  {
    hide Least, Diff, Min;
    SeeLast(a, k, i, ans);
    if i == 0 {
      HeldAtStart(a);
    } else {
      HeldAt(a, i, i - 1);
    }
    hide Held;
  }

  lemma StepInner(a: seq<Word>, b: seq<Word>, k: Word, i: nat, j: nat, ans: int)
    requires InnerInv(a, b, k, i, j, ans)
    ensures |b| == |a| && j < i < |a|
    ensures var v := WordOr(b[j], a[i]); InnerInv(a, b[j := v], k, i, j - 1, Min(ans, Diff(v, k)))
  {
    hide Least, Diff, Min, Or, WordOr, Held;
    HeldAt(a, i, j);
    SeeOne(a, k, i, j, ans);
  }

  lemma EndInner(a: seq<Word>, b: seq<Word>, k: Word, i: nat, j: int, ans: int)
    requires InnerInv(a, b, k, i, j, ans) && (0 <= j ==> |b| == |a| && WordOr(b[j], a[i]) == b[j])
    ensures OuterInv(a, b, k, i + 1, ans)
  {
    hide Least, Or, WordOr, Held;
    HeldAt(a, i, j);
    ExitIsSound(a, j, i);
    HeldNext(a, i, j);
    SeeRest(a, k, i, j, ans);
  }

  lemma EndOuter(a: seq<Word>, b: seq<Word>, k: Word, ans: int)
    requires OuterInv(a, b, k, |a|, ans)
    ensures |b| == |a| && forall l | 0 <= l < |a| :: b[l] == Or(a, l, |a| - 1)
    ensures if a == [] then ans == MAX_INT else Least(a, k, |a|, |a|, ans)
  {
    hide Least, Or;
  }

  /** The slot `j` takes up the element `i`, and the answer the new or. */
  method UpdateSlot(nums: array<Word>, k: Word, ghost a: seq<Word>, ghost i: nat, j: nat, x: Word, ans: int) returns (ans': int)
    requires InnerInv(a, nums[..], k, i, j, ans) && i < |a| && x == a[i] && j < nums.Length
    modifies nums
    ensures InnerInv(a, nums[..], k, i, j - 1, ans')
  {
    ghost var before := nums[..];
    StepInner(a, before, k, i, j, ans);
    hide *;
    nums[j] := WordOr(nums[j], x);
    assert nums[..] == before[j := nums[j]];
    ans' := Min(ans, Diff(nums[j], k));
  }

  /** The inner loop for element `i`. */
  method AddElement(nums: array<Word>, k: Word, ghost a: seq<Word>, i: nat, ans: int) returns (ans': int)
    requires OuterInv(a, nums[..], k, i, ans) && i < nums.Length == |a|
    modifies nums
    ensures OuterInv(a, nums[..], k, i + 1, ans')
  {
    hide *;
    var x := nums[i];
    BeginInner(a, nums[..], k, i, ans);
    ans' := Min(ans, Diff(x, k));
    var j := i - 1;
    while j >= 0 && WordOr(nums[j], x) != nums[j]
      invariant -1 <= j < i && x == a[i]
      invariant InnerInv(a, nums[..], k, i, j, ans')
    {
      ans' := UpdateSlot(nums, k, a, i, j, x, ans');
      j := j - 1;
    }
    EndInner(a, nums[..], k, i, j, ans');
  }

  lemma BeginOuter(a: seq<Word>, k: Word)
    ensures OuterInv(a, a, k, 0, MAX_INT)
  {
  }

  /** Returns the least difference over all subarrays; the array ends up with the or of every suffix. */
  method MinimumDifference(nums: array<Word>, k: Word) returns (ans: int)
    modifies nums
    ensures nums.Length == 0 ==> ans == MAX_INT
    ensures nums.Length > 0 ==> Least(old(nums[..]), k, nums.Length, nums.Length, ans)
    ensures forall l | 0 <= l < nums.Length :: nums[l] == Or(old(nums[..]), l, nums.Length - 1)
    ensures NonNegative(old(nums[..])) && nums.Length > 0 && Or(old(nums[..]), 0, nums.Length - 1) - k <= MAX_INT ==>
      LeastDistance(old(nums[..]), k, ans)
  {
    hide *;
    ghost var a := nums[..];
    ans := MAX_INT;
    BeginOuter(a, k);
    for i := 0 to nums.Length
      invariant OuterInv(a, nums[..], k, i, ans)
    {
      ans := AddElement(nums, k, a, i, ans);
    }
    EndOuter(a, nums[..], k, ans);
    if NonNegative(a) && a != [] && Or(a, 0, |a| - 1) - k <= MAX_INT {
      AnswerIsLeastDistance(a, k, ans);
    }
  }

  // ---- the true least distance ----

  ghost predicate NonNegative(a: seq<Word>) {
    forall i | 0 <= i < |a| :: 0 <= a[i]
  }

  /** Every distance of a subarray's or from `k` is at least `d`, and one of them is `d`. */
  ghost predicate LeastDistance(a: seq<Word>, k: Word, d: int) {
    && (forall l: nat, r: nat | l <= r < |a| :: d <= Distance(Or(a, l, r), k))
    && exists l: nat, r: nat :: l <= r < |a| && d == Distance(Or(a, l, r), k)
  }

  /** For non-negative numbers, the or of a subarray is at least its last element and at most the or of all. */
  lemma {:induction false} OrAtLeast(a: seq<Word>, l: nat, r: nat)
    requires NonNegative(a) && l <= r < |a|
    ensures 0 <= a[r] <= Or(a, l, r)
    decreases r
  {
    hide BitOr;
    if l < r {
      OrAtLeast(a, l, r - 1);
      OrIsWord(Or(a, l, r - 1), a[r]);
    }
  }

  lemma {:induction false} OrAtMost(a: seq<Word>, l: nat, r: nat, n: nat)
    requires NonNegative(a) && l <= r <= n < |a|
    ensures Or(a, l, r) <= Or(a, 0, n)
    decreases n - r
  {
    hide BitOr;
    if r < n {
      OrAtLeast(a, l, r);
      OrIsWord(Or(a, l, r), a[r + 1]);
      assert Or(a, l, r + 1) == WordOr(Or(a, l, r), a[r + 1]);
      OrAtMost(a, l, r + 1, n);
    } else {
      OrAtLeast(a, l, r);
      OrAtLeast(a, 0, r);
      OrGrows(a, 0, l, r);
      OrIsWord(Or(a, 0, r), Or(a, l, r));
    }
  }

  lemma OrBetween(a: seq<Word>, l: nat, r: nat)
    requires NonNegative(a) && l <= r < |a|
    ensures 0 <= a[r] <= Or(a, l, r) <= Or(a, 0, |a| - 1) <= MAX_INT
  {
    assert IsInt64(Or(a, 0, |a| - 1));
    hide Or;
    OrAtLeast(a, l, r);
    OrAtMost(a, l, r, |a| - 1);
  }

  /** For non-negative numbers, no subarray's distance overflows exactly when the distance of the or of all
      numbers does not.  */
  lemma AllDistancesExact(a: seq<Word>, k: Word)
    requires NonNegative(a) && a != []
    ensures (forall l: nat, r: nat | l <= r < |a| :: Diff(Or(a, l, r), k) == Distance(Or(a, l, r), k)) <==>
      Or(a, 0, |a| - 1) - k <= MAX_INT
  {
    hide Or, Diff, NonNegative;
    var all := Or(a, 0, |a| - 1);
    OrBetween(a, 0, |a| - 1);
    DiffIsDistance(all, k);
    assert IsInt64(k);
    if all - k <= MAX_INT {
      forall l: nat, r: nat | l <= r < |a| ensures Diff(Or(a, l, r), k) == Distance(Or(a, l, r), k) {
        OrBetween(a, l, r);
        DiffIsDistance(Or(a, l, r), k);
      }
    }
  }

  /** Then the answer is the least true distance. */
  lemma AnswerIsLeastDistance(a: seq<Word>, k: Word, ans: int)
    requires NonNegative(a) && a != [] && Least(a, k, |a|, |a|, ans) && Or(a, 0, |a| - 1) - k <= MAX_INT
    ensures LeastDistance(a, k, ans)
  {
    hide Or, Diff, NonNegative, Distance;
    AllDistancesExact(a, k);
    forall l: nat, r: nat | l <= r < |a| ensures ans <= Distance(Or(a, l, r), k) {
      assert Seen(|a|, |a|, l, r);
    }
    var l: nat, r: nat :| r < |a| && Seen(|a|, |a|, l, r) && ans == Diff(Or(a, l, r), k);
    assert ans == Distance(Or(a, l, r), k);
  }

  ghost predicate IsSmallest(a: seq<Word>, lo: Word) {
    lo in a && forall i | 0 <= i < |a| :: lo <= a[i]
  }

  /** Overflow can also be harmless: every wrapped distance is still at least the distance of the smallest number. */
  ghost predicate HarmlessOverflow(a: seq<Word>, k: Word, lo: Word)
    requires a != []
  {
    && lo - k <= MAX_INT
    && (Or(a, 0, |a| - 1) - k) + (lo - k) <= WRAP
    && forall l: nat, r: nat | l <= r < |a| :: Or(a, l, r) - k != MAX_INT + 1
  }

  lemma SmallestDistance(a: seq<Word>, k: Word, lo: Word)
    requires NonNegative(a) && a != [] && IsSmallest(a, lo) && k < 0
    ensures LeastDistance(a, k, lo - k)
  {
    hide Or, NonNegative;
    forall l: nat, r: nat | l <= r < |a| ensures lo - k <= Distance(Or(a, l, r), k) {
      OrBetween(a, l, r);
    }
    var i: nat :| i < |a| && a[i] == lo;
    OrExtends(a, i, i);
    OrBetween(a, i, i);
    assert lo - k == Distance(Or(a, i, i), k);
  }

  lemma LeastIsUnique(a: seq<Word>, k: Word, d: int, e: int)
    requires LeastDistance(a, k, d) && LeastDistance(a, k, e)
    ensures d == e
  {
    hide Or, Distance;
  }

  lemma HarmlessIsRight(a: seq<Word>, k: Word, ans: int, lo: Word)
    requires NonNegative(a) && a != [] && IsSmallest(a, lo) && Least(a, k, |a|, |a|, ans)
    requires k < 0 && HarmlessOverflow(a, k, lo)
    ensures ans == lo - k
  {
    hide Or, Diff, NonNegative;
    forall l: nat, r: nat | l <= r < |a| ensures lo - k <= Diff(Or(a, l, r), k) {
      OrBetween(a, l, r);
      DiffOf(Or(a, l, r), k);
    }
    var i: nat :| i < |a| && a[i] == lo;
    OrExtends(a, i, i);
    OrBetween(a, i, i);
    DiffIsDistance(lo, k);
    assert Seen(|a|, |a|, i, i);
  }

  lemma RightIsHarmless(a: seq<Word>, k: Word, ans: int, lo: Word)
    requires NonNegative(a) && a != [] && IsSmallest(a, lo) && Least(a, k, |a|, |a|, ans)
    requires k < 0 && ans == lo - k && Or(a, 0, |a| - 1) - k > MAX_INT
    ensures HarmlessOverflow(a, k, lo)
  {
    hide Or, Diff, NonNegative;
    forall l: nat, r: nat | l <= r < |a| ensures Or(a, l, r) - k != MAX_INT + 1 && ans <= Diff(Or(a, l, r), k) {
      OrBetween(a, l, r);
      DiffOf(Or(a, l, r), k);
      assert Seen(|a|, |a|, l, r);
    }
    OrBetween(a, 0, |a| - 1);
    DiffOf(Or(a, 0, |a| - 1), k);
  }

  /** For non-negative numbers the answer is the least true distance exactly when no distance overflows
      or every overflow is harmless.  */
  lemma AnswerIsRightExactly(a: seq<Word>, k: Word, ans: int, lo: Word)
    requires NonNegative(a) && a != [] && IsSmallest(a, lo) && Least(a, k, |a|, |a|, ans)
    ensures LeastDistance(a, k, ans) <==> Or(a, 0, |a| - 1) - k <= MAX_INT || HarmlessOverflow(a, k, lo)
  {
    hide Or, Diff, NonNegative, LeastDistance, Least, HarmlessOverflow, IsSmallest;
    if Or(a, 0, |a| - 1) - k <= MAX_INT {
      AnswerIsLeastDistance(a, k, ans);
    } else {
      OrBetween(a, 0, |a| - 1);
      SmallestDistance(a, k, lo);
      if HarmlessOverflow(a, k, lo) {
        HarmlessIsRight(a, k, ans, lo);
      }
      if LeastDistance(a, k, ans) {
        LeastIsUnique(a, k, ans, lo - k);
        RightIsHarmless(a, k, ans, lo);
      }
    }
  }

  /** An input with a wrong answer: for the largest number alone and -1 the answer is negative. */
  lemma OverflowGivesNegative(ans: int)
    requires Least([MAX_INT], -1, 1, 1, ans)
    ensures ans == -MAX_INT - 1 && NonNegative([MAX_INT]) && !LeastDistance([MAX_INT], -1, ans)
  {
    var a: seq<Word> := [MAX_INT];
    DiffOf(MAX_INT, -1);
    assert Or(a, 0, 0) == MAX_INT;
    hide Diff;
  }
}
