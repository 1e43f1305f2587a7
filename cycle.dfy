/**
  Index arithmetic of the about-section work carousel and the profile image
  switcher: step forward or back modulo the number of items, and the row of
  indicator dots of which the current one is highlighted.

  JavaScript's `%` truncates toward zero while Dafny's is Euclidean; the two
  agree here because every operand is non-negative (`prev + 1` and
  `prev - 1 + n` with `0 <= prev` and `n > 0`).
 */
module Cycle {

  /** `(i + 1) % n`. With `n == 0` JavaScript yields `NaN`, so `n > 0` is required. */
  function Next(i: nat, n: nat): (r: nat)
    requires n > 0
    ensures r < n
    ensures i < n ==> r == if i == n - 1 then 0 else i + 1
  {
    (i + 1) % n
  }

  /** `(i - 1 + n) % n`. With `n == 0` JavaScript yields `NaN`, so `n > 0` is required. */
  function Prev(i: nat, n: nat): (r: nat)
    requires n > 0
    ensures r < n
    ensures i < n ==> r == if i == 0 then n - 1 else i - 1
  {
    (i - 1 + n) % n
  }

  /** Stepping back undoes stepping forward. */
  lemma PrevAfterNext(i: nat, n: nat)
    requires i < n
    ensures Prev(Next(i, n), n) == i
  {
  }

  /** Stepping forward undoes stepping back. */
  lemma NextAfterPrev(i: nat, n: nat)
    requires i < n
    ensures Next(Prev(i, n), n) == i
  {
  }

  /** `k` successive `Next` steps from `i`. */
  function Advance(i: nat, n: nat, k: nat): (r: nat)
    requires n > 0
  {
    if k == 0 then i else Next(Advance(i, n, k - 1), n)
  }

  /** Steps compose: `a` steps then `b` steps is `a + b` steps. */
  lemma {:induction false} AdvanceAdd(i: nat, n: nat, a: nat, b: nat)
    requires n > 0
    ensures Advance(i, n, a + b) == Advance(Advance(i, n, a), n, b)
  {
    if b > 0 {
      AdvanceAdd(i, n, a, b - 1);
    }
  }

  /** Without reaching the end, `k` steps forward simply add `k`. */
  lemma {:induction false} AdvanceWithinRange(i: nat, n: nat, k: nat)
    requires i + k < n
    ensures Advance(i, n, k) == i + k
  {
    if k > 0 {
      AdvanceWithinRange(i, n, k - 1);
    }
  }

  /** `n` steps forward go once round the carousel and come back to the start. */
  lemma FullCycle(i: nat, n: nat)
    requires i < n
    ensures Advance(i, n, n) == i
  {
    AdvanceWithinRange(i, n, n - 1 - i);
    assert Advance(i, n, n - i) == 0;
    AdvanceAdd(i, n, n - i, i);
    AdvanceWithinRange(0, n, i);
  }

  /** The indicator dots `index === current` for `index` in `[0, n)`. */
  function Dots(current: nat, n: nat): (d: seq<bool>)
    ensures |d| == n
    ensures forall k :: 0 <= k < n ==> (d[k] <==> k == current)
  {
    seq(n, k => k == current)
  }

  /** Exactly one dot is active when the current index is in range, and none otherwise. */
  lemma {:induction false} ExactlyOneDot(current: nat, n: nat)
    ensures multiset(Dots(current, n))[true] == if current < n then 1 else 0
  {
    if n > 0 {
      ExactlyOneDot(current, n - 1);
      assert Dots(current, n) == Dots(current, n - 1) + [n - 1 == current];
    }
  }
}
