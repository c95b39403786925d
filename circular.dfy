/**
 * Circular index arithmetic shared by the testimonial carousel and the service
 * spotlight: both move an index over a fixed, non-empty list with JavaScript's `%`.
 */
module Circular {

  /** JavaScript's `a % n` for a positive divisor: the remainder takes the sign of `a`. */
  function JsRem(a: int, n: int): int
    requires n > 0
  {
    if a >= 0 then a % n else -((-a) % n)
  }

  /** `(i + 1) % n`: the following item, wrapping from the last to the first. */
  function Next(i: int, n: int): (r: int)
    requires 0 <= i < n
    ensures 0 <= r < n
    ensures r == if i == n - 1 then 0 else i + 1
  {
    JsRem(i + 1, n)
  }

  /** `(i - 1 + n) % n`: the preceding item, wrapping from the first to the last. */
  function Prev(i: int, n: int): (r: int)
    requires 0 <= i < n
    ensures 0 <= r < n
    ensures r == if i == 0 then n - 1 else i - 1
  {
    JsRem(i - 1 + n, n)
  }

  /** Going forward and then back (or back and then forward) returns to the same item. */
  lemma NextPrevInverse(i: int, n: int)
    requires 0 <= i < n
    ensures Prev(Next(i, n), n) == i
    ensures Next(Prev(i, n), n) == i
  {
  }

  /** The index reached from `i` after `k` consecutive forward steps. */
  function Advance(i: int, k: nat, n: int): (r: int)
    requires 0 <= i < n
    ensures 0 <= r < n
  {
    if k == 0 then i else Next(Advance(i, k - 1, n), n)
  }

  /** The remainder of `q * n + r` is `r` whenever `0 <= r < n`. */
  lemma RemainderOfMultiplePlus(q: int, n: int, r: int)
    requires n > 0 && 0 <= r < n
    ensures (q * n + r) % n == r
  {
    var a := q * n + r;
    var d := q - a / n;
    assert d * n == a % n - r;
    assert d == 0;
  }

  /** Stepping a non-negative number by one steps its remainder by one, wrapping at `n`. */
  lemma RemainderSuccessor(a: nat, n: int)
    requires n > 0
    ensures (a + 1) % n == if a % n == n - 1 then 0 else a % n + 1
  {
    var q, r := a / n, a % n;
    if r == n - 1 {
      assert a + 1 == (q + 1) * n + 0;
      RemainderOfMultiplePlus(q + 1, n, 0);
    } else {
      assert a + 1 == q * n + (r + 1);
      RemainderOfMultiplePlus(q, n, r + 1);
    }
  }

  /**
   * `k` forward steps from `i` land on `(i + k) mod n`: a timer that only ever steps
   * forward visits every item in turn and is back where it started after `n` steps.
   */
  lemma {:induction false} AdvanceIsOffset(i: int, k: nat, n: int)
    requires 0 <= i < n
    ensures Advance(i, k, n) == (i + k) % n
  {
    if k > 0 {
      AdvanceIsOffset(i, k - 1, n);
      RemainderSuccessor(i + k - 1, n);
    }
  }

  /** The control for item `i` is highlighted when it is the active item. */
  predicate Highlighted(active: int, i: int) {
    i == active
  }

  /** Of the `n` controls of a list, exactly one is highlighted: the active one. */
  lemma ExactlyOneHighlighted(active: int, n: int)
    requires 0 <= active < n
    ensures (set i | 0 <= i < n && Highlighted(active, i)) == {active}
  {
    var s := set i | 0 <= i < n && Highlighted(active, i);
    assert active in s;
  }
}
