/**
 * The wrap-around index arithmetic both front-end scripts use for slides,
 * carousel items and the lightbox catalog: `(i + 1) % n` forwards and
 * `(i - 1 + n) % n` backwards. Every index the scripts pass here is
 * non-negative, and on non-negative operands JavaScript's truncating `%`
 * agrees with Dafny's Euclidean `%`.
 */
module Ring {

  /** One step forwards, wrapping from the last index to 0. */
  function Next(i: nat, n: nat): (j: nat)
    requires n > 0
    ensures j < n
    ensures i < n - 1 ==> j == i + 1
    ensures i == n - 1 ==> j == 0
  {
    (i + 1) % n
  }

  /** One step backwards, wrapping from 0 to the last index. */
  function Prev(i: nat, n: nat): (j: nat)
    requires n > 0
    ensures j < n
    ensures 0 < i < n ==> j == i - 1
    ensures i == 0 ==> j == n - 1
  {
    (i - 1 + n) % n
  }

  /** A step back undoes a step forwards. */
  lemma PrevNext(i: nat, n: nat)
    requires i < n
    ensures Prev(Next(i, n), n) == i
  {
  }

  /** A step forwards undoes a step back. */
  lemma NextPrev(i: nat, n: nat)
    requires i < n
    ensures Next(Prev(i, n), n) == i
  {
  }

  /** `k` steps forwards. */
  function Advance(i: nat, n: nat, k: nat): nat
    requires n > 0
  {
    if k == 0 then i else Next(Advance(i, n, k - 1), n)
  }

  /** Below the wrap, `k` steps forwards simply add `k`. */
  lemma {:induction false} AdvanceBelowWrap(i: nat, n: nat, k: nat)
    requires i + k < n
    ensures Advance(i, n, k) == i + k
  {
    if k > 0 {
      AdvanceBelowWrap(i, n, k - 1);
    }
  }

  /** `a + b` steps are `a` steps followed by `b` steps. */
  lemma {:induction false} AdvanceSplit(i: nat, n: nat, a: nat, b: nat)
    requires n > 0
    ensures Advance(i, n, a + b) == Advance(Advance(i, n, a), n, b)
  {
    if b > 0 {
      AdvanceSplit(i, n, a, b - 1);
    }
  }

  /** `n` steps forwards return to the start. */
  lemma FullCycle(i: nat, n: nat)
    requires i < n
    ensures Advance(i, n, n) == i
  {
    var toLast := n - 1 - i;
    AdvanceBelowWrap(i, n, toLast);
    AdvanceSplit(i, n, toLast, 1);
    AdvanceSplit(i, n, toLast + 1, i);
    AdvanceBelowWrap(0, n, i);
  }
}
