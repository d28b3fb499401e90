/**
 * The `active` classes of a row of carousel items (slides, images, videos,
 * dots), seen as one flag per item in document order. Both front-end
 * scripts never assume that exactly one item is active, and neither does
 * this model: it states how each operation changes the flags instead.
 */
module Flags {

  /** Every flag off. */
  function Cleared(n: nat): (r: seq<bool>)
    ensures |r| == n && forall i :: 0 <= i < n ==> !r[i]
  {
    seq(n, _ => false)
  }

  /** Only item `k` on; every flag off when `k` is not an index. */
  function OnlyAt(n: nat, k: int): (r: seq<bool>)
    ensures |r| == n && forall i :: 0 <= i < n ==> (r[i] <==> i == k)
  {
    seq(n, i => i == k)
  }

  /**
   * `findIndex` over the items' `active` classes: the first active item, or
   * -1 when none is active.
   */
  function FirstActive(a: seq<bool>): (i: int)
    ensures -1 <= i < |a|
    ensures 0 <= i ==> a[i] && forall j :: 0 <= j < i ==> !a[j]
    ensures i == -1 <==> forall j :: 0 <= j < |a| ==> !a[j]
  {
    if |a| == 0 then -1
    else if a[0] then 0
    else
      var k := FirstActive(a[1..]);
      if k == -1 then -1 else k + 1
  }

  /** The number of active items. */
  function CountActive(a: seq<bool>): nat
  {
    if |a| == 0 then 0 else (if a[|a| - 1] then 1 else 0) + CountActive(a[..|a| - 1])
  }

  /** `OnlyAt` an index has exactly one active item. */
  lemma {:induction false} OnlyAtCountsOne(n: nat, k: nat)
    requires k < n
    ensures CountActive(OnlyAt(n, k)) == 1
    decreases n
  {
    var a := OnlyAt(n, k);
    assert a[..n - 1] == OnlyAt(n - 1, k) || k == n - 1;
    if k == n - 1 {
      CountClearedIsZero(n - 1, a[..n - 1]);
    } else {
      OnlyAtCountsOne(n - 1, k);
    }
  }

  lemma {:induction false} CountClearedIsZero(n: nat, a: seq<bool>)
    requires |a| == n && forall i :: 0 <= i < n ==> !a[i]
    ensures CountActive(a) == 0
    decreases n
  {
    if n > 0 {
      CountClearedIsZero(n - 1, a[..n - 1]);
    }
  }

  /** Two distinct active items make the count at least two. */
  lemma {:induction false} TwoActiveCount(a: seq<bool>, i: nat, j: nat)
    requires i < j < |a| && a[i] && a[j]
    ensures CountActive(a) >= 2
    decreases |a|
  {
    var b := a[..|a| - 1];
    if j < |a| - 1 {
      assert b[i] && b[j];
      TwoActiveCount(b, i, j);
    } else {
      assert b[i];
      OneActiveCount(b, i);
    }
  }

  lemma {:induction false} OneActiveCount(a: seq<bool>, i: nat)
    requires i < |a| && a[i]
    ensures CountActive(a) >= 1
    decreases |a|
  {
    if i < |a| - 1 {
      assert a[..|a| - 1][i];
      OneActiveCount(a[..|a| - 1], i);
    }
  }

  /** The `forEach` that removes `active` from every item. */
  method ClearAll(a: array<bool>)
    modifies a
    ensures a[..] == Cleared(a.Length)
  {
    for i := 0 to a.Length
      invariant forall j :: 0 <= j < i ==> !a[j]
    {
      a[i] := false;
    }
  }
}
