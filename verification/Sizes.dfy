/**
 Pages and byte counts: where page `p` of a segment starts, which page an address is on and at
 what offset, and how many pages a number of bytes takes when the last is only partly filled.
 */
module Sizes {
  /** Address of page `p`, relative to its segment's base. */
  function PageStart(p: nat, ps: nat): (a: nat)
  {
    if p == 0 then 0 else PageStart(p - 1, ps) + ps
  }

  lemma {:induction false} PageStartIsProduct(p: nat, ps: nat)
    ensures PageStart(p, ps) == p * ps
  {
    if p > 0 {
      PageStartIsProduct(p - 1, ps);
    }
  }

  function PageOf(a: nat, ps: nat): (p: nat)
    requires ps > 0
  {
    a / ps
  }

  function OffsetOf(a: nat, ps: nat): (o: nat)
    requires ps > 0
    ensures o < ps
  {
    a % ps
  }

  lemma {:induction false} PageRange(p: nat, n: nat, ps: nat)
    requires p < n
    ensures PageStart(p + 1, ps) == PageStart(p, ps) + ps <= PageStart(n, ps)
  {
    if p + 1 < n {
      PageRange(p, n - 1, ps);
    }
  }

  lemma {:induction false} PageSum(j: nat, k: nat, ps: nat)
    ensures PageStart(j + k, ps) == PageStart(j, ps) + PageStart(k, ps)
  {
    if k > 0 {
      PageSum(j, k - 1, ps);
    }
  }

  lemma AddressPage(a: nat, len: nat, n: nat, ps: nat)
    requires ps > 0 && 0 < len && a + len <= PageStart(n, ps)
    ensures PageOf(a, ps) < n && a == PageStart(PageOf(a, ps), ps) + OffsetOf(a, ps)
    ensures OffsetOf(a, ps) + len > ps ==> PageOf(a, ps) + 1 < n
  {
    var q, r := a / ps, a % ps;
    PageStartIsProduct(q, ps);
    assert a == PageStart(q, ps) + r;
    if q >= n {
      PageMonotone(n, q, ps);
      assert false;
    } else if q + 1 >= n {
      assert n == q + 1;
    }
  }

  lemma {:induction false} PageMonotone(p: nat, q: nat, ps: nat)
    requires p <= q
    ensures PageStart(p, ps) <= PageStart(q, ps)
  {
    if p < q {
      PageMonotone(p, q - 1, ps);
    }
  }

  /** Pages that hold `n` bytes: `ceil(n / ps)`. */
  function Pages(n: nat, ps: nat): (k: nat)
    requires ps > 0
    ensures n <= PageStart(k, ps) < n + ps
  {
    var q, r := n / ps, n % ps;
    PageStartIsProduct(q, ps);
    assert n == q * ps + r;
    q + if r != 0 then 1 else 0
  }

  /** No fewer pages would do. */
  lemma PagesLeast(n: nat, k: nat, ps: nat)
    requires ps > 0 && n <= PageStart(k, ps)
    ensures Pages(n, ps) <= k
  {
    if Pages(n, ps) > k {
      PageRange(k, Pages(n, ps), ps);
    }
  }
}
