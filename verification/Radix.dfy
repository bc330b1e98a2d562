/** Numbers in mixed radix: a digit below each radix, the first the lowest. */
module Radix {
  const MAX_UINT64 := 0xFFFF_FFFF_FFFF_FFFF

  /** The product of the first n radixes. */
  function Product(rs: seq<nat>, n: nat): nat
    requires n <= |rs|
  {
    if n == 0 then 1 else Product(rs, n - 1) * rs[n - 1]
  }

  /** The number whose first n digits are ds's. */
  function Number(rs: seq<nat>, ds: seq<nat>, n: nat): nat
    requires n <= |rs| == |ds|
  {
    if n == 0 then 0 else Number(rs, ds, n - 1) + ds[n - 1] * Product(rs, n - 1)
  }

  ghost predicate AreDigits(rs: seq<nat>, ds: seq<nat>) {
    |ds| == |rs| && forall i :: 0 <= i < |ds| ==> ds[i] < rs[i]
  }

  lemma {:induction false} NumberBelow(rs: seq<nat>, ds: seq<nat>, n: nat)
    requires AreDigits(rs, ds) && n <= |rs|
    ensures Number(rs, ds, n) < Product(rs, n)
  {
    if n > 0 {
      NumberBelow(rs, ds, n - 1);
      Below(Number(rs, ds, n - 1), Product(rs, n - 1), ds[n - 1], rs[n - 1]);
    }
  }

  lemma {:induction false} Below(a: nat, p: nat, d: nat, r: nat)
    requires a < p && d < r
    ensures a + d * p < p * r
  {
    assert (d + 1) * p <= r * p;
  }

  lemma {:induction false} SameParts(a: nat, b: nat, p: nat, x: nat, y: nat)
    requires a < p && b < p && a + x * p == b + y * p
    ensures a == b && x == y
  {
    assert (x - y) * p == b - a;
    assert x - y >= 1 ==> (x - y) * p >= p;
    assert x - y <= -1 ==> (x - y) * p <= -1 * p;
  }

  /** Different digits, different numbers. */
  lemma {:induction false} NumberInjective(rs: seq<nat>, a: seq<nat>, b: seq<nat>, n: nat)
    requires AreDigits(rs, a) && AreDigits(rs, b) && n <= |rs|
    requires Number(rs, a, n) == Number(rs, b, n)
    ensures a[..n] == b[..n]
  {
    if n > 0 {
      NumberBelow(rs, a, n - 1);
      NumberBelow(rs, b, n - 1);
      SameParts(Number(rs, a, n - 1), Number(rs, b, n - 1), Product(rs, n - 1), a[n - 1], b[n - 1]);
      NumberInjective(rs, a, b, n - 1);
      assert a[..n] == a[..n - 1] + [a[n - 1]] && b[..n] == b[..n - 1] + [b[n - 1]];
    }
  }

  lemma {:induction false} ProductGrows(rs: seq<nat>, n: nat, m: nat)
    requires n <= m <= |rs| && forall i :: 0 <= i < |rs| ==> rs[i] > 0
    ensures 0 < Product(rs, n) <= Product(rs, m)
  {
    if m > 0 && n < m {
      ProductGrows(rs, n, m - 1);
      assert Product(rs, m - 1) * rs[m - 1] >= Product(rs, m - 1) * 1;
    } else if n > 0 {
      ProductGrows(rs, n - 1, n - 1);
      assert Product(rs, n - 1) * rs[n - 1] >= 1 * 1;
    }
  }

  /** radix > MaxUint64 / r, as it guards the product. */
  lemma {:induction false} NoOverflow(radix: nat, r: nat)
    requires r > 0
    ensures radix > MAX_UINT64 / r <==> radix * r > MAX_UINT64
  {
    var q := MAX_UINT64 / r;
    assert MAX_UINT64 == q * r + MAX_UINT64 % r;
    assert radix <= q ==> radix * r <= q * r;
    assert radix >= q + 1 ==> radix * r >= (q + 1) * r;
  }

  /** One radix more: the guard tells whether the product still fits. */
  lemma {:induction false} ProductStep(rs: seq<nat>, j: nat)
    requires j < |rs| && forall i :: 0 <= i < |rs| ==> rs[i] > 0
    ensures Product(rs, j) > MAX_UINT64 / rs[j] ==> Product(rs, |rs|) > MAX_UINT64
    ensures Product(rs, j) <= MAX_UINT64 / rs[j] ==> 0 < Product(rs, j) * rs[j] <= MAX_UINT64
    ensures Product(rs, j + 1) == Product(rs, j) * rs[j]
  {
    NoOverflow(Product(rs, j), rs[j]);
    ProductGrows(rs, j + 1, |rs|);
  }

  /** One digit more stays below the product of all. */
  lemma {:induction false} NumberStep(rs: seq<nat>, ds: seq<nat>, j: nat)
    requires AreDigits(rs, ds) && j < |rs|
    ensures Number(rs, ds, j + 1) == Number(rs, ds, j) + ds[j] * Product(rs, j)
    ensures Number(rs, ds, j + 1) < Product(rs, |rs|)
  {
    NumberBelow(rs, ds, j + 1);
    ProductGrows(rs, j + 1, |rs|);
  }
}
