/** How the loop's arrays grow (ev.c:592-628). */
module ArraySize {
  const MALLOC_ROUND: nat := 4096
  const SIZEOF_PTR: nat := 8

  /** At least double, and in whole malloc chunks when large. */
  method NextSize(elem: nat, cur: nat, cnt: nat) returns (ncur: nat)
    requires elem > 0
    ensures ncur >= cnt && ncur >= 2 * (cur + 1)
  {
    ncur := (cur + 1) * 2;
    while cnt > ncur
      invariant ncur >= 2 * (cur + 1)
    {
      ncur := ncur * 2;
    }
    if elem * ncur > MALLOC_ROUND - SIZEOF_PTR * 4 {
      var bytes := elem * ncur + elem + (MALLOC_ROUND - 1) + SIZEOF_PTR * 4;
      bytes := bytes / MALLOC_ROUND * MALLOC_ROUND - SIZEOF_PTR * 4;
      assert bytes >= elem * (ncur + 1);
      Quotient(elem, ncur + 1, bytes);
      ncur := bytes / elem;
    }
  }

  lemma Quotient(d: nat, q: nat, x: nat)
    requires d > 0 && x >= d * q
    ensures x / d >= q
  {
    var r := x / d;
    assert x == r * d + x % d;
    Products(r, q, d);
  }

  lemma Products(a: int, b: int, d: nat)
    ensures a < b ==> a * d + d <= b * d
  {
    if a < b {
      var k: nat := b - a - 1;
      assert b * d == (a + 1 + k) * d == a * d + d + k * d;
      assert k * d >= 0;
    }
  }
}
