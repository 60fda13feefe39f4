/** Products, quotients and remainders of naturals, as far as layouts and cursors need them. */
module Arithmetic {

  lemma {:induction false} MultiplyMonotone(a: nat, b: nat, c: nat)
    requires a <= b
    ensures a * c <= b * c
    decreases b
  {
    if a < b {
      MultiplyMonotone(a, b - 1, c);
      assert b * c == (b - 1) * c + c;
    }
  }

  lemma MultiplyOrder(a: nat, b: nat, c: nat)
    requires c > 0
    ensures a < b <==> a * c < b * c
    ensures a < b ==> a * c + c <= b * c
  {
    if a < b {
      MultiplyMonotone(a + 1, b, c);
      assert (a + 1) * c == a * c + c;
    } else {
      MultiplyMonotone(b, a, c);
    }
  }

  lemma DivideExactly(a: nat, b: nat)
    requires b > 0
    ensures a == a / b * b + a % b && 0 <= a % b < b
  {
  }

  /** Quotient and remainder are determined by what they have to be. */
  lemma QuotientUnique(a: nat, n: nat, q: nat, r: nat)
    requires r < n && a == q * n + r
    ensures a / n == q && a % n == r
  {
    DivideExactly(a, n);
    MultiplyOrder(q, a / n, n);
    MultiplyOrder(a / n, q, n);
  }

  lemma SmallRemainder(a: nat, n: nat)
    requires a < n
    ensures a % n == a && a / n == 0
  {
    QuotientUnique(a, n, 0, a);
  }

  lemma AddRemainder(a: nat, x: nat, n: nat)
    requires 0 < n
    ensures (a + x) % n == (a % n + x) % n
  {
    var y := a % n + x;
    DivideExactly(a, n);
    DivideExactly(y, n);
    assert (a / n + y / n) * n == a / n * n + y / n * n;
    QuotientUnique(a + x, n, a / n + y / n, y % n);
  }

  /** One step around a circle of `n`. */
  lemma NextRemainder(a: nat, n: nat)
    requires 0 < n
    ensures (a + 1) % n == if a % n + 1 == n then 0 else a % n + 1
  {
    AddRemainder(a, 1, n);
    DivideExactly(a, n);
    if a % n + 1 == n {
      QuotientUnique(n, n, 1, 0);
    } else {
      SmallRemainder(a % n + 1, n);
    }
  }

  /** Equal remainders less than one turn apart are equal numbers. */
  lemma WithinTurn(a: nat, b: nat, n: nat)
    requires 0 < n && a <= b < a + n && a % n == b % n
    ensures a == b
  {
    DivideExactly(a, n);
    DivideExactly(b, n);
    MultiplyOrder(a / n, b / n, n);
    MultiplyOrder(b / n, a / n, n);
  }
}
