/** Permission bits as numbers: conjunction and single bits. */
module Bits {
  import opened Arithmetic

  /** Bitwise conjunction. */
  function And(a: nat, b: nat): (r: nat)
    ensures r <= a && r <= b
    decreases a
  {
    if a == 0 then 0 else a % 2 * (b % 2) + 2 * And(a / 2, b / 2)
  }

  function Pow2(i: nat): (r: nat)
    ensures r > 0
  {
    if i == 0 then 1 else 2 * Pow2(i - 1)
  }

  /** Bit `i` of `a`, counted from the lowest. */
  predicate Bit(a: int, i: nat) { a / Pow2(i) % 2 == 1 }

  /** Dividing by an even number goes through the half. */
  lemma Halved(a: nat, p: nat)
    requires p > 0
    ensures a / (2 * p) == a / 2 / p && a % (2 * p) == 2 * (a / 2 % p) + a % 2
  {
    var h := a / 2;
    DivideExactly(h, p);
    assert h / p * (2 * p) == 2 * (h / p * p);
    QuotientUnique(a, 2 * p, h / p, 2 * (h % p) + a % 2);
  }

  /** Halving moves every bit one place down. */
  lemma BitHalf(a: nat, i: nat)
    requires i > 0
    ensures Bit(a, i) <==> Bit(a / 2, i - 1)
  {
    Halved(a, Pow2(i - 1));
  }

  /** A bit of the conjunction is set exactly when it is set in both. */
  lemma {:induction false} AndBit(a: nat, b: nat, i: nat)
    ensures Bit(And(a, b), i) <==> Bit(a, i) && Bit(b, i)
    decreases i
  {
    var c := And(a, b);
    if a == 0 {
      ZeroBit(i);
    } else {
      var low := a % 2 * (b % 2);
      assert low == if a % 2 == 1 && b % 2 == 1 then 1 else 0;
      assert c / 2 == And(a / 2, b / 2) && c % 2 == low;
      if i > 0 {
        BitHalf(a, i);
        BitHalf(b, i);
        BitHalf(c, i);
        AndBit(a / 2, b / 2, i - 1);
      }
    }
  }

  lemma ZeroBit(i: nat)
    ensures !Bit(0, i)
  {
    SmallRemainder(0, Pow2(i));
  }

  /** A remainder by a power of two keeps the bits below it. */
  lemma {:induction false} LowBit(a: nat, n: nat, i: nat)
    requires i < n
    ensures Bit(a % Pow2(n), i) <==> Bit(a, i)
    decreases n
  {
    var m := a % Pow2(n);
    Halved(a, Pow2(n - 1));
    assert m / 2 == a / 2 % Pow2(n - 1) && m % 2 == a % 2;
    if i > 0 {
      BitHalf(m, i);
      BitHalf(a, i);
      LowBit(a / 2, n - 1, i - 1);
    }
  }

  /** A quotient by a power of two moves the bits down. */
  lemma {:induction false} HighBit(a: nat, n: nat, i: nat)
    ensures Bit(a / Pow2(n), i) <==> Bit(a, n + i)
    decreases n
  {
    if n > 0 {
      Halved(a, Pow2(n - 1));
      BitHalf(a, n + i);
      HighBit(a / 2, n - 1, i);
    }
  }

  /** Subtracting from all ones turns every bit over. */
  lemma {:induction false} FlippedBit(a: nat, n: nat, i: nat)
    requires i < n && a < Pow2(n)
    ensures Bit(Pow2(n) - 1 - a, i) <==> !Bit(a, i)
    decreases n
  {
    var f := Pow2(n) - 1 - a;
    assert f / 2 == Pow2(n - 1) - 1 - a / 2 && f % 2 == 1 - a % 2;
    if i > 0 {
      BitHalf(f, i);
      BitHalf(a, i);
      FlippedBit(a / 2, n - 1, i - 1);
    }
  }

  /** The three octal digits of a mode, bit by bit. */
  lemma DigitBit(mode: nat, i: nat)
    requires i < 3
    ensures Bit(mode % 8, i) <==> Bit(mode, i)
    ensures Bit(mode / 8 % 8, i) <==> Bit(mode, 3 + i)
    ensures Bit(mode / 64 % 8, i) <==> Bit(mode, 6 + i)
  {
    Powers();
    LowBit(mode, 3, i);
    LowBit(mode / 8, 3, i);
    LowBit(mode / 64, 3, i);
    HighBit(mode, 3, i);
    HighBit(mode, 6, i);
  }

  lemma Powers()
    ensures Pow2(3) == 8 && Pow2(6) == 64 && Pow2(9) == 512
  {
    assert Pow2(1) == 2;
    assert Pow2(2) == 4;
    assert Pow2(3) == 8;
    assert Pow2(4) == 16;
    assert Pow2(5) == 32;
    assert Pow2(6) == 64;
    assert Pow2(7) == 128;
    assert Pow2(8) == 256;
  }

  /** The nine permission bits of `mode` that `umask` leaves. */
  lemma MaskedBit(mode: nat, umask: nat, i: nat)
    requires i < 9
    ensures Bit(And(mode % 512, 511 - umask % 512), i) <==> Bit(mode, i) && !Bit(umask, i)
  {
    Powers();
    AndBit(mode % 512, 511 - umask % 512, i);
    LowBit(mode, 9, i);
    LowBit(umask, 9, i);
    FlippedBit(umask % 512, 9, i);
  }
}
