/** Unsigned machine integers as the wire and the C sources have them, and the
    exclusive-or of two of them, taken binary digit by binary digit. */
module Bytes {
  type byte = x: int | 0 <= x < 256
  type word = x: int | 0 <= x < 65536

  function Xor(a: nat, b: nat): nat
    decreases a + b
  {
    if a == 0 && b == 0 then 0 else 2 * Xor(a / 2, b / 2) + (a + b) % 2
  }

  lemma Halves(q: nat, d: nat)
    requires d < 2
    ensures (2 * q + d) / 2 == q && (2 * q + d) % 2 == d
  {
  }

  lemma {:induction false} XorUnfold(a: nat, b: nat)
    ensures Xor(a, b) == 2 * Xor(a / 2, b / 2) + (a + b) % 2
  {
  }

  lemma {:induction false} XorDigits(a: nat, b: nat)
    ensures Xor(a, b) % 2 == (a + b) % 2
    ensures Xor(a, b) / 2 == Xor(a / 2, b / 2)
  {
    hide Xor;
    XorUnfold(a, b);
    Halves(Xor(a / 2, b / 2), (a + b) % 2);
  }

  lemma SameHalves(x: nat, y: nat)
    requires x / 2 == y / 2 && x % 2 == y % 2
    ensures x == y
  {
  }

  lemma ParityOfParity(a: nat, x: nat, s: nat)
    requires x % 2 == s % 2
    ensures (a + x) % 2 == (a + s) % 2
  {
  }

  lemma {:induction false} XorZero(a: nat)
    ensures Xor(a, 0) == a && Xor(0, a) == a
    decreases a
  {
    if a > 0 {
      XorZero(a / 2);
    }
  }

  lemma {:induction false} XorCommutes(a: nat, b: nat)
    ensures Xor(a, b) == Xor(b, a)
    decreases a + b
  {
    if a + b > 0 {
      XorCommutes(a / 2, b / 2);
    }
  }

  lemma {:induction false} XorAssociates(a: nat, b: nat, c: nat)
    ensures Xor(Xor(a, b), c) == Xor(a, Xor(b, c))
    decreases a + b + c
  {
    hide Xor;
    if a + b + c > 0 {
      XorDigits(a, b);
      XorDigits(b, c);
      XorDigits(Xor(a, b), c);
      XorDigits(a, Xor(b, c));
      ParityOfParity(c, Xor(a, b), a + b);
      ParityOfParity(a, Xor(b, c), b + c);
      XorAssociates(a / 2, b / 2, c / 2);
      SameHalves(Xor(Xor(a, b), c), Xor(a, Xor(b, c)));
    } else {
      XorZero(0);
    }
  }

  lemma {:induction false} XorEqualIffZero(a: nat, b: nat)
    ensures Xor(a, b) == 0 <==> a == b
    decreases a + b
  {
    if a + b > 0 {
      XorDigits(a, b);
      XorEqualIffZero(a / 2, b / 2);
    }
  }

  lemma {:induction false} XorCancels(a: nat, b: nat)
    ensures Xor(Xor(a, b), b) == a
  {
    XorAssociates(a, b, b);
    XorEqualIffZero(b, b);
    XorZero(a);
  }

  lemma {:induction false} XorRightInjective(a: nat, b: nat, c: nat)
    requires Xor(a, c) == Xor(b, c)
    ensures a == b
  {
    XorCancels(a, c);
    XorCancels(b, c);
  }

  lemma {:induction false} XorSwap(a: nat, b: nat, c: nat, d: nat)
    ensures Xor(Xor(a, b), Xor(c, d)) == Xor(Xor(a, c), Xor(b, d))
  {
    XorAssociates(a, b, Xor(c, d));
    XorAssociates(b, c, d);
    XorCommutes(b, c);
    XorAssociates(c, b, d);
    XorAssociates(a, c, Xor(b, d));
  }

  function Pow2(n: nat): (p: nat)
    ensures p > 0
  {
    if n == 0 then 1 else 2 * Pow2(n - 1)
  }

  lemma TimesDouble(p: nat, h: nat)
    ensures p * (2 * h) == 2 * (p * h)
  {
  }

  lemma AppendDigit(x: nat, u: nat)
    ensures (2 * x + u) / 2 == x + u / 2
    ensures (2 * x + u) % 2 == u % 2
  {
  }

  lemma DigitsSum(x: nat, u: nat, y: nat, v: nat)
    ensures ((2 * x + u) + (2 * y + v)) % 2 == (u + v) % 2
  {
    assert (2 * x + u) + (2 * y + v) == 2 * (x + y) + (u + v);
    AppendDigit(x + y, u + v);
  }

  /** High and low parts of two numbers combine separately. */
  lemma {:induction false} XorParts(n: nat, p: nat, u: nat, q: nat, v: nat)
    requires u < Pow2(n) && v < Pow2(n)
    ensures Xor(u, v) < Pow2(n)
    ensures Xor(p * Pow2(n) + u, q * Pow2(n) + v) == Xor(p, q) * Pow2(n) + Xor(u, v)
    decreases n
  {
    hide Xor;
    if n == 0 {
      XorZero(0);
    } else {
      var half := Pow2(n - 1);
      TimesDouble(p, half);
      TimesDouble(q, half);
      TimesDouble(Xor(p, q), half);
      XorParts(n - 1, p, u / 2, q, v / 2);
      XorPartsStep(p * half, u, q * half, v, Xor(p, q) * half);
      XorUnfold(u, v);
    }
  }

  lemma XorPartsStep(x: nat, u: nat, y: nat, v: nat, z: nat)
    requires Xor(x + u / 2, y + v / 2) == z + Xor(u / 2, v / 2)
    ensures Xor(2 * x + u, 2 * y + v) == 2 * z + Xor(u, v)
  {
    hide Xor;
    AppendDigit(x, u);
    AppendDigit(y, v);
    DigitsSum(x, u, y, v);
    XorUnfold(2 * x + u, 2 * y + v);
    XorUnfold(u, v);
  }
}
