/** Arithmetic on unsigned words, written on `nat`: powers of two, bitwise exclusive-or
    and the number of one bits. */
module BitMath {
  function Pow2(k: nat): (r: nat)
    ensures r >= k + 1
  {
    if k == 0 then 1 else 2 * Pow2(k - 1)
  }

  lemma {:induction false} Pow2Monotone(i: nat, j: nat)
    requires i <= j
    ensures Pow2(i) <= Pow2(j)
    decreases j
  {
    if i < j {
      Pow2Monotone(i, j - 1);
    }
  }

  /** The number of one bits, hweight32() in the kernel. */
  function HWeight(n: nat): nat {
    if n == 0 then 0 else n % 2 + HWeight(n / 2)
  }

  predicate IsPow2(n: nat) {
    HWeight(n) == 1
  }

  lemma {:induction false} Pow2IsPow2(k: nat)
    ensures IsPow2(Pow2(k))
  {
    if k == 0 {
      assert HWeight(1) == 1 + HWeight(0);
    } else {
      Pow2IsPow2(k - 1);
      assert Pow2(k) / 2 == Pow2(k - 1) && Pow2(k) % 2 == 0;
    }
  }

  lemma {:induction false} HWeightZero(n: nat)
    ensures HWeight(n) == 0 <==> n == 0
  {
    if n > 0 {
      HWeightZero(n / 2);
    }
  }

  /** A word with one bit set is one of the powers of two. */
  lemma {:induction false} IsPow2Means(n: nat) returns (k: nat)
    requires IsPow2(n)
    ensures n == Pow2(k)
  {
    if n % 2 == 1 {
      HWeightZero(n / 2);
      k := 0;
    } else {
      k := IsPow2Means(n / 2);
      k := k + 1;
    }
  }

  /** No power of two lies strictly between two neighbouring ones. */
  lemma {:induction false} BetweenIsNotPow2(p: nat, b: nat)
    requires p > 0 && Pow2(p - 1) < b < Pow2(p)
    ensures !IsPow2(b)
  {
    if IsPow2(b) {
      var k := IsPow2Means(b);
      if k >= p {
        Pow2Monotone(p, k);
      } else {
        Pow2Monotone(k, p - 1);
      }
    }
  }

  /** Bitwise exclusive-or. */
  function Xor(a: nat, b: nat): nat
    decreases a + b
  {
    if a == 0 && b == 0 then 0 else 2 * Xor(a / 2, b / 2) + (if a % 2 == b % 2 then 0 else 1)
  }

  lemma {:induction false} XorComm(a: nat, b: nat)
    ensures Xor(a, b) == Xor(b, a)
    decreases a + b
  {
    if a != 0 || b != 0 {
      XorComm(a / 2, b / 2);
    }
  }

  lemma {:induction false} XorZero(a: nat)
    ensures Xor(a, 0) == a && Xor(0, a) == a
  {
    if a != 0 {
      XorZero(a / 2);
    }
  }

  lemma {:induction false} XorSelf(a: nat)
    ensures Xor(a, a) == 0
  {
    if a != 0 {
      XorSelf(a / 2);
    }
  }

  lemma {:induction false} XorAssoc(a: nat, b: nat, c: nat)
    ensures Xor(Xor(a, b), c) == Xor(a, Xor(b, c))
    decreases a + b + c
  {
    if a != 0 || b != 0 || c != 0 {
      XorAssoc(a / 2, b / 2, c / 2);
      XorAssocStep(a, b, c);
    }
  }

  lemma XorAssocStep(a: nat, b: nat, c: nat)
    requires Xor(Xor(a / 2, b / 2), c / 2) == Xor(a / 2, Xor(b / 2, c / 2))
    ensures Xor(Xor(a, b), c) == Xor(a, Xor(b, c))
  {
    hide Xor;
    var ab, bc := Xor(a, b), Xor(b, c);
    XorHalves(a, b);
    XorHalves(b, c);
    XorHalves(ab, c);
    XorHalves(a, bc);
    SameHalves(Xor(ab, c), Xor(a, bc));
  }

  lemma SameHalves(a: nat, b: nat)
    requires a / 2 == b / 2 && a % 2 == b % 2
    ensures a == b
  {
  }

  lemma XorHalves(a: nat, b: nat)
    ensures Xor(a, b) / 2 == Xor(a / 2, b / 2)
    ensures Xor(a, b) % 2 == 0 <==> a % 2 == b % 2
  {
  }

  /** The exclusive-or of two k-bit words is a k-bit word. */
  lemma {:induction false} XorBound(a: nat, b: nat, k: nat)
    requires a < Pow2(k) && b < Pow2(k)
    ensures Xor(a, b) < Pow2(k)
    decreases k
  {
    if k > 0 {
      XorBound(a / 2, b / 2, k - 1);
      XorHalves(a, b);
    }
  }

  /** Two words whose exclusive-or is known determine each other. */
  lemma XorCancel(a: nat, b: nat)
    ensures Xor(Xor(a, b), a) == b
  {
    XorComm(a, b);
    XorAssoc(b, a, a);
    XorSelf(a);
    XorZero(b);
  }
}
