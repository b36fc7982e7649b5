/** The bitwise operators of C and Python on non-negative integers, defined digit
    by digit, and what they do with masks. */
module Binary {

  /** Binary digit k of n. */
  predicate Bit(n: nat, k: nat) {
    if k == 0 then n % 2 == 1 else Bit(n / 2, k - 1)
  }

  /** 1 << e */
  function Pow(e: nat): (p: nat)
    ensures p > 0
  {
    if e == 0 then 1 else 2 * Pow(e - 1)
  }

  datatype Operator = And | Or | Xor {
    predicate Digit(a: bool, b: bool) {
      match this
      case And => a && b
      case Or => a || b
      case Xor => a != b
    }

    /** The operator on integers, digit by digit. */
    function On(x: nat, y: nat): nat
      decreases x + y
    {
      if x == 0 && y == 0 then 0
      else 2 * On(x / 2, y / 2) + if Digit(x % 2 == 1, y % 2 == 1) then 1 else 0
    }
  }

  // ------------------------------------------------------------------ operators

  lemma OnStep(o: Operator, x: nat, y: nat)
    ensures o.On(x, y) / 2 == o.On(x / 2, y / 2)
    ensures o.On(x, y) % 2 == 1 <==> o.Digit(x % 2 == 1, y % 2 == 1)
  {
  }

  lemma {:induction false} OnBit(o: Operator, x: nat, y: nat, k: nat)
    ensures Bit(o.On(x, y), k) == o.Digit(Bit(x, k), Bit(y, k))
    decreases k
  {
    OnStep(o, x, y);
    if k > 0 {
      OnBit(o, x / 2, y / 2, k - 1);
    }
  }

  /** The result is no longer than the operands. */
  lemma {:induction false} OnSize(o: Operator, x: nat, y: nat, e: nat)
    requires x < Pow(e) && y < Pow(e)
    ensures o.On(x, y) < Pow(e)
    decreases e
  {
    if e > 0 {
      OnStep(o, x, y);
      OnSize(o, x / 2, y / 2, e - 1);
    }
  }

  lemma {:induction false} ZeroBit(k: nat)
    ensures !Bit(0, k)
    decreases k
  {
    if k > 0 {
      ZeroBit(k - 1);
    }
  }

  lemma {:induction false} PowBit(e: nat, k: nat)
    ensures Bit(Pow(e), k) == (k == e)
    decreases e
  {
    if e > 0 && k > 0 {
      PowBit(e - 1, k - 1);
    } else if k > 0 {
      ZeroBit(k - 1);
    }
  }

  lemma {:induction false} OnesBit(e: nat, k: nat)
    ensures Bit(Pow(e) - 1, k) == (k < e)
    decreases e
  {
    if e == 0 {
      ZeroBit(k);
    } else if k > 0 {
      OnesBit(e - 1, k - 1);
      assert (Pow(e) - 1) / 2 == Pow(e - 1) - 1;
    }
  }

  lemma {:induction false} AndZero(x: nat)
    ensures And.On(x, 0) == 0
    decreases x
  {
    if x > 0 {
      AndZero(x / 2);
    }
  }

  /** n & (1 << k) is not zero exactly when bit k of n is set. */
  lemma {:induction false} MaskTest(n: nat, k: nat)
    ensures And.On(n, Pow(k)) == if Bit(n, k) then Pow(k) else 0
    decreases k
  {
    if k == 0 {
      AndZero(n / 2);
      assert And.On(n, 1) == 2 * And.On(n / 2, 0) + n % 2;
    } else {
      MaskTest(n / 2, k - 1);
      OnStep(And, n, Pow(k));
    }
  }

  lemma WordSize()
    ensures Pow(32) == 0x1_0000_0000 && Pow(8) == 0x100
  {
    assert Pow(4) == 16;
    assert Pow(8) == 0x100;
    assert Pow(12) == 0x1000;
    assert Pow(16) == 0x1_0000;
    assert Pow(20) == 0x10_0000;
    assert Pow(24) == 0x100_0000;
    assert Pow(28) == 0x1000_0000;
  }

  // ---------------------------------------------------------------------- masks

  /** h << e */
  function Times(h: nat, e: nat): nat
    decreases e
  {
    if e == 0 then h else 2 * Times(h, e - 1)
  }

  /** x >> e */
  function Right(x: nat, e: nat): nat
    decreases e
  {
    if e == 0 then x else Right(x / 2, e - 1)
  }

  /** Digit e, by shifting. */
  lemma {:induction false} BitIsRight(x: nat, e: nat)
    ensures Bit(x, e) == (Right(x, e) % 2 == 1)
    decreases e
  {
    if e > 0 {
      BitIsRight(x / 2, e - 1);
    }
  }

  /** The lowest e digits of x. */
  function Low(x: nat, e: nat): nat
    decreases e
  {
    if e == 0 then 0 else 2 * Low(x / 2, e - 1) + x % 2
  }

  lemma {:induction false} LowSize(x: nat, e: nat)
    ensures Low(x, e) < Pow(e)
    decreases e
  {
    if e > 0 {
      LowSize(x / 2, e - 1);
    }
  }

  /** x & (2^e - 1) */
  lemma {:induction false} AndLow(x: nat, e: nat)
    ensures And.On(x, Pow(e) - 1) == Low(x, e)
    decreases e
  {
    if e == 0 {
      AndZero(x);
    } else {
      AndLow(x / 2, e - 1);
      OnStep(And, x, Pow(e) - 1);
      assert (Pow(e) - 1) / 2 == Pow(e - 1) - 1 && (Pow(e) - 1) % 2 == 1;
    }
  }

  /** x & (y << e) is (x >> e & y) << e. */
  lemma {:induction false} AndShifted(x: nat, y: nat, e: nat)
    ensures And.On(x, Times(y, e)) == Times(And.On(Right(x, e), y), e)
    decreases e
  {
    if e > 0 {
      AndShifted(x / 2, y, e - 1);
      OnStep(And, x, Times(y, e));
    }
  }

  /** (h << e) | a, for a of at most e digits, is their sum. */
  lemma {:induction false} OrIsSum(h: nat, a: nat, e: nat)
    requires a < Pow(e)
    ensures Or.On(Times(h, e), a) == Times(h, e) + a
    decreases e
  {
    if e == 0 {
      OrZero(h);
    } else {
      OrIsSum(h, a / 2, e - 1);
      OnStep(Or, Times(h, e), a);
    }
  }

  lemma {:induction false} OrZero(x: nat)
    ensures Or.On(x, 0) == x
    decreases x
  {
    if x > 0 {
      OrZero(x / 2);
      OnStep(Or, x, 0);
    }
  }

  lemma {:induction false} AndOnes(x: nat, e: nat)
    requires x < Pow(e)
    ensures And.On(x, Pow(e) - 1) == x
    decreases e
  {
    if e == 0 {
      AndZero(x);
    } else {
      AndOnes(x / 2, e - 1);
      OnStep(And, x, Pow(e) - 1);
      assert (Pow(e) - 1) / 2 == Pow(e - 1) - 1 && (Pow(e) - 1) % 2 == 1;
    }
  }

  /** x ^ (2^e - 1), the complement of e digits. */
  lemma {:induction false} XorOnes(x: nat, e: nat)
    requires x < Pow(e)
    ensures Xor.On(x, Pow(e) - 1) == Pow(e) - 1 - x
    decreases e
  {
    if e > 0 {
      XorOnes(x / 2, e - 1);
      OnStep(Xor, x, Pow(e) - 1);
      assert (Pow(e) - 1) / 2 == Pow(e - 1) - 1 && (Pow(e) - 1) % 2 == 1;
    }
  }

  /** x | (1 << e) */
  lemma {:induction false} OrPow(x: nat, e: nat)
    ensures Or.On(x, Pow(e)) == if Right(x, e) % 2 == 1 then x else x + Pow(e)
    decreases e
  {
    OnStep(Or, x, Pow(e));
    if e == 0 {
      OrZero(x / 2);
    } else {
      OrPow(x / 2, e - 1);
    }
  }

  // ---------------------------------------------------------- literal positions

  lemma Four(x: nat)
    ensures Times(x, 4) == 16 * x && Right(x, 4) == x / 16 && Low(x, 4) == x % 16 && Pow(4) == 16
  {
    assert Times(x, 2) == 4 * x && Right(x, 2) == x / 4 && Low(x, 2) == x % 4;
    assert Right(x / 4, 2) == x / 4 / 4 && Low(x / 4, 2) == x / 4 % 4;
  }

  lemma {:induction false} TimesTwice(x: nat, d: nat, e: nat, both: nat)
    requires both == d + e
    ensures Times(Times(x, d), e) == Times(x, both) && Right(Right(x, d), e) == Right(x, both)
    decreases d
  {
    if d > 0 {
      TimesTwice(x / 2, d - 1, e, both - 1);
      TimesMoves(x, d - 1, e);
      TimesTwice(x, d - 1, e, both - 1);
    }
  }

  lemma {:induction false} TimesMoves(x: nat, d: nat, e: nat)
    ensures Times(2 * Times(x, d), e) == 2 * Times(Times(x, d), e)
    decreases e
  {
    if e > 0 {
      TimesMoves(x, d, e - 1);
    }
  }

  lemma {:induction false} LowTwice(x: nat, d: nat, e: nat, both: nat)
    requires both == d + e
    ensures Low(x, both) == Low(x, d) + Times(Low(Right(x, d), e), d)
    decreases d
  {
    if d > 0 {
      LowTwice(x / 2, d - 1, e, both - 1);
    }
  }

  lemma Eight(x: nat)
    ensures Times(x, 8) == 0x100 * x && Right(x, 8) == x / 0x100 && Low(x, 8) == x % 0x100
  {
    Four(x);
    Four(16 * x);
    Four(x / 16);
    Four(x / 16 % 16);
    TimesTwice(x, 4, 4, 8);
    LowTwice(x, 4, 4, 8);
  }

  lemma Nine(x: nat)
    ensures Times(x, 9) == 0x200 * x && Right(x, 9) == x / 0x200 && Low(x, 9) == x % 0x200 && Pow(9) == 0x200
  {
    Eight(x);
    Eight(x / 0x100 % 2);
    TimesTwice(x, 8, 1, 9);
    LowTwice(x, 8, 1, 9);
    assert Right(x / 0x100, 1) == x / 0x100 / 2 && Low(x / 0x100, 1) == x / 0x100 % 2;
    WordSize();
  }

  lemma Twelve(x: nat)
    ensures Times(x, 12) == 0x1000 * x && Right(x, 12) == x / 0x1000
  {
    Four(x);
    Four(16 * x);
    Four(256 * x);
    Four(x / 16);
    Four(x / 16 / 16);
    TimesTwice(x, 4, 4, 8);
    TimesTwice(x, 8, 4, 12);
  }

  lemma Fourteen(x: nat)
    ensures Right(x, 14) == x / 0x4000 && Pow(14) == 0x4000 && Pow(23) == 0x80_0000
  {
    Twelve(x);
    TimesTwice(x, 12, 2, 14);
    assert Right(x / 0x1000, 2) == x / 0x1000 / 4;
    WordSize();
    assert Pow(12) == 0x1000;
    assert Pow(16) == 0x1_0000;
    assert Pow(20) == 0x10_0000;
  }
}
