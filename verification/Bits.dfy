/** Bitwise operators on natural numbers, and JavaScript's 32-bit views of a number. */
module Bits {
  const TWO_32: int := 0x1_0000_0000
  const TWO_31: int := 0x8000_0000

  function Pow2(k: nat): (p: nat)
    ensures p >= 1
  {
    if k == 0 then 1 else 2 * Pow2(k - 1)
  }

  datatype Gate = And | Or | Xor

  function Combine(g: Gate, a: nat, b: nat): nat {
    match g
    case And => if a == 1 && b == 1 then 1 else 0
    case Or => if a + b == 0 then 0 else 1
    case Xor => (a + b) % 2
  }

  /** The operator applied bit by bit. */
  function Bitwise(g: Gate, a: nat, b: nat): nat {
    if a == 0 && b == 0 then 0 else 2 * Bitwise(g, a / 2, b / 2) + Combine(g, a % 2, b % 2)
  }

  function ToUint32(x: int): (u: nat)
    ensures u < TWO_32
  {
    x % TWO_32
  }

  /** Section 7.1.6 of ECMA-262: the integer congruent to `x` in [-2^31, 2^31). */
  function ToInt32(x: int): (n: int)
    ensures -TWO_31 <= n < TWO_31
    ensures ToUint32(n) == ToUint32(x)
  {
    var u := ToUint32(x);
    if u < TWO_31 then u else u - TWO_32
  }

  /** A JavaScript bitwise operator on two numbers. */
  function Bitwise32(g: Gate, a: int, b: int): int {
    ToInt32(Bitwise(g, ToUint32(a), ToUint32(b)))
  }

  // --- Splitting a word ------------------------------------------------------------

  /** The bits of `a` from bit `k` on, and those below. */
  function Upper(a: nat, k: nat): nat {
    if k == 0 then a else Upper(a / 2, k - 1)
  }

  function Lower(a: nat, k: nat): nat {
    if k == 0 then 0 else 2 * Lower(a / 2, k - 1) + a % 2
  }

  lemma Doubles(q: nat, p: nat)
    ensures q * (2 * p) == 2 * (q * p)
  {
  }

  lemma {:induction false} UpperLower(a: nat, k: nat)
    ensures a == Upper(a, k) * Pow2(k) + Lower(a, k) && Lower(a, k) < Pow2(k)
  {
    if k > 0 {
      UpperLower(a / 2, k - 1);
      Doubles(Upper(a / 2, k - 1), Pow2(k - 1));
    }
  }

  lemma BitwiseUnfolds(g: Gate, a: nat, b: nat)
    ensures Bitwise(g, a, b) == 2 * Bitwise(g, a / 2, b / 2) + Combine(g, a % 2, b % 2)
    ensures Combine(g, a % 2, b % 2) < 2
    ensures Bitwise(g, a, b) / 2 == Bitwise(g, a / 2, b / 2) && Bitwise(g, a, b) % 2 == Combine(g, a % 2, b % 2)
  {
    if a == 0 && b == 0 {
      assert Bitwise(g, 0, 0) == 0;
    }
  }

  lemma LowerUnfolds(a: nat, k: nat)
    requires k > 0
    ensures Lower(a, k) / 2 == Lower(a / 2, k - 1) && Lower(a, k) % 2 == a % 2
  {
  }

  /** High and low bits combine on their own. */
  lemma {:induction false} BitwiseSplits(g: Gate, a: nat, b: nat, k: nat)
    ensures Upper(Bitwise(g, a, b), k) == Bitwise(g, Upper(a, k), Upper(b, k))
    ensures Lower(Bitwise(g, a, b), k) == Bitwise(g, Lower(a, k), Lower(b, k))
  {
    if k == 0 {
      assert Bitwise(g, 0, 0) == 0;
    } else {
      hide Bitwise, Combine;
      BitwiseUnfolds(g, a, b);
      BitwiseUnfolds(g, Lower(a, k), Lower(b, k));
      LowerUnfolds(a, k);
      LowerUnfolds(b, k);
      BitwiseSplits(g, a / 2, b / 2, k - 1);
      var word := Bitwise(g, a, b);
      assert Upper(word, k) == Upper(word / 2, k - 1);
      assert Lower(word, k) == 2 * Lower(word / 2, k - 1) + word % 2;
    }
  }

  /** Exclusive or with the same word twice changes nothing. */
  lemma {:induction false} XorUndoes(a: nat, b: nat)
    ensures Bitwise(Xor, a, Bitwise(Xor, a, b)) == b
    decreases a + b
  {
    if a == 0 && b == 0 {
    } else {
      XorUndoes(a / 2, b / 2);
      BitwiseUnfolds(Xor, a, b);
      BitwiseUnfolds(Xor, a, Bitwise(Xor, a, b));
    }
  }

  /** A mask of ones keeps a word. */
  lemma {:induction false} AndOnes(a: nat, k: nat)
    requires a < Pow2(k)
    ensures Bitwise(And, a, Pow2(k) - 1) == a
  {
    if k > 0 {
      AndOnes(a / 2, k - 1);
      BitwiseUnfolds(And, a, Pow2(k) - 1);
      assert (Pow2(k) - 1) / 2 == Pow2(k - 1) - 1;
    }
  }

  lemma {:induction false} AndZero(a: nat)
    ensures Bitwise(And, a, 0) == 0 && Bitwise(And, 0, a) == 0
  {
    if a != 0 { AndZero(a / 2); }
  }

  lemma {:induction false} OrZero(a: nat)
    ensures Bitwise(Or, a, 0) == a
  {
    if a != 0 { OrZero(a / 2); }
  }

  /** Bit `k` of a result depends on the bits `k` of the operands alone. */
  lemma BitwiseAt(a: nat, b: nat, k: nat)
    ensures var x, y := Upper(a, k) % 2 == 1, Upper(b, k) % 2 == 1;
            && (Upper(Bitwise(And, a, b), k) % 2 == 1 <==> x && y)
            && (Upper(Bitwise(Or, a, b), k) % 2 == 1 <==> x || y)
            && (Upper(Bitwise(Xor, a, b), k) % 2 == 1 <==> x != y)
  {
    hide Bitwise, Upper;
    BitwiseSplits(And, a, b, k);
    BitwiseSplits(Or, a, b, k);
    BitwiseSplits(Xor, a, b, k);
    BitwiseUnfolds(And, Upper(a, k), Upper(b, k));
    BitwiseUnfolds(Or, Upper(a, k), Upper(b, k));
    BitwiseUnfolds(Xor, Upper(a, k), Upper(b, k));
  }
}
