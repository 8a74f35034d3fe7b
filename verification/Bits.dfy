/** Bitwise `&` and `|` on machine words, as the C operators compute them bit by bit. */
module Bits {

  /** A 32-bit unsigned word (`size_t`, `uint32_t` and `uintptr_t` on i386). */
  type Word = w: int | 0 <= w < 0x1_0000_0000

  /** One past the greatest word. */
  const WRAP := 0x1_0000_0000

  type Byte = b: int | 0 <= b < 256

  function And(a: nat, b: nat): (r: nat)
    ensures r <= a && r <= b
  {
    if a == 0 || b == 0 then 0 else (if a % 2 == 1 && b % 2 == 1 then 1 else 0) + 2 * And(a / 2, b / 2)
  }

  function Or(a: nat, b: nat): (r: nat)
    ensures a <= r && b <= r <= a + b
  {
    if a == 0 then b
    else if b == 0 then a
    else (if a % 2 + b % 2 > 0 then 1 else 0) + 2 * Or(a / 2, b / 2)
  }

  function Pow2(k: nat): (r: nat)
    ensures r >= 1
  {
    if k == 0 then 1 else 2 * Pow2(k - 1)
  }

  /** Masking with k one-bits keeps the k low bits. */
  lemma {:induction false} AndOnes(a: nat, k: nat)
    requires a < Pow2(k)
    ensures And(a, Pow2(k) - 1) == a
  {
    if a != 0 {
      assert k > 0;
      assert (Pow2(k) - 1) / 2 == Pow2(k - 1) - 1;
      AndOnes(a / 2, k - 1);
    }
  }

  lemma {:induction false} Pow2Small()
    ensures Pow2(30) == 0x4000_0000 && Pow2(31) == 0x8000_0000
  {
    assert Pow2(10) == 0x400;
    assert Pow2(20) == 0x10_0000;
    assert Pow2(30) == 0x4000_0000;
  }

  lemma {:induction false} AndEven(a: nat, b: nat)
    ensures And(a, 2 * b) == 2 * And(a / 2, b)
  {
    if a == 0 || b == 0 {
      assert And(a / 2, b) == 0;
    } else {
      assert 2 * b / 2 == b && 2 * b % 2 == 0;
    }
  }

  lemma {:induction false} AndOdd(a: nat, b: nat)
    ensures And(a, 2 * b + 1) == a % 2 + 2 * And(a / 2, b)
  {
    assert (2 * b + 1) / 2 == b && (2 * b + 1) % 2 == 1;
    if a == 0 { assert And(a / 2, b) == 0; }
  }

  lemma {:induction false} OrStep(a: nat, b: nat)
    requires a % 2 == 0
    ensures Or(a, b) == b % 2 + 2 * Or(a / 2, b / 2)
  {
    if a == 0 {
      assert Or(0, b / 2) == b / 2;
    } else if b == 0 {
      assert Or(a / 2, 0) == a / 2;
    }
  }

  lemma {:induction false} OrTwice(a: nat, b: nat)
    ensures Or(2 * a, b) == b % 2 + 2 * Or(a, b / 2)
  {
    assert 2 * a % 2 == 0 && 2 * a / 2 == a;
    OrStep(2 * a, b);
  }

  lemma {:induction false} OrZero(f: nat)
    ensures Or(f, 0) == f
  {
  }

  lemma {:induction false} AndZero(a: nat)
    ensures And(a, 0) == 0
  {
  }

  lemma {:induction false} OrTwo(w: nat)
    ensures Or(w, 2) == if w / 2 % 2 == 1 then w else w + 2
  {
    if w > 0 {
      assert Or(w, 2) == w % 2 + 2 * Or(w / 2, 1);
      assert Or(w / 2, 1) == if w / 2 % 2 == 1 then w / 2 else w / 2 + 1 by {
        if w / 2 > 0 { assert Or(w / 2, 1) == 1 + 2 * Or(w / 2 / 2, 0); }
      }
    }
  }

  lemma {:induction false} AllOnes30(q: nat)
    requires q < 0x4000_0000
    ensures And(q, 0x3FFF_FFFF) == q
  {
    Pow2Small();
    AndOnes(q, 30);
  }

  lemma {:induction false} OrOne(w: nat)
    ensures Or(w, 1) == if w % 2 == 1 then w else w + 1
  {
    OrZero(w / 2);
    if w > 0 { assert Or(w, 1) == 1 + 2 * Or(w / 2, 0); }
  }
}
