/** 32-bit words as numbers: exclusive or, bit by bit from the low end. */
module Bits {
  import opened Prelude

  function Xor(a: nat, b: nat): nat
    decreases a + b
  {
    if a == 0 && b == 0 then 0
    else (if a % 2 == b % 2 then 0 else 1) + 2 * Xor(a / 2, b / 2)
  }

  lemma XorParts(a: nat, b: nat)
    ensures Xor(a, b) % 2 == (if a % 2 == b % 2 then 0 else 1)
    ensures Xor(a, b) / 2 == Xor(a / 2, b / 2)
  {
  }

  /** Numbers with the same low bit and the same rest are equal. */
  lemma SameParts(x: nat, y: nat)
    requires x % 2 == y % 2 && x / 2 == y / 2
    ensures x == y
  {
  }

  lemma {:induction false} XorComm(a: nat, b: nat)
    ensures Xor(a, b) == Xor(b, a)
    decreases a + b
  {
    if a != 0 || b != 0 {
      XorComm(a / 2, b / 2);
    }
  }

  lemma {:induction false} XorAssoc(a: nat, b: nat, c: nat)
    ensures Xor(Xor(a, b), c) == Xor(a, Xor(b, c))
    decreases a + b + c
  {
    if a != 0 || b != 0 || c != 0 {
      XorAssoc(a / 2, b / 2, c / 2);
      XorParts(a, b);
      XorParts(b, c);
      XorParts(Xor(a, b), c);
      XorParts(a, Xor(b, c));
      SameParts(Xor(Xor(a, b), c), Xor(a, Xor(b, c)));
    }
  }

  lemma {:induction false} XorZero(a: nat)
    ensures Xor(a, 0) == a && Xor(0, a) == a
  {
    if a != 0 {
      XorZero(a / 2);
    }
  }

  lemma {:induction false} XorSelf(a: nat)
    ensures Xor(a, a) == 0
  {
    if a != 0 {
      XorSelf(a / 2);
    }
  }

  lemma XorCancel(a: nat, b: nat, c: nat)
    requires Xor(a, c) == Xor(b, c)
    ensures a == b
  {
    XorAssoc(a, c, c);
    XorAssoc(b, c, c);
    XorSelf(c);
    XorZero(a);
    XorZero(b);
  }

  lemma XorSwap(a: nat, b: nat, c: nat)
    ensures Xor(Xor(a, b), c) == Xor(Xor(a, c), b)
  {
    XorAssoc(a, b, c);
    XorComm(b, c);
    XorAssoc(a, c, b);
  }

  /** (a ^ b) ^ (c ^ d) == (a ^ c) ^ (b ^ d) */
  lemma {:induction false} XorFour(a: nat, b: nat, c: nat, d: nat)
    ensures Xor(Xor(a, b), Xor(c, d)) == Xor(Xor(a, c), Xor(b, d))
  {
    XorAssoc(Xor(a, b), c, d);
    XorSwap(a, b, c);
    XorAssoc(Xor(a, c), b, d);
  }

  // ----- how many bits -----

  function Pow2(n: nat): nat { if n == 0 then 1 else 2 * Pow2(n - 1) }

  lemma {:induction false} XorBelow(n: nat, a: nat, b: nat)
    requires a < Pow2(n) && b < Pow2(n)
    ensures Xor(a, b) < Pow2(n)
  {
    if n != 0 {
      XorBelow(n - 1, a / 2, b / 2);
      XorParts(a, b);
    }
  }

  /** The top bit of an exclusive or with a word that has it. */
  lemma {:induction false} XorTop(n: nat, a: nat, b: nat)
    requires a < Pow2(n) <= b < Pow2(n + 1)
    ensures Pow2(n) <= Xor(a, b)
  {
    if n == 0 {
      XorZero(b);
    } else {
      XorTop(n - 1, a / 2, b / 2);
      XorParts(a, b);
    }
  }

  lemma Pow2Values()
    ensures Pow2(8) == 0x100 && Pow2(31) == 0x8000_0000 && Pow2(32) == 0x1_0000_0000
  {
    assert Pow2(8) == 0x100;
    assert Pow2(16) == 0x1_0000;
    assert Pow2(24) == 0x100_0000;
    assert Pow2(31) == 0x8000_0000;
  }

  lemma XorWord(a: Word, b: Word)
    ensures Xor(a, b) < 0x1_0000_0000
  {
    Pow2Values();
    XorBelow(32, a, b);
  }

  // ----- cutting a number at bit n -----

  function High(n: nat, a: nat): nat { if n == 0 then a else High(n - 1, a / 2) }

  function Low(n: nat, a: nat): nat { if n == 0 then 0 else a % 2 + 2 * Low(n - 1, a / 2) }

  lemma {:induction false} XorHigh(n: nat, a: nat, b: nat)
    ensures High(n, Xor(a, b)) == Xor(High(n, a), High(n, b))
    decreases n
  {
    if n != 0 {
      XorParts(a, b);
      XorHigh(n - 1, a / 2, b / 2);
    }
  }

  lemma LowParts(n: nat, a: nat)
    requires n > 0
    ensures Low(n, a) % 2 == a % 2 && Low(n, a) / 2 == Low(n - 1, a / 2)
  {
  }

  lemma {:induction false} XorLow(n: nat, a: nat, b: nat)
    ensures Low(n, Xor(a, b)) == Xor(Low(n, a), Low(n, b))
    decreases n
  {
    if n != 0 {
      XorParts(a, b);
      XorLow(n - 1, a / 2, b / 2);
      XorParts(Low(n, a), Low(n, b));
      LowParts(n, a);
      LowParts(n, b);
      LowParts(n, Xor(a, b));
      SameParts(Low(n, Xor(a, b)), Xor(Low(n, a), Low(n, b)));
    }
  }

  lemma CutAtNibble(a: nat)
    ensures High(4, a) == a / 16 && Low(4, a) == a % 16
  {
    var b := a / 2;  var c := b / 2;  var d := c / 2;
    assert High(1, d) == d / 2 && Low(1, d) == d % 2 by { assert Low(0, d / 2) == 0; }
    assert High(2, c) == c / 4 && Low(2, c) == c % 4;
    assert High(3, b) == b / 8 && Low(3, b) == b % 8;
  }

  lemma {:induction false} HighAdd(m: nat, n: nat, a: nat)
    ensures High(m + n, a) == High(n, High(m, a))
    decreases m
  {
    if m != 0 {
      HighAdd(m - 1, n, a / 2);
    }
  }

  lemma LowByte(a: nat)
    ensures Low(8, a) == Low(4, a) + 16 * Low(4, High(4, a))
  {
    var b := a / 2;  var c := b / 2;  var d := c / 2;  var e := d / 2;
    assert Low(8, a) == a % 2 + 2 * Low(7, b);
    assert Low(7, b) == b % 2 + 2 * Low(6, c);
    assert Low(6, c) == c % 2 + 2 * Low(5, d);
    assert Low(5, d) == d % 2 + 2 * Low(4, e);
    assert High(2, c) == High(1, d) == High(0, e);
    assert High(3, b) == e;
    assert Low(2, c) == c % 2 + 2 * Low(1, d) && Low(1, d) == d % 2 + 2 * Low(0, e);
    assert Low(3, b) == b % 2 + 2 * Low(2, c);
  }

  lemma CutAtByte(a: nat)
    ensures High(8, a) == a / 0x100 && Low(8, a) == a % 0x100
  {
    CutAtNibble(a);
    CutAtNibble(a / 16);
    HighAdd(4, 4, a);
    LowByte(a);
  }
}
