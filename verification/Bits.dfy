/** Bitwise operations on naturals, bit by bit, and the machine words built on them. */
module Bits {
  import opened Arithmetic

  function Pow2(k: nat): (r: nat)
    ensures r > 0
  {
    if k == 0 then 1 else 2 * Pow2(k - 1)
  }

  function And(a: nat, b: nat): nat
    decreases a
  {
    if a == 0 || b == 0 then 0 else (a % 2) * (b % 2) + 2 * And(a / 2, b / 2)
  }

  function Xor(a: nat, b: nat): nat
    decreases a + b
  {
    if a == 0 then b else if b == 0 then a
    else (if a % 2 == b % 2 then 0 else 1) + 2 * Xor(a / 2, b / 2)
  }

  /** 2^64, one more than the largest value of a 64-bit word. */
  const WORD: nat := 0x1_0000_0000_0000_0000

  lemma Pow2Sum(a: nat, b: nat)
    ensures Pow2(a + b) == Pow2(a) * Pow2(b)
    decreases a
  {
    if a > 0 {
      Pow2Sum(a - 1, b);
      assert Pow2(a + b) == 2 * Pow2((a - 1) + b);
      assert 2 * (Pow2(a - 1) * Pow2(b)) == (2 * Pow2(a - 1)) * Pow2(b);
    }
  }

  lemma Pow2ByByte(k: nat)
    ensures Pow2(k + 8) == 256 * Pow2(k)
  {
    assert Pow2(k + 2) == 4 * Pow2(k);
    assert Pow2(k + 4) == 4 * Pow2(k + 2);
    assert Pow2(k + 6) == 4 * Pow2(k + 4);
  }

  lemma WordIsPow2()
    ensures Pow2(64) == WORD
  {
    assert Pow2(0) == 1;
    hide Pow2;
    Pow2ByByte(0);
    Pow2ByByte(8);
    Pow2ByByte(16);
    Pow2ByByte(24);
    Pow2ByByte(32);
    Pow2ByByte(40);
    Pow2ByByte(48);
    Pow2ByByte(56);
  }

  lemma {:induction false} Pow2Grows(a: nat, b: nat)
    requires a < b
    ensures Pow2(a) < Pow2(b)
    decreases b
  {
    if a < b - 1 {
      Pow2Grows(a, b - 1);
    }
  }

  /** Masking with 2^k - 1 keeps the low k bits. */
  lemma {:induction false} MaskIsRemainder(x: nat, k: nat)
    ensures And(x, Pow2(k) - 1) == x % Pow2(k)
    decreases k
  {
    if k > 0 {
      var half := Pow2(k - 1);
      MaskIsRemainder(x / 2, k - 1);
      assert (Pow2(k) - 1) % 2 == 1 && (Pow2(k) - 1) / 2 == half - 1;
      RemainderByTwice(x, half);
      if x == 0 {
        assert 0 % Pow2(k) == 0;
      }
    } else {
      assert x % 1 == 0;
    }
  }

  lemma RemainderByTwice(x: nat, m: nat)
    requires m > 0
    ensures x % (2 * m) == x % 2 + 2 * ((x / 2) % m)
  {
    var q, r := (x / 2) / m, (x / 2) % m;
    assert x / 2 == m * q + r;
    assert x == (2 * m) * q + (x % 2 + 2 * r);
    DivisionIs(x, 2 * m, q, x % 2 + 2 * r);
  }

  /** The bit test for a power of two, `c & (c - 1) == 0`, is exact. */
  lemma {:induction false} PowerOfTwoTest(c: nat)
    requires c > 0
    ensures And(c, c - 1) == 0 <==> exists k: nat :: Pow2(k) == c
    decreases c
  {
    if c == 1 {
      assert Pow2(0) == 1;
    } else if c % 2 == 1 {
      assert (c - 1) / 2 == c / 2 && And(c, c - 1) == 2 * And(c / 2, c / 2);
      AndSelf(c / 2);
      forall k: nat ensures Pow2(k) != c {
        if k > 0 { assert Pow2(k) == 2 * Pow2(k - 1); }
      }
    } else {
      PowerOfTwoTest(c / 2);
      assert (c - 1) / 2 == c / 2 - 1;
      assert And(c, c - 1) == 2 * And(c / 2, c / 2 - 1);
      HalfOfPower(c / 2);
    }
  }

  lemma HalfOfPower(h: nat)
    requires h > 0
    ensures (exists k: nat :: Pow2(k) == h) <==> exists k: nat :: Pow2(k) == 2 * h
  {
    if exists k: nat :: Pow2(k) == h {
      var k: nat :| Pow2(k) == h;
      var j: nat := k + 1;
      assert Pow2(j) == 2 * h;
    }
    if exists k: nat :: Pow2(k) == 2 * h {
      var k: nat :| Pow2(k) == 2 * h;
      assert k > 0;
      var j: nat := k - 1;
      assert Pow2(j) == h;
    }
  }

  lemma {:induction false} AndSelf(x: nat)
    ensures And(x, x) == x
    decreases x
  {
    if x > 0 {
      AndSelf(x / 2);
    }
  }
}
