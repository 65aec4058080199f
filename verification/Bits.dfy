/** Bitwise operators on unsigned words, defined bit by bit on the numbers that
    the words denote, and the arithmetic they amount to for shifts and masks. */
module Bits {
  function Pow2(k: nat): (p: nat)
    ensures p > 0
  {
    if k == 0 then 1 else 2 * Pow2(k - 1)
  }

  function And(x: nat, y: nat): nat
  {
    if x == 0 || y == 0 then 0 else (if x % 2 == 1 && y % 2 == 1 then 1 else 0) + 2 * And(x / 2, y / 2)
  }

  function Or(x: nat, y: nat): nat
    decreases x + y
  {
    if x == 0 then y else if y == 0 then x
    else (if x % 2 == 1 || y % 2 == 1 then 1 else 0) + 2 * Or(x / 2, y / 2)
  }

  function Shr(x: nat, k: nat): nat
    decreases k
  {
    if k == 0 then x else Shr(x / 2, k - 1)
  }

  function Shl(x: nat, k: nat): nat
    decreases k
  {
    if k == 0 then x else 2 * Shl(x, k - 1)
  }

  /** The k low bits. */
  function Low(x: nat, k: nat): (r: nat)
    ensures r < Pow2(k)
    decreases k
  {
    if k == 0 then 0 else x % 2 + 2 * Low(x / 2, k - 1)
  }

  lemma {:induction false} ShiftLeftIsTimes(x: nat, k: nat)
    ensures Shl(x, k) == x * Pow2(k)
    decreases k
  {
    if k > 0 {
      ShiftLeftIsTimes(x, k - 1);
      assert 2 * (x * Pow2(k - 1)) == x * (2 * Pow2(k - 1));
    }
  }

  lemma {:induction false} HighAndLow(x: nat, k: nat)
    ensures x == Shl(Shr(x, k), k) + Low(x, k)
    decreases k
  {
    if k > 0 {
      HighAndLow(x / 2, k - 1);
    }
  }

  lemma DivMod(x: nat, k: nat)
    ensures x / Pow2(k) == Shr(x, k) && x % Pow2(k) == Low(x, k)
  {
    HighAndLow(x, k);
    ShiftLeftIsTimes(Shr(x, k), k);
    Remainder(x, Pow2(k), Shr(x, k), Low(x, k));
  }

  lemma Remainder(x: nat, d: nat, q: nat, r: nat)
    requires d > 0 && x == q * d + r && r < d
    ensures x / d == q && x % d == r
  {
    var q', r' := x / d, x % d;
    assert x == q' * d + r';
    assert (q' - q) * d == r - r';
    assert (q - q') * d == r' - r;
    if q' > q {
      AtLeast(q' - q, d);
    } else if q' < q {
      AtLeast(q - q', d);
    }
  }

  lemma AtLeast(n: nat, d: nat)
    requires n >= 1
    ensures n * d >= d
  {
    assert n * d == (n - 1) * d + d;
  }

  /** `x & (2^k - 1)` keeps the k low bits. */
  lemma {:induction false} AndLowMask(x: nat, k: nat)
    ensures And(x, Pow2(k) - 1) == Low(x, k)
    decreases k
  {
    if k > 0 {
      AndLowMask(x / 2, k - 1);
      var m := Pow2(k) - 1;
      assert m / 2 == Pow2(k - 1) - 1 && m % 2 == 1;
      if x == 0 { LowOfZero(k); }
    }
  }

  lemma LowOfZero(k: nat)
    ensures Low(0, k) == 0
  {}

  /** Masking with m shifted left acts on the high part of x alone. */
  lemma {:induction false} AndShifted(x: nat, m: nat, k: nat)
    ensures And(x, Shl(m, k)) == Shl(And(Shr(x, k), m), k)
    decreases k
  {
    if k > 0 {
      AndShifted(x / 2, m, k - 1);
      var n := Shl(m, k - 1);
      assert And(x, 2 * n) == 2 * And(x / 2, n);
    }
  }

  /** `|` of a word whose low k bits are clear with one that fits in them adds the two. */
  lemma {:induction false} OrDisjoint(x: nat, y: nat, k: nat)
    requires y < Pow2(k)
    ensures Or(Shl(x, k), y) == Shl(x, k) + y
    decreases k
  {
    if k > 0 {
      OrDisjoint(x, y / 2, k - 1);
      var n := Shl(x, k - 1);
      assert Or(2 * n, y) == y % 2 + 2 * Or(n, y / 2);
    }
  }

  lemma PowerValues()
    ensures Pow2(2) == 4 && Pow2(9) == 512 && Pow2(10) == 1024 && Pow2(12) == 0x1000
    ensures Pow2(21) == 0x20_0000 && Pow2(30) == 0x4000_0000 && Pow2(44) == 0x1000_0000_0000
  {
    assert Pow2(10) == 1024;
    assert Pow2(20) == 1024 * Pow2(10);
    assert Pow2(30) == 1024 * Pow2(20);
    assert Pow2(40) == 1024 * Pow2(30);
  }
}
