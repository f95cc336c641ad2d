// Powers of two and the bitwise and, on natural numbers.
module Bits {
  import opened Arith

  function Pow2(k: nat): (p: nat)
    ensures p > 0
  {
    if k == 0 then 1 else 2 * Pow2(k - 1)
  }

  lemma Pow2Doubles(k: nat)
    ensures Pow2(k + 1) == 2 * Pow2(k)
  {
  }

  ghost predicate IsPow2(n: nat) {
    exists k: nat :: n == Pow2(k)
  }

  // x & y
  function BitAnd(x: nat, y: nat): nat {
    if x == 0 || y == 0 then 0 else (if x % 2 == 1 && y % 2 == 1 then 1 else 0) + 2 * BitAnd(x / 2, y / 2)
  }

  lemma {:induction false} BitAndBelow(x: nat, y: nat)
    ensures BitAnd(x, y) <= y
  {
    if x > 0 && y > 0 {
      BitAndBelow(x / 2, y / 2);
    }
  }

  // Masking with a power of two less one is the remainder.
  lemma {:induction false} MaskIsMod(x: nat, k: nat)
    ensures BitAnd(x, Pow2(k) - 1) == x % Pow2(k)
    decreases k
  {
    if k > 0 {
      var p := Pow2(k - 1);
      MaskIsMod(x / 2, k - 1);
      ModDouble(x, p);
      assert (Pow2(k) - 1) / 2 == p - 1;
      assert (Pow2(k) - 1) % 2 == 1;
      assert Pow2(k) == 2 * p;
      if x == 0 {
        DivMod(0, Pow2(k));
      }
    }
  }

  lemma {:induction false} Pow2Monotone(a: nat, b: nat)
    requires a <= b
    ensures Pow2(a) <= Pow2(b)
    ensures a < b ==> 2 * Pow2(a) <= Pow2(b)
  {
    if a < b {
      Pow2Monotone(a, b - 1);
    }
  }

  // A power of two divides every larger one.
  lemma {:induction false} Pow2Divides(a: nat, b: nat)
    requires a <= b
    ensures Pow2(b) % Pow2(a) == 0
  {
    if a == b {
      DivModUnique(1, Pow2(a), 0);
    } else {
      Pow2Divides(a, b - 1);
      var p := Pow2(a);
      var q := Pow2(b - 1) / p;
      DivMod(Pow2(b - 1), p);
      MulDouble(p, q);
      DivModUnique(2 * q, p, 0);
    }
  }

  // HyUtilsIsPowerOf2
  predicate IsPowerOf2(x: nat) {
    x != 0 && BitAnd(x, x - 1) == 0
  }

  lemma {:induction false} IsPowerOf2Exactly(x: nat)
    ensures IsPowerOf2(x) <==> IsPow2(x)
  {
    if x == 1 {
      assert x == Pow2(0);
    } else if x > 1 {
      IsPowerOf2Exactly(x / 2);
      if x % 2 == 0 {
        assert (x - 1) / 2 == x / 2 - 1 && (x - 1) % 2 == 1;
        assert IsPowerOf2(x) <==> IsPowerOf2(x / 2);
        if IsPow2(x / 2) {
          var k: nat :| x / 2 == Pow2(k);
          assert x == Pow2(k + 1);
        }
      } else {
        assert (x - 1) / 2 == x / 2 && (x - 1) % 2 == 0;
        BitAndSelf(x / 2);
      }
      if IsPow2(x) {
        var k: nat :| x == Pow2(k);
        assert k > 0 && x / 2 == Pow2(k - 1) && x % 2 == 0;
      }
    }
  }

  lemma {:induction false} BitAndSelf(x: nat)
    ensures BitAnd(x, x) == x
  {
    if x > 0 {
      BitAndSelf(x / 2);
    }
  }
}
