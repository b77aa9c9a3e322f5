// Machine words as numbers: their bits, the bitwise operations that the sources use on them, and powers of two.
module Words {
  import opened Bytes

  predicate BitAt(w: nat, k: nat)
    decreases k
  {
    if k == 0 then w % 2 == 1 else BitAt(w / 2, k - 1)
  }

  // The bitwise & of two words.
  function And(a: nat, b: nat): (r: nat)
    ensures r <= a
  {
    if a == 0 || b == 0 then 0 else 2 * And(a / 2, b / 2) + (if a % 2 == 1 && b % 2 == 1 then 1 else 0)
  }

  // __builtin_ctzll
  function TrailingZeros(w: nat): nat
    requires w != 0
  {
    if w % 2 == 1 then 0 else 1 + TrailingZeros(w / 2)
  }

  lemma {:induction false} AndBits(a: nat, b: nat, k: nat)
    ensures BitAt(And(a, b), k) <==> BitAt(a, k) && BitAt(b, k)
    decreases k
  {
    var r := And(a, b);
    if a == 0 || b == 0 {
      NoBits(0, k);
    } else {
      assert r / 2 == And(a / 2, b / 2);
      if k > 0 { AndBits(a / 2, b / 2, k - 1); }
    }
  }

  lemma {:induction false} NoBits(w: nat, k: nat)
    requires w == 0
    ensures !BitAt(w, k)
    decreases k
  {
    if k > 0 { NoBits(w / 2, k - 1); }
  }

  // The bits of w - 1: those of w above its lowest set bit, and all below it.
  lemma {:induction false} LessOne(w: nat, k: nat)
    requires w != 0
    ensures k > TrailingZeros(w) ==> (BitAt(w - 1, k) <==> BitAt(w, k))
    ensures k == TrailingZeros(w) ==> BitAt(w, k) && !BitAt(w - 1, k)
    ensures k < TrailingZeros(w) ==> !BitAt(w, k)
    decreases k
  {
    if w % 2 == 1 {
      assert (w - 1) / 2 == w / 2;
    } else {
      assert (w - 1) / 2 == w / 2 - 1;
      if k > 0 { LessOne(w / 2, k - 1); }
    }
  }

  // word & (word - 1) drops exactly the lowest set bit.
  lemma DropLowest(w: nat, k: nat)
    requires w != 0
    ensures BitAt(And(w, w - 1), k) <==> BitAt(w, k) && k != TrailingZeros(w)
  {
    AndBits(w, w - 1, k);
    LessOne(w, k);
  }

  lemma Shrinks(w: nat)
    requires w != 0
    ensures And(w, w - 1) < w
  {
    AndSymmetric(w, w - 1);
  }

  lemma {:induction false} AndSymmetric(a: nat, b: nat)
    ensures And(a, b) == And(b, a)
    decreases a
  {
    if a != 0 && b != 0 { AndSymmetric(a / 2, b / 2); }
  }

  function Pow2(n: nat): nat { if n == 0 then 1 else 2 * Pow2(n - 1) }

  lemma {:induction false} BitBelow(w: nat, n: nat, k: nat)
    requires w < Pow2(n) && BitAt(w, k)
    ensures k < n
    decreases k
  {
    if n == 0 {
      NoBits(w, k);
    } else if k > 0 {
      BitBelow(w / 2, n - 1, k - 1);
    }
  }

  lemma Twice(x: int, y: int)
    ensures (2 * x) * y == 2 * (x * y)
  {
  }

  lemma {:induction false} Pow2Sum(a: nat, b: nat)
    ensures Pow2(a + b) == Pow2(a) * Pow2(b)
  {
    if a > 0 {
      Pow2Sum(a - 1, b);
      Twice(Pow2(a - 1), Pow2(b));
    }
  }

  lemma WordSpan()
    ensures Pow2(64) == U64_SPAN
  {
    assert Pow2(4) == 16;
    Pow2Sum(4, 4);
    Pow2Sum(8, 8);
    Pow2Sum(16, 16);
    Pow2Sum(32, 32);
  }

  // ---- Powers of two ----

  // The source's test for a power of two.
  predicate IsPowerOfTwo(value: nat) { value != 0 && And(value, value - 1) == 0 }

  lemma {:induction false} AndSelf(a: nat)
    ensures And(a, a) == a
  {
    if a != 0 { AndSelf(a / 2); }
  }

  // The test accepts exactly the powers of two.
  lemma {:induction false} PowerTest(v: nat)
    ensures IsPowerOfTwo(v) <==> exists k: nat :: v == Pow2(k)
  {
    hide And;
    if v == 0 {
      forall k: nat ensures v != Pow2(k) { Pow2Positive(k); }
    } else {
      PowerHalves(v);
      if v % 2 == 1 {
        assert v == 1 ==> v == Pow2(0);
        forall k: nat ensures v == Pow2(k) ==> v == 1 {}
      } else {
        PowerTest(v / 2);
        if k: nat :| v / 2 == Pow2(k) { assert v == Pow2(k + 1); }
        if k: nat :| v == Pow2(k) { assert v / 2 == Pow2(k - 1); }
      }
    }
  }

  lemma Pow2Positive(k: nat)
    ensures Pow2(k) > 0
  {
  }

  lemma PowerHalves(v: nat)
    requires v != 0
    ensures IsPowerOfTwo(v) <==> if v % 2 == 1 then v == 1 else IsPowerOfTwo(v / 2)
  {
    if v % 2 == 1 {
      assert (v - 1) / 2 == v / 2;
      AndSelf(v / 2);
    } else {
      assert (v - 1) / 2 == v / 2 - 1;
    }
  }

  // ---- Bitwise or ----

  function Or(a: nat, b: nat): nat {
    if a == 0 && b == 0 then 0 else 2 * Or(a / 2, b / 2) + (if a % 2 == 1 || b % 2 == 1 then 1 else 0)
  }

  lemma {:induction false} OrBits(a: nat, b: nat, k: nat)
    ensures BitAt(Or(a, b), k) <==> BitAt(a, k) || BitAt(b, k)
    decreases k
  {
    var r := Or(a, b);
    assert r / 2 == Or(a / 2, b / 2);
    if k > 0 { OrBits(a / 2, b / 2, k - 1); }
  }

  lemma {:induction false} OrBelow(a: nat, b: nat, n: nat)
    requires a < Pow2(n) && b < Pow2(n)
    ensures Or(a, b) < Pow2(n)
  {
    if n > 0 && (a != 0 || b != 0) { OrBelow(a / 2, b / 2, n - 1); }
  }

  lemma {:induction false} OrZero(a: nat)
    ensures Or(a, 0) == a
  {
    if a != 0 { OrZero(a / 2); }
  }

  // Flags below 2^n put into a word whose low n bits are clear are added to it.
  lemma {:induction false} OrIsAdd(high: nat, flags: nat, n: nat)
    requires flags < Pow2(n)
    ensures Or(high * Pow2(n), flags) == high * Pow2(n) + flags
    decreases n
  {
    if n == 0 {
      OrZero(high);
    } else {
      var h := high * Pow2(n - 1);
      OrIsAdd(high, flags / 2, n - 1);
      assert high * Pow2(n) == 2 * h by { Twice(Pow2(n - 1), high); }
    }
  }
}
