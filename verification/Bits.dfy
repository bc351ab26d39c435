// The bits of a number, and what the operations on words do to each.

module Bits {
  import opened Arithmetic
  import opened Words
  import opened RandomOps

  predicate Bit(x: nat, i: nat) {
    x / Pow2(i) % 2 == 1
  }

  lemma BitAbove(x: nat, i: nat)
    requires i > 0
    ensures Bit(x, i) <==> Bit(x / 2, i - 1)
  {
    Halved(x, Pow2(i - 1));
  }

  lemma BitZero(x: nat)
    ensures Bit(x, 0) <==> x % 2 == 1
  {
    assert Pow2(0) == 1;
  }

  lemma {:induction false} BitOfBitwise(op: (bool, bool) -> bool, a: nat, b: nat, n: nat, i: nat)
    requires i < n
    ensures Bit(Bitwise(op, a, b, n), i) <==> op(Bit(a, i), Bit(b, i))
    decreases n
  {
    var r := Bitwise(op, a, b, n);
    if i == 0 {
      BitZero(a);
      BitZero(b);
      BitZero(r);
    } else {
      assert r / 2 == Bitwise(op, a / 2, b / 2, n - 1);
      BitAbove(a, i);
      BitAbove(b, i);
      BitAbove(r, i);
      BitOfBitwise(op, a / 2, b / 2, n - 1, i - 1);
    }
  }

  // Two numbers, one on top of the other.
  lemma {:induction false} BitOfJoined(high: nat, low: nat, n: nat, i: nat)
    requires low < Pow2(n)
    ensures Bit(high * Pow2(n) + low, i) <==> if i < n then Bit(low, i) else Bit(high, i - n)
    decreases n
  {
    var x := high * Pow2(n) + low;
    if n > 0 {
      Double(high, Pow2(n - 1));
      assert x == 2 * (high * Pow2(n - 1)) + low;
      assert x / 2 == high * Pow2(n - 1) + low / 2 && x % 2 == low % 2;
      if i == 0 {
        BitZero(x);
        BitZero(low);
      } else {
        BitAbove(x, i);
        BitAbove(low, i);
        BitOfJoined(high, low / 2, n - 1, i - 1);
      }
    }
  }

  lemma {:induction false} NoBitBeyond(x: nat, n: nat, i: nat)
    requires x < Pow2(n) && n <= i
    ensures !Bit(x, i)
  {
    Pow2Monotone(n, i);
    Quotient(0, x, Pow2(i));
  }

  // Numbers with the same bits are the same.
  lemma {:induction false} SameBits(x: nat, y: nat, n: nat)
    requires x < Pow2(n) && y < Pow2(n)
    requires forall i :: 0 <= i < n ==> (Bit(x, i) <==> Bit(y, i))
    ensures x == y
    decreases n
  {
    if n > 0 {
      forall i | 0 <= i < n - 1
        ensures Bit(x / 2, i) <==> Bit(y / 2, i)
      {
        BitAbove(x, i + 1);
        BitAbove(y, i + 1);
      }
      SameBits(x / 2, y / 2, n - 1);
      BitZero(x);
      BitZero(y);
    }
  }

  // Up by n places, around the end of the word.
  function Along(i: nat, n: nat): (j: nat)
    requires i < 32
    ensures j < 32
  {
    (i + n) % 32
  }

  lemma AlongIs(i: nat, n: nat)
    requires i < 32 && n <= 32
    ensures Along(i, n) == if i + n < 32 then i + n else i + n - 32
  {
  }

  lemma AlongBack(i: nat, n: nat)
    requires i < 32 && n <= 32
    ensures Along(Along(i, n), 32 - n) == i
  {
    AlongIs(i, n);
    AlongIs(Along(i, n), 32 - n);
  }

  // A rotation by n places carries bit i to bit i + n.
  lemma BitRotated(x: Word, n: nat, i: nat)
    requires n <= 32 && i < 32
    ensures Bit(Rotl(x, n), Along(i, n)) <==> Bit(x, i)
  {
    AlongIs(i, n);
    BitMoved(x, n, i, Along(i, n));
  }

  lemma BitMoved(x: Word, n: nat, i: nat, j: nat)
    requires n <= 32 && i < 32 && j == if i + n < 32 then i + n else i + n - 32
    ensures Bit(Rotl(x, n), j) <==> Bit(x, i)
  {
    var k := 32 - n;
    var p, q := Pow2(n), Pow2(k);
    var low, high := x % q, x / q;
    RotlBy(x, n, k, p, q, low, high);
    BitOfJoined(low, high, n, j);
    BitOfJoined(high, low, k, i);
  }
}
