// What random_math and random_merge compute, told by the bits and the sizes of the
// words they are given.

module RandomLaws {
  import opened Arithmetic
  import opened Words
  import opened RandomOps
  import opened Bits

  // Cases 0 to 3: the sum and the product, apart from what a word cannot hold, the rest
  // of the product, and the smaller of the two.
  lemma ArithmeticCases(a: Word, b: Word, sum: Word, low: Word, high: Word, less: Word)
    requires sum % 11 == 0 && low % 11 == 1 && high % 11 == 2 && less % 11 == 3
    ensures RandomMath(a, b, sum) == a + b || RandomMath(a, b, sum) + 0x1_0000_0000 == a + b
    ensures RandomMath(a, b, high) * 0x1_0000_0000 + RandomMath(a, b, low) == a * b
    ensures RandomMath(a, b, less) <= a && RandomMath(a, b, less) <= b
    ensures RandomMath(a, b, less) == a || RandomMath(a, b, less) == b
  {
    Split(a * b, WORD32);
  }

  // Cases 4 and 5: bit i goes up, or comes down, by the second word modulo 32.
  lemma Rotations(a: Word, b: Word, left: Word, right: Word, i: nat)
    requires left % 11 == 4 && right % 11 == 5 && i < 32
    ensures Bit(RandomMath(a, b, left), Along(i, b)) <==> Bit(a, i)
    ensures Bit(RandomMath(a, b, right), i) <==> Bit(a, Along(i, b))
  {
    var n := b % 32;
    RotatingCases(a, b, left);
    RotatingCases(a, b, right);
    AlongRemainder(i, b);
    BitRotated(a, n, i);
    BitRotatedDown(a, n, i);
  }

  lemma AlongRemainder(i: nat, b: nat)
    requires i < 32
    ensures Along(i, b) == Along(i, b % 32)
  {
  }

  lemma BitRotatedDown(a: Word, n: nat, i: nat)
    requires n < 32 && i < 32
    ensures Bit(Rotl(a, (32 - n) % 32), i) <==> Bit(a, Along(i, n))
  {
    AlongBack(i, n);
    AlongIs(i, n);
    if n == 0 {
      BitRotated(a, 0, i);
    } else {
      BitRotated(a, 32 - n, Along(i, n));
      Quotient(0, 32 - n, 32);
    }
  }

  // Cases 6, 7 and 8, bit by bit.
  lemma BitByBit(a: Word, b: Word, both: Word, either: Word, one: Word, i: nat)
    requires both % 11 == 6 && either % 11 == 7 && one % 11 == 8 && i < 32
    ensures Bit(RandomMath(a, b, both), i) <==> Bit(a, i) && Bit(b, i)
    ensures Bit(RandomMath(a, b, either), i) <==> Bit(a, i) || Bit(b, i)
    ensures Bit(RandomMath(a, b, one), i) <==> Bit(a, i) != Bit(b, i)
  {
    BitwiseCases(a, b, both);
    BitwiseCases(a, b, either);
    BitwiseCases(a, b, one);
    WordBit(Both, a, b, And(a, b), i);
    WordBit(Either, a, b, Or(a, b), i);
    WordBit(Exclusive, a, b, Xor(a, b), i);
  }

  lemma BitwiseCases(a: Word, b: Word, selector: Word)
    ensures selector % 11 == 6 ==> RandomMath(a, b, selector) == And(a, b)
    ensures selector % 11 == 7 ==> RandomMath(a, b, selector) == Or(a, b)
    ensures selector % 11 == 8 ==> RandomMath(a, b, selector) == Xor(a, b)
  {
  }

  lemma WordBit(op: (bool, bool) -> bool, a: Word, b: Word, r: Word, i: nat)
    requires i < 32 && r == Bitwise(op, a, b, 32)
    ensures Bit(r, i) <==> op(Bit(a, i), Bit(b, i))
  {
    BitOfBitwise(op, a, b, 32, i);
  }

  // The bits above the highest that is set.
  ghost predicate ClearAbove(x: Word, n: nat) {
    n <= 32 && (n < 32 ==> Bit(x, 31 - n)) && forall i :: 32 - n <= i < 32 ==> !Bit(x, i)
  }

  lemma ClearAboveIs(x: Word, n: nat)
    requires ClearAbove(x, n)
    ensures BitLength(x) == 32 - n
  {
    WordBits();
    LengthOfWord(x);
    var k := BitLength(x);
    if k > 0 { BitLengthSet(x); }
    if k < 32 - n { NoBitBeyond(x, k, 31 - n); }
  }

  lemma {:induction false} BitLengthSet(x: nat)
    requires x > 0
    ensures BitLength(x) > 0 && Bit(x, BitLength(x) - 1)
  {
    if x / 2 > 0 {
      BitLengthSet(x / 2);
      BitAbove(x, BitLength(x) - 1);
    } else {
      BitZero(x);
    }
  }

  lemma ClearAboveExists(x: Word) returns (n: nat)
    ensures ClearAbove(x, n)
  {
    LengthOfWord(x);
    n := 32 - BitLength(x);
    if x > 0 { BitLengthSet(x); }
    forall i | 32 - n <= i < 32 ensures !Bit(x, i) { NoBitBeyond(x, 32 - n, i); }
  }

  // Case 9: how many bits of each are clear above its highest.
  lemma ClearCounts(a: Word, b: Word, selector: Word) returns (m: nat, n: nat)
    requires selector % 11 == 9
    ensures ClearAbove(a, m) && ClearAbove(b, n) && RandomMath(a, b, selector) == m + n
  {
    m := ClearAboveExists(a);
    n := ClearAboveExists(b);
    ClearAboveIs(a, m);
    ClearAboveIs(b, n);
  }

  function BitsSet(x: nat, n: nat): set<nat> {
    set i: nat | i < n && Bit(x, i)
  }

  lemma {:induction false} OnesAreBits(x: nat, n: nat)
    requires x < Pow2(n)
    ensures Ones(x) == |BitsSet(x, n)|
    decreases n
  {
    if n == 0 {
      assert BitsSet(x, n) == {};
    } else {
      OnesAreBits(x / 2, n - 1);
      var lower := BitsSet(x / 2, n - 1);
      var moved := set i | i in lower :: i + 1;
      Moved(lower, moved);
      BitZero(x);
      forall i: nat ensures i in BitsSet(x, n) <==> i in moved || (i == 0 && x % 2 == 1) {
        if i > 0 {
          BitAbove(x, i);
          assert i in moved <==> i - 1 in lower;
        }
      }
      assert 0 !in moved;
      assert BitsSet(x, n) == moved + if x % 2 == 1 then {0} else {};
      if x == 0 { assert Ones(x) == x % 2 + Ones(x / 2); }
    }
  }

  lemma {:induction false} Moved(lower: set<nat>, moved: set<nat>)
    requires moved == set i | i in lower :: i + 1
    ensures |moved| == |lower|
    decreases |lower|
  {
    if lower != {} {
      var i :| i in lower;
      var rest := set j | j in lower - {i} :: j + 1;
      Moved(lower - {i}, rest);
      forall y
        ensures y in moved <==> y in rest + {i + 1}
      {
        if y in moved {
          var z :| z in lower && y == z + 1;
          if z != i { assert z in lower - {i}; }
        }
      }
      assert moved == rest + {i + 1};
    }
  }

  // Case 10: how many bits of the two are set.
  lemma SetCounts(a: Word, b: Word, selector: Word)
    requires selector % 11 == 10
    ensures RandomMath(a, b, selector) == |BitsSet(a, 32)| + |BitsSet(b, 32)|
  {
    WordBits();
    OnesAreBits(a, 32);
    OnesAreBits(b, 32);
  }

  // ----------------------------------------------------------- random_merge

  // Cases 0 and 1: 33 times the first word or of both together, apart from what a word
  // cannot hold.
  lemma Multiplied(a: Word, b: Word, x: Word, plus: Word, times: Word)
    requires plus % 4 == 0 && times % 4 == 1
    requires forall i :: 0 <= i < 32 ==> (Bit(x, i) <==> Bit(a, i) != Bit(b, i))
    ensures (33 * a + b - RandomMerge(a, b, plus)) % 0x1_0000_0000 == 0
    ensures (33 * x - RandomMerge(a, b, times)) % 0x1_0000_0000 == 0
  {
    XorIs(a, b, x);
    MultiplyingCases(a, b, plus, RandomMerge(a, b, plus));
    MultiplyingCases(a, b, times, RandomMerge(a, b, times));
    Wrapped(33 * a, b, RandomMerge(a, b, plus));
    Quotient(0, 33 * x % WORD32, WORD32);
    Wrapped(33 * x, 0, RandomMerge(a, b, times));
  }

  lemma MultiplyingCases(a: Word, b: Word, selector: Word, r: Word)
    requires r == RandomMerge(a, b, selector)
    ensures selector % 4 == 0 ==> r == (33 * a % WORD32 + b) % WORD32
    ensures selector % 4 == 1 ==> r == 33 * Xor(a, b) % WORD32
  {
  }

  lemma Wrapped(x: nat, b: nat, r: nat)
    requires r == (x % WORD32 + b) % WORD32
    ensures (x + b - r) % WORD32 == 0
  {
    Split(x, WORD32);
    Split(x % WORD32 + b, WORD32);
    Quotient(x / WORD32 + (x % WORD32 + b) / WORD32, 0, WORD32);
  }

  lemma XorIs(a: Word, b: Word, x: Word)
    requires forall i :: 0 <= i < 32 ==> (Bit(x, i) <==> Bit(a, i) != Bit(b, i))
    ensures x == Xor(a, b)
  {
    WordBits();
    forall i | 0 <= i < 32 ensures Bit(x, i) <==> Bit(Xor(a, b), i) { BitOfBitwise(Exclusive, a, b, 32, i); }
    SameBits(x, Xor(a, b), 32);
  }

  // Cases 2 and 3: the first word goes up, or comes down, by one to 31 places, as the
  // upper half of the selector says; then bit i is set in one of it and the second.
  lemma RotatedInto(a: Word, b: Word, left: Word, right: Word, places: nat, i: nat)
    requires left % 4 == 2 && right % 4 == 3 && i < 32 && 1 <= places <= 31
    requires (left / 0x1_0000 - (places - 1)) % 31 == 0 && (right / 0x1_0000 - (places - 1)) % 31 == 0
    ensures Bit(RandomMerge(a, b, left), Along(i, places)) <==> Bit(a, i) != Bit(b, Along(i, places))
    ensures Bit(RandomMerge(a, b, right), i) <==> Bit(a, Along(i, places)) != Bit(b, i)
  {
    PlacesAre(left, places);
    PlacesAre(right, places);
    MergingCases(a, b, left, places);
    MergingCases(a, b, right, places);
    UpInto(a, b, places, i, Along(i, places));
    DownInto(a, b, places, i, Along(i, places));
  }

  lemma UpInto(a: Word, b: Word, n: nat, i: nat, j: nat)
    requires i < 32 && j < 32 && n <= 32 && j == Along(i, n)
    ensures Bit(Xor(Rotl(a, n), b), j) <==> Bit(a, i) != Bit(b, j)
  {
    var x := Rotl(a, n);
    BitRotated(a, n, i);
    WordBit(Exclusive, x, b, Xor(x, b), j);
  }

  lemma DownInto(a: Word, b: Word, n: nat, i: nat, j: nat)
    requires i < 32 && j < 32 && n <= 32 && j == Along(i, n)
    ensures Bit(Xor(Rotl(a, 32 - n), b), i) <==> Bit(a, j) != Bit(b, i)
  {
    AlongBack(i, n);
    UpInto(a, b, 32 - n, j, i);
  }

  lemma MergingCases(a: Word, b: Word, selector: Word, places: nat)
    requires places == Places(selector)
    ensures selector % 4 == 2 ==> RandomMerge(a, b, selector) == Xor(Rotl(a, places), b)
    ensures selector % 4 == 3 ==> RandomMerge(a, b, selector) == Xor(Rotl(a, 32 - places), b)
  {
  }

  lemma PlacesAre(selector: Word, places: nat)
    requires 1 <= places <= 31 && (selector / 0x1_0000 - (places - 1)) % 31 == 0
    ensures Places(selector) == places
  {
    var h := selector / 0x1_0000;
    var r := h % 31;
    assert h == h / 31 * 31 + r;
  }
}
