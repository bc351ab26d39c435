// random_math and random_merge of algorithms/progpow/progpow_hash.cpp: the operations
// a program selects from.

module RandomOps {
  import opened Arithmetic
  import opened Words

  const WORD32: nat := 0x1_0000_0000

  // -------------------------------------------------------------- rotations

  lemma {:induction false} DownIs(x: Word, bits: nat)
    ensures ShiftedDown(x, bits) == x / Pow2(bits)
    decreases bits
  {
    if bits > 0 {
      DownIs(x / 2, bits - 1);
      Halved(x, Pow2(bits - 1));
    }
  }

  lemma Halved(x: nat, m: nat)
    requires m > 0
    ensures x / 2 / m == x / (2 * m)
  {
    var h := x / 2;
    var q, r := h / m, h % m;
    Split(h, m);
    assert x == 2 * h + x % 2;
    assert x == q * (2 * m) + (2 * r + x % 2);
    Quotient(q, 2 * r + x % 2, 2 * m);
  }

  lemma {:induction false} OrNone(a: nat, bits: nat)
    ensures Bitwise(Either, a, 0, bits) == a % Pow2(bits)
    decreases bits
  {
    if bits > 0 {
      OrNone(a / 2, bits - 1);
      HalfRemainder(a, Pow2(bits - 1));
      EitherBits(a, 0, bits);
    }
  }

  lemma EitherBits(a: nat, b: nat, bits: nat)
    requires bits > 0
    ensures Bitwise(Either, a, b, bits) ==
      2 * Bitwise(Either, a / 2, b / 2, bits - 1) + (if a % 2 == 1 || b % 2 == 1 then 1 else 0)
  {
  }

  // What is low fits under what has been shifted up.
  lemma {:induction false} OrIsSum(high: nat, low: nat, n: nat, bits: nat)
    requires n <= bits && low < Pow2(n)
    ensures Bitwise(Either, high * Pow2(n), low, bits) == (high * Pow2(n) + low) % Pow2(bits)
    decreases bits
  {
    var a := high * Pow2(n);
    if n == 0 {
      OrNone(a, bits);
    } else {
      Double(high, Pow2(n - 1));
      OrIsSum(high, low / 2, n - 1, bits - 1);
      EitherBits(a, low, bits);
      OddOnTop(high * Pow2(n - 1), low, Pow2(bits - 1));
    }
  }

  lemma OddOnTop(b: nat, low: nat, m: nat)
    requires m > 0
    ensures (2 * b + low) % (2 * m) == 2 * ((b + low / 2) % m) + low % 2
  {
    HalfRemainder(2 * b + low, m);
    assert (2 * b + low) / 2 == b + low / 2;
  }

  // A rotation moves the upper bits below the lower ones.
  lemma RotlIs(x: Word, n: nat)
    requires n <= 32
    ensures Rotl(x, n) == x % Pow2(32 - n) * Pow2(n) + x / Pow2(32 - n)
  {
    WordBits();
    Pow2Splits(n, 32);
    var p, q := Pow2(n), Pow2(32 - n);
    var low, high := x % q, x / q;
    Split(x, q);
    DownIs(x, 32 - n);
    ShiftedUp(x, low, high, p, q);
    HighIsSmall(x, p, q);
    Rotated(low, high, p, q);
    OrIsSum(low, high, n, 32);
    Quotient(0, low * p + high, WORD32);
    RotlOpens(x, n);
  }

  lemma ShiftedUp(x: nat, low: nat, high: nat, p: nat, q: nat)
    requires q > 0 && p > 0 && x == high * q + low && low < q && p * q == WORD32
    ensures x * p % WORD32 == low * p
  {
    assert x * p == high * (p * q) + low * p;
    Distributes(low, q - low, p);
    TimesMonotone(1, q - low, p);
    Quotient(high, low * p, WORD32);
  }

  lemma HighIsSmall(x: nat, p: nat, q: nat)
    requires x < WORD32 && q > 0 && p * q == WORD32
    ensures x / q < p
  {
    Split(x, q);
    if x / q >= p { TimesMonotone(p, x / q, q); }
  }

  lemma Rotated(low: nat, high: nat, p: nat, q: nat)
    requires low < q && high < p && p * q == WORD32
    ensures low * p + high < WORD32
  {
    TimesMonotone(low + 1, q, p);
    Distributes(low, 1, p);
  }

  lemma RotlBy(x: Word, n: nat, k: nat, p: nat, q: nat, low: nat, high: nat)
    requires n + k == 32 && p == Pow2(n) && q == Pow2(k) && low == x % q && high == x / q
    ensures Rotl(x, n) == low * p + high && high < p && x == high * q + low
  {
    WordBits();
    Pow2Splits(n, 32);
    RotlIs(x, n);
    HighIsSmall(x, p, q);
    Split(x, q);
  }

  // And the same number of places the other way brings them back.
  lemma RotationsCancel(x: Word, n: nat, k: nat)
    requires n + k == 32
    ensures Rotl(Rotl(x, n), k) == x
  {
    var p, q := Pow2(n), Pow2(k);
    var low, high := x % q, x / q;
    RotlBy(x, n, k, p, q, low, high);
    Quotient(low, high, p);
    RotlBy(Rotl(x, n), k, n, q, p, high, low);
  }

  // ------------------------------------------------------------- exclusive or

  lemma {:induction false} XorBitsTwice(a: nat, b: nat, bits: nat)
    requires a < Pow2(bits)
    ensures Bitwise(Exclusive, Bitwise(Exclusive, a, b, bits), b, bits) == a
    decreases bits
  {
    if bits > 0 {
      XorBitsTwice(a / 2, b / 2, bits - 1);
      ExclusiveBits(a, b, bits);
      var c := Bitwise(Exclusive, a, b, bits);
      ExclusiveBits(c, b, bits);
      assert c / 2 == Bitwise(Exclusive, a / 2, b / 2, bits - 1);
    }
  }

  lemma ExclusiveBits(a: nat, b: nat, bits: nat)
    requires bits > 0
    ensures Bitwise(Exclusive, a, b, bits) ==
      2 * Bitwise(Exclusive, a / 2, b / 2, bits - 1) + (if (a % 2 == 1) != (b % 2 == 1) then 1 else 0)
  {
  }

  lemma XorTwice(a: Word, b: Word)
    ensures Xor(Xor(a, b), b) == a
  {
    WordBits();
    XorBitsTwice(a, b, 32);
  }

  // ------------------------------------------------------------ multiplication

  function Times(a: Word, b: Word): Word {
    a * b % WORD32
  }

  const THIRTY_THREE: Word := 33
  const INVERSE_33: Word := 0x3E0F_83E1

  lemma TimesFolds(x: nat, k: nat)
    ensures x % WORD32 * k % WORD32 == x * k % WORD32
  {
    var q, r := x / WORD32, x % WORD32;
    Split(x, WORD32);
    Split(r * k, WORD32);
    var s := r * k / WORD32;
    assert x * k == (q * k + s) * WORD32 + r * k % WORD32;
    Quotient(q * k + s, r * k % WORD32, WORD32);
  }

  // 33 is odd, so 32 bits lose nothing by it.
  lemma By33Cancels(a: Word)
    ensures Times(Times(a, THIRTY_THREE), INVERSE_33) == a
    ensures Times(Times(a, INVERSE_33), THIRTY_THREE) == a
  {
    TimesFolds(a * THIRTY_THREE, INVERSE_33);
    TimesFolds(a * INVERSE_33, THIRTY_THREE);
    assert a * THIRTY_THREE * INVERSE_33 == 8 * a * WORD32 + a;
    assert a * INVERSE_33 * THIRTY_THREE == 8 * a * WORD32 + a;
    Quotient(8 * a, a, WORD32);
  }

  function Less(a: Word, b: Word): Word {
    if a >= b then a - b else a + WORD32 - b
  }

  lemma SumCancels(a: Word, b: Word)
    ensures Less(Add(a, b), b) == a && Add(Less(a, b), b) == a
  {
  }

  // ------------------------------------------------------------- random_merge

  function Places(selector: Word): (x: nat)
    ensures 1 <= x <= 31
  {
    selector / 0x1_0000 % 31 + 1
  }

  function RandomMerge(a: Word, b: Word, selector: Word): Word {
    var x := Places(selector);
    match selector % 4
    case 0 => Add(Times(a, THIRTY_THREE), b)
    case 1 => Times(Xor(a, b), THIRTY_THREE)
    case 2 => Xor(Rotl(a, x), b)
    case _ => Xor(Rotl(a, 32 - x), b)
  }

  function Unmerged(a: Word, b: Word, selector: Word): Word {
    var x := Places(selector);
    match selector % 4
    case 0 => Times(Less(a, b), INVERSE_33)
    case 1 => Xor(Times(a, INVERSE_33), b)
    case 2 => Rotl(Xor(a, b), 32 - x)
    case _ => Rotl(Xor(a, b), x)
  }

  // Every case keeps the entropy of the first operand: whatever is folded into it, it
  // can be had back, and every word comes up.
  lemma MergeKeepsEntropy(a: Word, b: Word, selector: Word)
    ensures Unmerged(RandomMerge(a, b, selector), b, selector) == a
    ensures RandomMerge(Unmerged(a, b, selector), b, selector) == a
  {
    var x := Places(selector);
    match selector % 4
    case 0 =>
      SumCancels(Times(a, THIRTY_THREE), b);
      SumCancels(a, b);
      By33Cancels(a);
      By33Cancels(Less(a, b));
    case 1 =>
      By33Cancels(Xor(a, b));
      By33Cancels(a);
      XorTwice(a, b);
      XorTwice(Times(a, INVERSE_33), b);
    case 2 =>
      XorTwice(Rotl(a, x), b);
      XorTwice(a, b);
      RotationsCancel(a, x, 32 - x);
      RotationsCancel(Xor(a, b), 32 - x, x);
    case _ =>
      XorTwice(Rotl(a, 32 - x), b);
      XorTwice(a, b);
      RotationsCancel(a, 32 - x, x);
      RotationsCancel(Xor(a, b), x, 32 - x);
  }

  // -------------------------------------------------------------- random_math

  function BitLength(x: nat): (n: nat)
    ensures x < Pow2(n) && (n > 0 ==> Pow2(n - 1) <= x)
  {
    if x == 0 then 0 else 1 + BitLength(x / 2)
  }

  function Ones(x: nat): nat {
    if x == 0 then 0 else x % 2 + Ones(x / 2)
  }

  lemma LengthOfWord(x: Word)
    ensures BitLength(x) <= 32
  {
    WordBits();
    if BitLength(x) > 32 { Pow2Monotone(32, BitLength(x) - 1); }
  }

  lemma LengthDoubles(x: nat, y: nat)
    requires x > 0 && y == 2 * x
    ensures BitLength(y) == BitLength(x) + 1
  {
    assert y / 2 == x;
  }

  lemma TopBit(x: Word)
    ensures x >= 0x8000_0000 <==> BitLength(x) == 32
  {
    WordBits();
    LengthOfWord(x);
    if BitLength(x) < 32 { Pow2Monotone(BitLength(x), 31); }
  }

  // clz32
  method LeadingZeros(x: Word) returns (n: nat)
    ensures BitLength(x) <= 32 && n == 32 - BitLength(x)
  {
    n := 0;
    var y := x;
    LengthOfWord(x);
    while n < 32 && y < 0x8000_0000
      invariant n <= 32 && if x == 0 then y == 0 else y > 0 && BitLength(y) == BitLength(x) + n <= 32
      decreases 32 - n
    {
      y := Doubled(y);
      n := n + 1;
    }
    TopBit(y);
  }

  // x <<= 1, of a word without its highest bit.
  method Doubled(x: Word) returns (y: Word)
    requires x < 0x8000_0000
    ensures y == 2 * x % WORD32 && if x == 0 then y == 0 else y > 0 && BitLength(y) == BitLength(x) + 1 <= 32
  {
    y := 2 * x % WORD32;
    assert y == 2 * x;
    if x > 0 {
      LengthDoubles(x, y);
      LengthOfWord(y);
    }
  }

  // popcount32
  method PopCount(x: Word) returns (n: nat)
    ensures n == Ones(x)
  {
    n := 0;
    var y := x;
    while y != 0
      invariant n + Ones(y) == Ones(x)
      decreases y
    {
      n := n + y % 2;
      y := y / 2;
    }
  }

  lemma {:induction false} OnesAtMost(x: nat, bits: nat)
    requires x < Pow2(bits)
    ensures Ones(x) <= bits
  {
    if x > 0 { OnesAtMost(x / 2, bits - 1); }
  }

  function CountedTogether(a: Word, b: Word): Word {
    WordBits();
    OnesAtMost(a, 32);
    OnesAtMost(b, 32);
    Ones(a) + Ones(b)
  }

  function HighProduct(a: Word, b: Word): Word {
    WordBits();
    HighOfProduct(a, b);
    a * b / WORD32
  }

  lemma HighOfProduct(a: Word, b: Word)
    ensures a * b / WORD32 < WORD32
  {
    TimesMonotone(a, WORD32, b);
    DivMonotone(a * b, WORD32 * b, WORD32);
    Quotient(b, 0, WORD32);
  }

  function RandomMath(a: Word, b: Word, selector: Word): Word {
    match selector % 11
    case 0 => Add(a, b)
    case 1 => Times(a, b)
    case 2 => HighProduct(a, b)
    case 3 => if a < b then a else b
    case 4 => Rotl(a, b % 32)
    case 5 => Rotl(a, (32 - b % 32) % 32)
    case 6 => And(a, b)
    case 7 => Or(a, b)
    case 8 => Xor(a, b)
    case 9 =>
      LengthOfWord(a);
      LengthOfWord(b);
      (32 - BitLength(a)) + (32 - BitLength(b))
    case _ => CountedTogether(a, b)
  }

  // The switch, where the counts are loops and the rotations are masked to five bits.
  method RandomMathSwitch(a: Word, b: Word, selector: Word) returns (r: Word)
    ensures r == RandomMath(a, b, selector)
  {
    WordBits();
    match selector % 11
    case 0 => r := Add(a, b);
    case 1 => r := Times(a, b);
    case 2 => r := HighProduct(a, b);
    case 3 => r := if a < b then a else b;
    case 4 =>
      FiveBits(b);
      r := Rotl(a, And(b, 31));
    case 5 =>
      FiveBits(b);
      FiveBits(32 - And(b, 31));
      r := Rotl(a, And(32 - And(b, 31), 31));
    case 6 => r := And(a, b);
    case 7 => r := Or(a, b);
    case 8 => r := Xor(a, b);
    case 9 =>
      var m := LeadingZeros(a);
      var n := LeadingZeros(b);
      r := m + n;
    case _ =>
      var m := PopCount(a);
      var n := PopCount(b);
      OnesAtMost(a, 32);
      OnesAtMost(b, 32);
      r := m + n;
  }

  lemma FiveBits(b: Word)
    ensures And(b, 31) == b % 32
  {
    assert Pow2(5) == 32;
    MaskIsRemainder(b, 5);
  }

  lemma RotatingCases(a: Word, b: Word, selector: Word)
    ensures selector % 11 == 4 ==> RandomMath(a, b, selector) == Rotl(a, b % 32)
    ensures selector % 11 == 5 ==> RandomMath(a, b, selector) == Rotl(a, (32 - b % 32) % 32)
  {
  }

  lemma RotatesBack(a: Word, n: nat, m: nat)
    requires n == m == 0 || n + m == 32
    ensures Rotl(Rotl(a, n), m) == a
  {
    if n + m == 32 {
      RotationsCancel(a, n, m);
    } else {
      RotateNone(a);
    }
  }

  lemma FiveAfterFour(a: Word, b: Word, x: Word, selector: Word)
    requires x == Rotl(a, b % 32) && selector % 11 == 5
    ensures RandomMath(x, b, selector) == a
  {
    var n, m := b % 32, (32 - b % 32) % 32;
    RotatingCases(x, b, selector);
    RotatesBack(a, n, m);
  }

  lemma FourAfterFive(a: Word, b: Word, x: Word, selector: Word)
    requires x == Rotl(a, (32 - b % 32) % 32) && selector % 11 == 4
    ensures RandomMath(x, b, selector) == a
  {
    var n, m := b % 32, (32 - b % 32) % 32;
    RotatingCases(x, b, selector);
    RotatesBack(a, m, n);
  }

  // Cases 4 and 5 undo each other, a rotation by nothing included.
  lemma RotatingCasesCancel(a: Word, b: Word, four: Word, five: Word)
    requires four % 11 == 4 && five % 11 == 5
    ensures RandomMath(RandomMath(a, b, four), b, five) == a
    ensures RandomMath(RandomMath(a, b, five), b, four) == a
  {
    RotatingCases(a, b, four);
    RotatingCases(a, b, five);
    FiveAfterFour(a, b, RandomMath(a, b, four), five);
    FourAfterFive(a, b, RandomMath(a, b, five), four);
  }

  lemma RotateNone(a: Word)
    ensures Rotl(a, 0) == a
  {
    WordBits();
    RotlIs(a, 0);
    Quotient(0, a, WORD32);
  }
}
