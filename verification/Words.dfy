// The 32-bit words and bytes of algorithms/scrypt/scrypt.cpp as numbers, and the mask
// that stands for a remainder.

module Words {
  import opened Arithmetic
  import opened Closed
  import opened Octets

  type Word = x: int | 0 <= x < 0x1_0000_0000

  // The lowest `n` bits of two numbers, combined bit by bit.
  function Bitwise(op: (bool, bool) -> bool, a: nat, b: nat, n: nat): (r: nat)
    ensures r < Pow2(n)
    decreases a, b, n
  {
    if n == 0 then 0
    else 2 * Bitwise(op, a / 2, b / 2, n - 1) + (if op(a % 2 == 1, b % 2 == 1) then 1 else 0)
  }

  lemma WordBits()
    ensures Pow2(32) == 0x1_0000_0000 && Pow2(8) == 0x100
  {
    assert Pow2(1) == 2 && Pow2(2) == 4;
    Pow2Splits(2, 4);
    Pow2Splits(4, 8);
    Pow2Splits(8, 16);
    Pow2Splits(16, 32);
  }

  function Exclusive(p: bool, q: bool): bool { p != q }

  function Both(p: bool, q: bool): bool { p && q }

  function Either(p: bool, q: bool): bool { p || q }

  function Xor(a: Word, b: Word): Word {
    WordBits();
    Bitwise(Exclusive, a, b, 32)
  }

  function And(a: Word, b: Word): Word {
    WordBits();
    Bitwise(Both, a, b, 32)
  }

  function Or(a: Word, b: Word): Word {
    WordBits();
    Bitwise(Either, a, b, 32)
  }

  function Xor8(a: byte, b: byte): byte {
    WordBits();
    Bitwise(Exclusive, a, b, 8)
  }

  function Add(a: Word, b: Word): Word {
    (a + b) % 0x1_0000_0000
  }

  type Shift = n: nat | n <= 32

  function OpenRotl(s: (Word, Shift)): Word {
    Or(s.0 * Pow2(s.1) % 0x1_0000_0000, ShiftedDown(s.0, 32 - s.1))
  }

  // rotl32, closed: RotlOpens opens it.
  function Rotl(x: Word, bits: Shift): Word {
    Behind(OpenRotl, (x, bits), x)
  }

  lemma RotlOpens(x: Word, bits: Shift)
    ensures Rotl(x, bits) == Or(x * Pow2(bits) % 0x1_0000_0000, ShiftedDown(x, 32 - bits))
  {
    BehindIs<(Word, Shift), Word>(OpenRotl, (x, bits), x);
  }

  function ShiftedDown(x: Word, bits: nat): (r: Word)
  {
    if bits == 0 then x else ShiftedDown(x / 2, bits - 1)
  }

  // -------------------------------------------------------------- the mask

  lemma {:induction false} NoBits(a: nat, n: nat)
    ensures Bitwise(Both, a, 0, n) == 0
    decreases n
  {
    if n > 0 { NoBits(a / 2, n - 1); }
  }

  lemma HalfRemainder(a: nat, m: nat)
    requires m > 0
    ensures a % (2 * m) == 2 * (a / 2 % m) + a % 2
  {
    var q, s := a / 2 / m, a / 2 % m;
    assert a == 2 * (q * m + s) + a % 2;
    assert a == q * (2 * m) + (2 * s + a % 2);
    Quotient(q, 2 * s + a % 2, 2 * m);
  }

  lemma NextMask(a: nat, p: nat, n: nat)
    requires p > 0 && n > 0 && Bitwise(Both, a / 2, p - 1, n - 1) == a / 2 % p
    ensures Bitwise(Both, a, 2 * p - 1, n) == a % (2 * p)
  {
    var m := 2 * p - 1;
    assert m / 2 == p - 1 && m % 2 == 1;
    BothBits(a, m, n);
    HalfRemainder(a, p);
  }

  lemma {:induction false} MaskOfPow2(a: nat, k: nat, n: nat)
    requires k <= n
    ensures Bitwise(Both, a, Pow2(k) - 1, n) == a % Pow2(k)
    decreases n
  {
    if k == 0 {
      NoBits(a, n);
    } else {
      MaskOfPow2(a / 2, k - 1, n - 1);
      NextMask(a, Pow2(k - 1), n);
    }
  }

  // The mask is the remainder of every power of two a word can hold.
  lemma MaskIsRemainder(a: Word, k: nat)
    requires k < 32
    ensures Pow2(k) <= 0x8000_0000 && And(a, Pow2(k) - 1) == a % Pow2(k)
  {
    WordBits();
    Pow2Monotone(k, 31);
    MaskOfPow2(a, k, 32);
  }

  ghost predicate IsPow2(n: nat) {
    exists k: nat :: n == Pow2(k)
  }

  lemma {:induction false} SelfMask(m: nat, n: nat)
    ensures Bitwise(Both, m, m, n) == m % Pow2(n)
    decreases n
  {
    if n > 0 {
      SelfMask(m / 2, n - 1);
      HalfRemainder(m, Pow2(n - 1));
    }
  }

  lemma OddMask(n: nat, bits: nat)
    requires n % 2 == 1 && n < Pow2(bits)
    ensures Bitwise(Both, n, n - 1, bits) == n - 1
  {
    var m := n / 2;
    assert bits > 0;
    SelfMask(m, bits - 1);
    assert m < Pow2(bits - 1);
    Quotient(0, m, Pow2(bits - 1));
    BothBits(n, n - 1, bits);
    assert (n - 1) / 2 == m;
  }

  lemma EvenMask(n: nat, bits: nat)
    requires n % 2 == 0 && 0 < n < Pow2(bits)
    ensures bits > 0 && n / 2 > 0 && Bitwise(Both, n, n - 1, bits) == 2 * Bitwise(Both, n / 2, n / 2 - 1, bits - 1)
  {
    assert bits > 0;
    BothBits(n, n - 1, bits);
    assert (n - 1) / 2 == n / 2 - 1;
  }

  lemma BothBits(a: nat, b: nat, bits: nat)
    requires bits > 0
    ensures Bitwise(Both, a, b, bits) ==
      2 * Bitwise(Both, a / 2, b / 2, bits - 1) + (if a % 2 == 1 && b % 2 == 1 then 1 else 0)
  {
  }

  lemma {:induction false} LowestBitCleared(n: nat, bits: nat)
    requires 1 <= n < Pow2(bits)
    ensures Bitwise(Both, n, n - 1, bits) == 0 <==> IsPow2(n)
    decreases bits
  {
    if n % 2 == 1 {
      OddMask(n, bits);
      if n == 1 {
        assert n == Pow2(0);
      } else {
        OddIsNot(n);
      }
    } else {
      EvenMask(n, bits);
      LowestBitCleared(n / 2, bits - 1);
      HalfIsPow2(n);
    }
  }

  lemma OddIsNot(n: nat)
    requires n % 2 == 1 && n > 1
    ensures !IsPow2(n)
  {
    forall k: nat ensures n != Pow2(k) {
      if k > 0 { assert Pow2(k) == 2 * Pow2(k - 1); }
    }
  }

  lemma HalfIsPow2(n: nat)
    requires n % 2 == 0 && n > 0
    ensures IsPow2(n) <==> IsPow2(n / 2)
  {
    if k: nat :| n == Pow2(k) {
      assert k > 0 && n / 2 == Pow2(k - 1);
    }
    if k: nat :| n / 2 == Pow2(k) {
      assert n == Pow2(k + 1);
    }
  }

  // The test n & (n - 1) passes exactly the powers of two.
  lemma GuardIsPow2(n: Word)
    requires n > 0
    ensures And(n, n - 1) == 0 <==> IsPow2(n)
  {
    WordBits();
    LowestBitCleared(n, 32);
  }

  lemma WordPow2(n: Word)
    requires IsPow2(n)
    ensures exists k: nat :: k < 32 && n == Pow2(k)
  {
    var k: nat :| n == Pow2(k);
    WordBits();
    if k >= 32 {
      Pow2Monotone(32, k);
      assert false;
    }
  }

  // ---------------------------------------------------------- little endian

  // Words, the lowest first, as one number.
  function LittleEndian(w: seq<Word>): nat {
    if w == [] then 0 else w[0] + 0x1_0000_0000 * LittleEndian(w[1..])
  }

  // A remainder by a power of two that a word can hold sees the first word only.
  lemma LowWordDecides(w: seq<Word>, k: nat)
    requires |w| > 0 && k < 32
    ensures LittleEndian(w) % Pow2(k) == w[0] % Pow2(k)
  {
    WordBits();
    LowBitsDecide(w[0], LittleEndian(w[1..]), k, 32);
  }

  lemma LowBitsDecide(a: nat, h: nat, k: nat, n: nat)
    requires k <= n
    ensures (a + Pow2(n) * h) % Pow2(k) == a % Pow2(k)
  {
    Pow2Splits(k, n);
    Regroup(Pow2(n - k), Pow2(k), h);
    AddMultiple(a, Pow2(n - k) * h, Pow2(k));
  }

  lemma Regroup(c: nat, m: nat, h: nat)
    ensures (m * c) * h == (c * h) * m
  {
  }

  lemma AddMultiple(a: nat, q: nat, m: nat)
    requires m > 0
    ensures (a + q * m) % m == a % m
  {
    var d := a / m;
    assert a + q * m == (d + q) * m + a % m;
    Quotient(d + q, a % m, m);
  }
}
