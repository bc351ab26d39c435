// What algorithms/scrypt/scrypt.cpp is made of, told step by step and bit by bit: the
// examples of the Salsa20 specification, the sequences of RFC 7914, the pads of RFC 2104
// and the blocks of RFC 8018.

module ScryptLaws {
  import opened Arithmetic
  import opened Closed
  import opened Octets
  import opened Words
  import opened Salsa
  import opened Romix
  import opened Pbkdf2
  import opened Scrypt
  import B = Bits
  import R = RandomOps

  // -------------------------------------------------------------- salsa20/8

  lemma {:induction false} XorNone(b: nat, n: nat)
    ensures Bitwise(Exclusive, 0, b, n) == b % Pow2(n)
    decreases n
  {
    if n > 0 {
      XorNone(b / 2, n - 1);
      HalfRemainder(b, Pow2(n - 1));
      R.ExclusiveBits(0, b, n);
    }
  }

  // A word xored into nothing is itself, and one that is even goes beside a 1.
  lemma XorWith(x: Word)
    ensures Xor(0, x) == x && (x % 2 == 0 ==> Xor(1, x) == x + 1)
  {
    WordBits();
    XorNone(x, 32);
    Quotient(0, x, Pow2(32));
    XorNone(x / 2, 31);
    R.ExclusiveBits(1, x, 32);
    R.Halved(x, Pow2(30));
    Quotient(0, x / 2, Pow2(31));
  }

  lemma Turned(x: Word, n: nat, p: nat, q: nat, y: Word)
    requires n <= 32 && p == Pow2(n) && q == Pow2(32 - n) && y == x % q * p + x / q
    ensures Rotl(x, n) == y
  {
    R.RotlIs(x, n);
  }

  lemma Powers()
    ensures Pow2(7) == 0x80 && Pow2(9) == 0x200 && Pow2(13) == 0x2000 && Pow2(18) == 0x4_0000
    ensures Pow2(25) == 0x200_0000 && Pow2(23) == 0x80_0000 && Pow2(19) == 0x8_0000 && Pow2(14) == 0x4000
  {
    assert Pow2(2) == 4 && Pow2(3) == 8 && Pow2(4) == 16 && Pow2(5) == 32 && Pow2(7) == 128;
    Pow2Splits(4, 9);
    Pow2Splits(4, 13);
    Pow2Splits(9, 18);
    Pow2Splits(7, 14);
    Pow2Splits(5, 19);
    Pow2Splits(4, 23);
    Pow2Splits(2, 25);
  }

  const STIRS: nat := 41

  // One step of a quarter round, closed.
  ghost predicate Stirs(x: Word, a: Word, b: Word, bits: Shift, z: Word) {
    forall u: int {:trigger Opened(STIRS, u)} :: Opened(STIRS, u) ==> Stirred(x, a, b, bits) == z
  }

  // A quarter round, closed.
  ghost predicate Quarters(y0: Word, y1: Word, y2: Word, y3: Word, z0: Word, z1: Word, z2: Word, z3: Word) {
    forall u: int {:trigger Opened(STIRS, u)} :: Opened(STIRS, u) ==>
      QuarterRound<Word>(Stirred, y0, y1, y2, y3) == (z0, z1, z2, z3)
  }

  lemma Stir(x: Word, a: Word, b: Word, bits: nat, p: nat, q: nat, y: Word, z: Word)
    requires bits <= 32 && p == Pow2(bits) && q == Pow2(32 - bits) && a + b < 0x1_0000_0000
    requires y == (a + b) % q * p + (a + b) / q && (x == 0 || (x == 1 && y % 2 == 0)) && z == x + y
    ensures Stirs(x, a, b, bits, z)
  {
    Turned(a + b, bits, p, q, y);
    StirTurned(x, a, b, bits, a + b, y);
  }

  lemma StirTurned(x: Word, a: Word, b: Word, bits: Shift, sum: Word, y: Word)
    requires sum == a + b && Rotl(sum, bits) == y && (x == 0 || (x == 1 && y % 2 == 0))
    ensures Stirred(x, a, b, bits) == x + y
  {
    assert Add(a, b) == sum;
    XorWith(y);
  }

  lemma QuarterIs(y0: Word, y1: Word, y2: Word, y3: Word, z0: Word, z1: Word, z2: Word, z3: Word)
    requires Stirs(y1, y0, y3, 7, z1) && Stirs(y2, z1, y0, 9, z2) && Stirs(y3, z2, z1, 13, z3) && Stirs(y0, z3, z2, 18, z0)
    ensures Quarters(y0, y1, y2, y3, z0, z1, z2, z3)
  {
    assert Opened(STIRS, 0);
  }

  lemma FirstExample()
    ensures Quarters(1, 0, 0, 0, 0x800_8145, 0x80, 0x1_0200, 0x2050_0000)
  {
    Powers();
    Stir(0, 1, 0, 7, 0x80, 0x200_0000, 0x80, 0x80);
    Stir(0, 0x80, 1, 9, 0x200, 0x80_0000, 0x1_0200, 0x1_0200);
    Stir(0, 0x1_0200, 0x80, 13, 0x2000, 0x8_0000, 0x2050_0000, 0x2050_0000);
    Stir(1, 0x2050_0000, 0x1_0200, 18, 0x4_0000, 0x4000, 0x800_8144, 0x800_8145);
    QuarterIs(1, 0, 0, 0, 0x800_8145, 0x80, 0x1_0200, 0x2050_0000);
  }

  lemma SecondExample()
    ensures Quarters(0, 1, 0, 0, 0x8800_0100, 1, 0x200, 0x40_2000)
  {
    Powers();
    Stir(1, 0, 0, 7, 0x80, 0x200_0000, 0, 1);
    Stir(0, 1, 0, 9, 0x200, 0x80_0000, 0x200, 0x200);
    Stir(0, 0x200, 1, 13, 0x2000, 0x8_0000, 0x40_2000, 0x40_2000);
    Stir(0, 0x40_2000, 0x200, 18, 0x4_0000, 0x4000, 0x8800_0100, 0x8800_0100);
    QuarterIs(0, 1, 0, 0, 0x8800_0100, 1, 0x200, 0x40_2000);
  }

  lemma ThirdExample()
    ensures Quarters(0, 0, 1, 0, 0x8004_0000, 0, 1, 0x2000)
  {
    Powers();
    Stir(0, 0, 0, 7, 0x80, 0x200_0000, 0, 0);
    Stir(1, 0, 0, 9, 0x200, 0x80_0000, 0, 1);
    Stir(0, 1, 0, 13, 0x2000, 0x8_0000, 0x2000, 0x2000);
    Stir(0, 0x2000, 1, 18, 0x4_0000, 0x4000, 0x8004_0000, 0x8004_0000);
    QuarterIs(0, 0, 1, 0, 0x8004_0000, 0, 1, 0x2000);
  }

  lemma FourthExample()
    ensures Quarters(0, 0, 0, 1, 0x4_8044, 0x80, 0x1_0000, 0x2010_0001)
  {
    Powers();
    Stir(0, 0, 1, 7, 0x80, 0x200_0000, 0x80, 0x80);
    Stir(0, 0x80, 0, 9, 0x200, 0x80_0000, 0x1_0000, 0x1_0000);
    Stir(1, 0x1_0000, 0x80, 13, 0x2000, 0x8_0000, 0x2010_0000, 0x2010_0001);
    Stir(0, 0x2010_0001, 0x1_0000, 18, 0x4_0000, 0x4000, 0x4_8044, 0x4_8044);
    QuarterIs(0, 0, 0, 1, 0x4_8044, 0x80, 0x1_0000, 0x2010_0001);
  }

  // Section 3 of the Salsa20 specification: four of its examples of quarterround.
  lemma QuarterRoundExamples()
    ensures Quarters(1, 0, 0, 0, 0x800_8145, 0x80, 0x1_0200, 0x2050_0000)
    ensures Quarters(0, 1, 0, 0, 0x8800_0100, 1, 0x200, 0x40_2000)
    ensures Quarters(0, 0, 1, 0, 0x8004_0000, 0, 1, 0x2000)
    ensures Quarters(0, 0, 0, 1, 0x4_8044, 0x80, 0x1_0000, 0x2010_0001)
  {
    FirstExample();
    SecondExample();
    ThirdExample();
    FourthExample();
  }

  // Word j of row i and of column i, from the diagonal on and round.
  function InRow(i: nat, j: nat): (k: nat)
    requires i < 4 && j < 4
    ensures k < 16
  {
    4 * i + Round(i + j)
  }

  function InColumn(i: nat, j: nat): (k: nat)
    requires i < 4 && j < 4
    ensures k < 16
  {
    i + 4 * Round(i + j)
  }

  function Round(n: nat): (r: nat)
    requires n < 8
    ensures r == n % 4
  {
    if n < 4 then n else n - 4
  }

  // A row round is a quarter round on each row, from its word on the diagonal round,
  lemma RowsAreQuarters<W>(f: Step<W>, y: seq<W>, i: nat)
    requires |y| == 16 && i < 4
    ensures var r := RowRound(f, y);
            (r[InRow(i, 0)], r[InRow(i, 1)], r[InRow(i, 2)], r[InRow(i, 3)]) ==
              QuarterRound(f, y[InRow(i, 0)], y[InRow(i, 1)], y[InRow(i, 2)], y[InRow(i, 3)])
  {
    if i == 0 {
      FirstRow(f, y);
    } else if i == 1 {
      SecondRow(f, y);
    } else if i == 2 {
      ThirdRow(f, y);
    } else {
      FourthRow(f, y);
    }
  }

  lemma FirstRow<W>(f: Step<W>, y: seq<W>)
    requires |y| == 16
    ensures var r := RowRound(f, y); (r[0], r[1], r[2], r[3]) == QuarterRound(f, y[0], y[1], y[2], y[3])
  {
  }

  lemma SecondRow<W>(f: Step<W>, y: seq<W>)
    requires |y| == 16
    ensures var r := RowRound(f, y); (r[5], r[6], r[7], r[4]) == QuarterRound(f, y[5], y[6], y[7], y[4])
  {
  }

  lemma ThirdRow<W>(f: Step<W>, y: seq<W>)
    requires |y| == 16
    ensures var r := RowRound(f, y); (r[10], r[11], r[8], r[9]) == QuarterRound(f, y[10], y[11], y[8], y[9])
  {
  }

  lemma FourthRow<W>(f: Step<W>, y: seq<W>)
    requires |y| == 16
    ensures var r := RowRound(f, y); (r[15], r[12], r[13], r[14]) == QuarterRound(f, y[15], y[12], y[13], y[14])
  {
  }

  // and a column round the same on the columns.
  lemma ColumnsAreQuarters<W>(f: Step<W>, y: seq<W>, i: nat)
    requires |y| == 16 && i < 4
    ensures var c := ColumnRound(f, y);
            (c[InColumn(i, 0)], c[InColumn(i, 1)], c[InColumn(i, 2)], c[InColumn(i, 3)]) ==
              QuarterRound(f, y[InColumn(i, 0)], y[InColumn(i, 1)], y[InColumn(i, 2)], y[InColumn(i, 3)])
  {
    var t := Transposed(y);
    RowsAreQuarters(f, t, i);
    forall j | 0 <= j < 4
      ensures t[InRow(i, j)] == y[InColumn(i, j)] && Transposed(RowRound(f, t))[InColumn(i, j)] == RowRound(f, t)[InRow(i, j)]
    {
      TransposedAt(y, i, j);
      TransposedAt(RowRound(f, t), i, j);
    }
  }

  lemma TransposedAt<W>(y: seq<W>, i: nat, j: nat)
    requires |y| == 16 && i < 4 && j < 4
    ensures Transposed(y)[InRow(i, j)] == y[InColumn(i, j)] && Transposed(y)[InColumn(i, j)] == y[InRow(i, j)]
  {
    Crossed(y, i, Round(i + j));
    Crossed(y, Round(i + j), i);
  }

  lemma Crossed<W>(y: seq<W>, i: nat, j: nat)
    requires |y| == 16 && i < 4 && j < 4
    ensures Transposed(y)[4 * i + j] == y[i + 4 * j]
  {
  }

  function Sum(a: nat, b: nat): nat {
    a + b
  }

  // The number four bytes make, the highest first.
  function FourBytes(b3: nat, b2: nat, b1: nat, b0: nat): nat {
    b3 * 0x100_0000 + b2 * 0x1_0000 + b1 * 0x100 + b0
  }

  // The core: column and row rounds in turn, four of each, and then the block is added.
  lemma CoreIsRounds(f: Step<Word>, b: Block, x: seq<seq<Word>>)
    requires f == Stirred && |x| == 5 && x[0] == b && forall k :: 0 <= k < 5 ==> |x[k]| == 16
    requires forall k :: 0 <= k < 4 ==> x[k + 1] == RowRound(f, ColumnRound(f, x[k]))
    ensures forall k :: 0 <= k < 16 ==> Core(b)[k] == Sum(b[k], x[4][k]) % 0x1_0000_0000
  {
    var c := OpenedCore(f, b, x);
    forall k | 0 <= k < 16 ensures c[k] == Sum(b[k], x[4][k]) % 0x1_0000_0000 {
      assert c[k] == Add(b[k], x[4][k]);
    }
  }

  lemma OpenedCore(f: Step<Word>, b: Block, x: seq<seq<Word>>) returns (c: Block)
    requires f == Stirred && |x| == 5 && x[0] == b && forall k :: 0 <= k < 5 ==> |x[k]| == 16
    requires forall k :: 0 <= k < 4 ==> x[k + 1] == RowRound(f, ColumnRound(f, x[k]))
    ensures c == Core(b) && forall k :: 0 <= k < 16 ==> c[k] == Add(b[k], x[4][k])
  {
    CoreIs(b);
    c := Core(b);
    CoreSteps(f, Add, b, x, c);
  }

  lemma CoreSteps<W>(f: Step<W>, add: (W, W) -> W, b: seq<W>, x: seq<seq<W>>, c: seq<W>)
    requires |x| == 5 && x[0] == b && forall k :: 0 <= k < 5 ==> |x[k]| == 16
    requires forall k :: 0 <= k < 4 ==> x[k + 1] == RowRound(f, ColumnRound(f, x[k]))
    requires c == CoreOf(f, add, b)
    ensures |c| == 16 && forall k :: 0 <= k < 16 ==> c[k] == add(b[k], x[4][k])
  {
    FourDoubleRounds(f, b, x);
  }

  lemma FourDoubleRounds<W>(f: Step<W>, b: seq<W>, x: seq<seq<W>>)
    requires |x| == 5 && x[0] == b && |b| == 16 && forall k :: 0 <= k < 5 ==> |x[k]| == 16
    requires forall k :: 0 <= k < 4 ==> x[k + 1] == RowRound(f, ColumnRound(f, x[k]))
    ensures DoubleRounds(f, b, 4) == x[4]
  {
    assert DoubleRounds(f, b, 0) == x[0];
    assert DoubleRounds(f, b, 1) == x[1];
    assert DoubleRounds(f, b, 2) == x[2];
    assert DoubleRounds(f, b, 3) == x[3];
  }

  // ---------------------------------------------------- block_mix and romix

  // Where the result of block i goes: even ones in the first half, odd ones in the second.
  function Half(i: nat, r: nat): nat {
    if i % 2 == 0 then i / 2 else r + i / 2
  }

  // Section 4 of RFC 7914: the first result is of the first block and the last, every
  // other of its block and the result before it.
  lemma BlockMixSteps(b: Blocks, r: nat, i: nat)
    requires |b| == 2 * r && i < 2 * r
    ensures var m := BlockMix(b);
            && Half(i, r) < 2 * r && (i > 0 ==> Half(i - 1, r) < 2 * r)
            && m[Half(i, r)] == Core(XorBlock(if i == 0 then b[2 * r - 1] else m[Half(i - 1, r)], b[i]))
  {
    var m := BlockMix(b);
    BlockMixIs(b);
    assert Shuffled(Half(i, r), r) == i;
    assert m[Half(i, r)] == Y(b, i) == Core(XorBlock(Chained(b, i), b[i]));
    if i > 0 {
      assert Shuffled(Half(i - 1, r), r) == i - 1;
      assert m[Half(i - 1, r)] == Y(b, i - 1) == Chained(b, i);
    }
  }

  // Bit j of word k of blocks xored.
  lemma XorBlockBit(a: Block, b: Block, k: nat, j: nat)
    requires k < 16 && j < 32
    ensures B.Bit(XorBlock(a, b)[k], j) <==> B.Bit(a[k], j) != B.Bit(b[k], j)
  {
    B.BitOfBitwise(Exclusive, a[k], b[k], 32, j);
  }

  // Section 5: the scratchpad and what the second loop makes of it. X comes out of the
  // first loop mixed once more, and goes through the second n times.
  lemma RoMixSteps(b: Blocks, n: Cost) returns (v: seq<Blocks>, x: seq<Blocks>)
    ensures |v| == n && v[0] == b && (forall i :: 0 < i < n ==> v[i] == BlockMix(v[i - 1]))
    ensures |x| == n + 1 && x[0] == BlockMix(v[n - 1]) && x[n] == RoMix(b, n)
    ensures forall i :: 0 <= i < n ==> |v[i]| == |b|
    ensures forall i :: 0 <= i < n ==> |x[i]| == |b| && x[i + 1] == BlockMix(XorBlocks(x[i], v[Integerify(x[i]) % n]))
  {
    RoMixIs(b, n);
    v := Fillings(b, n);
    x := Readings(b, n);
    forall i | 0 <= i < n
      ensures |x[i]| == |b| && x[i + 1] == BlockMix(XorBlocks(x[i], v[Integerify(x[i]) % n]))
    {
      NextRead(b, n, i);
      assert v[Integerify(x[i]) % n] == Filled(b, Integerify(x[i]) % n);
    }
  }

  lemma Fillings(b: Blocks, n: Cost) returns (v: seq<Blocks>)
    ensures |v| == n && v[0] == b && (forall i :: 0 < i < n ==> v[i] == BlockMix(v[i - 1]))
    ensures (forall i :: 0 <= i < n ==> v[i] == Filled(b, i)) && Filled(b, n) == BlockMix(v[n - 1])
  {
    v := seq(n, i requires 0 <= i < n => Filled(b, i));
    forall i | 0 < i < n ensures v[i] == BlockMix(v[i - 1]) {
      assert v[i] == Filled(b, i) && v[i - 1] == Filled(b, i - 1);
    }
  }

  lemma Readings(b: Blocks, n: Cost) returns (x: seq<Blocks>)
    ensures |x| == n + 1 && x[0] == Filled(b, n) && forall i :: 0 <= i <= n ==> x[i] == Read(b, n, i)
  {
    x := seq(n + 1, i requires 0 <= i <= n => Read(b, n, i));
  }

  lemma NextRead(b: Blocks, n: Cost, i: nat)
    ensures var x := Read(b, n, i); Read(b, n, i + 1) == BlockMix(XorBlocks(x, Filled(b, Integerify(x) % n)))
  {
  }

  // Integerify reads the last block, 32 bits a word, the lowest first.
  lemma IntegerifyWord(x: Blocks, k: nat)
    requires k < 16
    ensures Integerify(x) / Pow2(32 * k) % 0x1_0000_0000 == x[|x| - 1][k]
  {
    EndianWord(x[|x| - 1], k);
  }

  lemma {:induction false} EndianWord(w: seq<Word>, k: nat)
    requires k < |w|
    ensures LittleEndian(w) / Pow2(32 * k) % 0x1_0000_0000 == w[k]
    decreases k
  {
    var rest := LittleEndian(w[1..]);
    if k == 0 {
      assert Pow2(0) == 1;
      Quotient(rest, w[0], 0x1_0000_0000);
    } else {
      EndianWord(w[1..], k - 1);
      WordBits();
      Pow2Splits(32, 32 * k);
      Quotient(rest, w[0], 0x1_0000_0000);
      DividedTwice(LittleEndian(w), 0x1_0000_0000, Pow2(32 * (k - 1)));
    }
  }

  lemma DividedTwice(x: nat, a: nat, b: nat)
    requires a > 0 && b > 0
    ensures x / (a * b) == x / a / b
  {
    var q := x / a;
    Split(x, a);
    Split(q, b);
    var s, t := q % b, x % a;
    assert x == (q / b * b + s) * a + t;
    assert (q / b * b + s) * a == q / b * (a * b) + s * a by { Distributes(q / b * b, s, a); Regrouped(q / b, b, a); }
    TimesMonotone(s + 1, b, a);
    Distributes(s, 1, a);
    Quotient(q / b, s * a + t, a * b);
  }

  lemma Regrouped(x: nat, y: nat, z: nat)
    ensures x * y * z == x * (z * y)
  {
  }

  // ------------------------------------------------------------------- hmac

  // The bits RFC 2104 turns round in every byte of the key: 0x36 and 0x5c.
  const INNER: set<nat> := {1, 2, 4, 5}
  const OUTER: set<nat> := {2, 3, 4, 6}

  // A block of the key, or of its hash if it is longer, filled up with zeros, with those
  // bits turned round.
  ghost predicate IsPad(pad: Bytes, sha: Hash, key: Bytes, bits: set<nat>) {
    var k := if |key| <= 64 then key else sha(key);
    && |pad| == 64
    && forall i, j :: 0 <= i < 64 && 0 <= j < 8 ==> (B.Bit(pad[i], j) <==> (i < |k| && B.Bit(k[i], j)) != (j in bits))
  }

  lemma MaskedByte(x: byte, mask: byte, j: nat)
    requires j < 8
    ensures B.Bit(Xor8(x, mask), j) <==> B.Bit(x, j) != B.Bit(mask, j)
  {
    B.BitOfBitwise(Exclusive, x, mask, 8, j);
  }

  lemma PadBits(j: nat)
    requires j < 8
    ensures B.Bit(0x36, j) <==> j in INNER
    ensures B.Bit(0x5c, j) <==> j in OUTER
    ensures !B.Bit(0, j)
  {
    assert Pow2(0) == 1 && Pow2(1) == 2 && Pow2(2) == 4 && Pow2(3) == 8;
    assert Pow2(4) == 16 && Pow2(5) == 32 && Pow2(6) == 64 && Pow2(7) == 128;
  }

  lemma MaskedIsPad(sha: Hash, key: Bytes, mask: byte, bits: set<nat>)
    requires forall j :: 0 <= j < 8 ==> (B.Bit(mask, j) <==> j in bits)
    ensures IsPad(Masked(Padded(sha, key), mask), sha, key, bits)
  {
    var k, pad := Padded(sha, key), Masked(Padded(sha, key), mask);
    forall i, j | 0 <= i < 64 && 0 <= j < 8
      ensures B.Bit(pad[i], j) <==> B.Bit(k[i], j) != (j in bits)
    {
      MaskedByte(k[i], mask, j);
    }
    forall j | 0 <= j < 8 ensures !B.Bit(0, j) { PadBits(j); }
  }

  // RFC 2104, without the masks.
  lemma HmacPads(sha: Hash, key: Bytes, msg: Bytes) returns (inner: Bytes, outer: Bytes)
    ensures IsPad(inner, sha, key, {1, 2, 4, 5}) && IsPad(outer, sha, key, {2, 3, 4, 6})
    ensures Hmac(sha, key, msg) == sha(outer + sha(inner + msg))
  {
    inner, outer := Masked(Padded(sha, key), 0x36), Masked(Padded(sha, key), 0x5c);
    forall j | 0 <= j < 8 ensures (B.Bit(0x36, j) <==> j in INNER) && (B.Bit(0x5c, j) <==> j in OUTER) { PadBits(j); }
    MaskedIsPad(sha, key, 0x36, INNER);
    MaskedIsPad(sha, key, 0x5c, OUTER);
    HmacIs(sha, key, msg);
  }

  // ------------------------------------------------------------------ pbkdf2

  // How many of the blocks have bit j of byte k set, odd or even.
  predicate OddlySet(u: seq<Digest>, k: nat, j: nat)
    requires k < 32
  {
    u != [] && OddlySet(u[..|u| - 1], k, j) != B.Bit(u[|u| - 1][k], j)
  }

  lemma {:induction false} FoldedBit(sha: Hash, password: Bytes, message: Bytes, u: seq<Digest>, k: nat, j: nat)
    requires u != [] && k < 32 && j < 8
    requires forall i :: 0 <= i < |u| ==> u[i] == Iterate(sha, password, message, i + 1)
    ensures B.Bit(Folded(sha, password, message, |u|)[k], j) <==> OddlySet(u, k, j)
    decreases |u|
  {
    var before, last := u[..|u| - 1], u[|u| - 1];
    if before == [] {
      assert OddlySet(u, k, j) == (OddlySet(before, k, j) != B.Bit(last[k], j));
      assert !OddlySet(before, k, j);
    } else {
      FoldedBit(sha, password, message, before, k, j);
      MaskedByte(Folded(sha, password, message, |u| - 1)[k], last[k], j);
    }
  }

  // Section 5.2 of RFC 8018: byte k of a key is byte k mod 32 of block k / 32 + 1, whose
  // bits are those set in an odd number of its iterates; the first iterate is the MAC of
  // the salt and the block's number, highest byte first, and each other that of the last.
  lemma KeyBytes(sha: Hash, password: Bytes, salt: Bytes, iterations: nat, len: nat, k: nat) returns (u: seq<Digest>, number: Bytes)
    requires k < len && len <= 0xffff_ffff * 32
    ensures |u| == if iterations == 0 then 1 else iterations
    ensures |number| == 4 && FourBytes(number[0], number[1], number[2], number[3]) == k / 32 + 1
    ensures u[0] == Hmac(sha, password, salt + number)
    ensures forall i :: 0 < i < |u| ==> u[i] == Hmac(sha, password, u[i - 1])
    ensures forall j :: 0 <= j < 8 ==>
      (B.Bit(DerivedKey(sha, password, salt, iterations, len)[k], j) <==> OddlySet(u, k % 32, j))
  {
    var block := k / 32 + 1;
    number := BigEndian(block);
    NumberReadsBack(block);
    var message := salt + number;
    u := seq(if iterations == 0 then 1 else iterations, i requires 0 <= i => Iterate(sha, password, message, i + 1));
    KeyByte(sha, password, salt, iterations, len, k);
    forall j | 0 <= j < 8
      ensures B.Bit(F(sha, password, salt, iterations, block)[k % 32], j) <==> OddlySet(u, k % 32, j)
    {
      FoldedBit(sha, password, message, u, k % 32, j);
    }
  }

  lemma NumberReadsBack(x: Word)
    ensures var b := BigEndian(x); FourBytes(b[0], b[1], b[2], b[3]) == x
  {
    var y := x / 0x100;
    var z := y / 0x100;
    assert x / 0x1_0000 == z && x / 0x100_0000 == z / 0x100;
  }

  lemma KeyByte(sha: Hash, password: Bytes, salt: Bytes, iterations: nat, len: nat, k: nat)
    requires k < len && len <= 0xffff_ffff * 32
    ensures DerivedKey(sha, password, salt, iterations, len)[k] == F(sha, password, salt, iterations, k / 32 + 1)[k % 32]
  {
    CountersAreNumbersIff(len);
    var l := BlocksFor(len);
    assert k / 32 < l && Counter(k / 32 + 1) == k / 32 + 1;
    ByteOfBlock(sha, password, salt, iterations, l, k);
  }

  lemma {:induction false} ByteOfBlock(sha: Hash, password: Bytes, salt: Bytes, iterations: nat, l: nat, k: nat)
    requires k < 32 * l
    ensures Concatenated(sha, password, salt, iterations, l)[k] == F(sha, password, salt, iterations, Counter(k / 32 + 1))[k % 32]
    decreases l
  {
    if k < 32 * (l - 1) {
      ByteOfBlock(sha, password, salt, iterations, l - 1, k);
    }
  }

  // ------------------------------------------------------------------ scrypt

  // Section 6 of RFC 7914: the key is derived from the parts, each of them mixed; the
  // words of a part are little-endian, before and after.
  lemma KeyFromParts(sha: Hash, password: Bytes, salt: Bytes, n: Word, r: nat, p: nat, len: nat) returns (b: Bytes, m: Bytes)
    requires r >= 1 && n >= 1
    ensures b == DerivedKey(sha, password, salt, 1, p * (128 * r)) && |m| == |b|
    ensures ScryptOf(sha, password, salt, n, r, p, len) == DerivedKey(sha, password, m, 1, len)
    ensures forall i :: 0 <= i < p ==> PartMixed(b, m, n, r, i)
  {
    b := DerivedKey(sha, password, salt, 1, Offset(p, 128 * r));
    m := Parts(b, r, n, p);
    forall i | 0 <= i < p ensures PartMixed(b, m, n, r, i) {
      PartIsMixed(b, m, n, r, p, i);
    }
  }

  // Words of little-endian bytes.
  ghost predicate Spells(bytes: Bytes, words: seq<Word>) {
    && |bytes| == 4 * |words|
    && forall k :: 0 <= k < |words| ==>
         words[k] == FourBytes(bytes[4 * k + 3], bytes[4 * k + 2], bytes[4 * k + 1], bytes[4 * k])
  }

  // Blocks of sixteen words each.
  ghost predicate Grouped(words: seq<Word>, b: Blocks) {
    |words| == 16 * |b| && forall i, k :: 0 <= i < |b| && 0 <= k < 16 ==> b[i][k] == words[16 * i + k]
  }

  // A part in bytes and words, and what it is mixed into.
  ghost predicate Mixes(lane: Bytes, x: seq<Word>, c: Blocks, n: Cost, y: seq<Word>, m: Bytes) {
    Spells(lane, x) && Grouped(x, c) && Grouped(y, RoMix(c, n)) && Spells(m, y)
  }

  // Part `i` of the result is that of the first, mixed.
  ghost predicate PartMixed(b: Bytes, m: Bytes, n: Cost, r: nat, i: nat) {
    && |b| == |m| && i * (128 * r) + 128 * r <= |b|
    && IsMixed(b[i * (128 * r)..i * (128 * r) + 128 * r], n, m[i * (128 * r)..i * (128 * r) + 128 * r])
  }

  ghost predicate IsMixed(lane: Bytes, n: Cost, m: Bytes) {
    exists x, c, y :: Mixes(lane, x, c, n, y, m)
  }

  lemma PartIsMixed(b: Bytes, m: Bytes, n: Word, r: nat, p: nat, i: nat)
    requires r >= 1 && n >= 1 && i < p && Offset(p, 128 * r) == |b| && m == Parts(b, r, n, p)
    ensures PartMixed(b, m, n, r, i)
  {
    PartAt(b, r, n, p, i);
    var x, c, y := WordsOfPart(Lane(b, Offset(i, 128 * r), r), n, r);
  }

  lemma {:induction false} PartAt(b: Bytes, r: nat, n: nat, p: nat, i: nat)
    requires r >= 1 && n >= 1 && i < p && Offset(p, 128 * r) <= |b|
    ensures Offset(i, 128 * r) + 128 * r <= Offset(p, 128 * r)
    ensures var at := Offset(i, 128 * r); Parts(b, r, n, p)[at..at + 128 * r] == Part(Lane(b, at, r), r, n)
    decreases p
  {
    OffsetsApart(i, p, 128 * r);
    var before, last := LastPart(b, r, n, p);
    if i < p - 1 {
      PartAt(b, r, n, p - 1, i);
      InFront(before, last, Offset(i, 128 * r), 128 * r);
    } else {
      AtTheEnd(before, last, Offset(i, 128 * r), 128 * r);
    }
  }

  lemma LastPart(b: Bytes, r: nat, n: nat, p: nat) returns (before: Bytes, last: Bytes)
    requires r >= 1 && n >= 1 && p > 0 && Offset(p, 128 * r) <= |b|
    ensures Offset(p - 1, 128 * r) + 128 * r == Offset(p, 128 * r) <= |b|
    ensures before == Parts(b, r, n, p - 1) && last == Part(Lane(b, Offset(p - 1, 128 * r), r), r, n)
    ensures Parts(b, r, n, p) == before + last && |before| == Offset(p - 1, 128 * r) && |last| == 128 * r
  {
    NextOffset(p - 1, 128 * r);
    before, last := Parts(b, r, n, p - 1), Part(Lane(b, Offset(p - 1, 128 * r), r), r, n);
  }

  lemma AtTheEnd(a: Bytes, b: Bytes, at: nat, n: nat)
    requires at == |a| && n == |b|
    ensures (a + b)[at..at + n] == b
  {
  }

  lemma InFront(a: Bytes, b: Bytes, at: nat, n: nat)
    requires at + n <= |a|
    ensures (a + b)[at..at + n] == a[at..at + n]
  {
  }

  lemma WordsOfPart(lane: Bytes, n: Word, r: nat) returns (x: seq<Word>, c: Blocks, y: seq<Word>)
    requires r >= 1 && n >= 1 && |lane| == 128 * r
    ensures Mixes(lane, x, c, n, y, Part(lane, r, n))
  {
    x := Decoded(lane);
    c := BlocksAt(x, 0, 2 * r);
    y := Flat(RoMix(c, n), 2 * r);
    PartOpens(lane, r, n);
    FlatAt(RoMix(c, n), 2 * r);
    EncodedSpells(y);
    DecodedSpells(lane, x);
  }

  lemma DecodedSpells(lane: Bytes, x: seq<Word>)
    requires |lane| % 4 == 0 && x == Decoded(lane)
    ensures Spells(lane, x)
  {
  }

  lemma {:induction false} FlatAt(b: Blocks, k: nat)
    requires k <= |b|
    ensures forall i, j :: 0 <= i < k && 0 <= j < 16 ==> b[i][j] == Flat(b, k)[16 * i + j]
    decreases k
  {
    if k > 0 { FlatAt(b, k - 1); }
  }

  lemma EncodedSpells(w: seq<Word>)
    ensures Spells(Encoded(w), w)
  {
    var e := Encoded(w);
    forall k | 0 <= k < |w|
      ensures w[k] == FourBytes(e[4 * k + 3], e[4 * k + 2], e[4 * k + 1], e[4 * k])
    {
      EncodedAt(w, k);
      WordReadsBack(w[k]);
      var b := e[4 * k..4 * k + 4];
      assert e[4 * k] == b[0] && e[4 * k + 1] == b[1] && e[4 * k + 2] == b[2] && e[4 * k + 3] == b[3];
    }
  }
}
