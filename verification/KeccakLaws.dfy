// The steps and tables of keccak_f800 against section 3.2 of FIPS 202: what each step
// does to a bit, and where the offsets and the round constants come from.

module KeccakLaws {
  import opened Closed
  import opened Keccak
  import A = Arithmetic

  // Bit z of word (x, y), where the coordinates go round.
  predicate At(st: State, x: int, y: int, z: int) {
    st[x % 5 + 5 * (y % 5)][z % 32]
  }

  // The parity of a column.
  predicate Parity(st: State, x: int, z: int) {
    (((At(st, x, 0, z) != At(st, x, 1, z)) != At(st, x, 2, z)) != At(st, x, 3, z)) != At(st, x, 4, z)
  }

  lemma Within(x: nat, y: nat, z: nat)
    requires x < 5 && y < 5 && z < 32
    ensures x % 5 == x && y % 5 == y && z % 32 == z
    ensures (x - 1) % 5 == Left(x, 1) && (x + 1) % 5 == Right(x, 1) && (x + 2) % 5 == Right(x, 2)
    ensures (z - 1) % 32 == Back(z, 1)
  {
  }

  lemma AtIs(st: State, x: int, y: int, z: int, i: nat, w: nat)
    requires i == x % 5 + 5 * (y % 5) && w == z % 32
    ensures At(st, x, y, z) == st[i][w]
  {
  }

  lemma ParityIsColumn(st: State, x: int, z: int, c: nat, w: nat)
    requires c == x % 5 && w == z % 32
    ensures Parity(st, x, z) <==> Column(st, c)[w]
  {
    AtIs(st, x, 0, z, c, w);
    AtIs(st, x, 1, z, c + 5, w);
    AtIs(st, x, 2, z, c + 10, w);
    AtIs(st, x, 3, z, c + 15, w);
    AtIs(st, x, 4, z, c + 20, w);
  }

  lemma ThetaWord(st: State, x: nat, y: nat, z: nat)
    requires x < 5 && y < 5 && z < 32
    ensures var i := x + 5 * y;
            Theta(st)[i][z] <==> (st[i][z] != (Column(st, Left(x, 1))[z] != Column(st, Right(x, 1))[Back(z, 1)]))
  {
    Coordinates(x + 5 * y, x, y);
  }

  // The two bits and the two parities.
  lemma ThetaParts(st: State, x: nat, y: nat, z: nat) returns (was: bool, now: bool, before: bool, behind: bool)
    requires x < 5 && y < 5 && z < 32
    ensures was == At(st, x, y, z) && now == At(Theta(st), x, y, z)
    ensures before == Parity(st, x - 1, z) && behind == Parity(st, x + 1, z - 1)
    ensures now == (was != (before != behind))
  {
    var i := x + 5 * y;
    was, now := st[i][z], Theta(st)[i][z];
    before, behind := Column(st, Left(x, 1))[z], Column(st, Right(x, 1))[Back(z, 1)];
    ThetaWord(st, x, y, z);
    Within(x, y, z);
    AtIs(st, x, y, z, i, z);
    AtIs(Theta(st), x, y, z, i, z);
    ParityIsColumn(st, x - 1, z, Left(x, 1), z);
    ParityIsColumn(st, x + 1, z - 1, Right(x, 1), Back(z, 1));
  }

  // Theta, section 3.2.1: a bit and the parities of the column before and of the one
  // behind it, a bit lower.
  lemma ThetaBit(st: State, x: nat, y: nat, z: nat)
    requires x < 5 && y < 5 && z < 32
    ensures At(Theta(st), x, y, z) <==> (At(st, x, y, z) != (Parity(st, x - 1, z) != Parity(st, x + 1, z - 1)))
  {
    var was, now, before, behind := ThetaParts(st, x, y, z);
  }

  // The word and the bit that (x, y) and z go to.
  lemma RhoPiPlace(x: nat, y: nat, z: nat) returns (i: nat, j: nat, w: nat)
    requires x < 5 && y < 5 && z < 32
    ensures i == x + 5 * y == x % 5 + 5 * (y % 5) < 25 && z == z % 32
    ensures j == Dest(i) == y % 5 + 5 * ((2 * x + 3 * y) % 5) < 25 && w == Ahead(z, Turn(i)) == (z + RHO[i]) % 32
  {
    i := x + 5 * y;
    j, w := Dest(i), Ahead(z, Turn(i));
    Coordinates(i, x, y);
    MovedTo(x, y, z, Turn(i));
    Within(x, y, z);
  }

  // Rho and pi, sections 3.2.2 and 3.2.3: bit z of word (x, y) goes up by the word's
  // offset, into word (y, 2 x + 3 y).
  lemma RhoPiBit(st: State, x: nat, y: nat, z: nat)
    requires x < 5 && y < 5 && z < 32
    ensures At(RhoPi(st), y, 2 * x + 3 * y, z + RHO[x + 5 * y]) <==> At(st, x, y, z)
  {
    var i, j, w := RhoPiPlace(x, y, z);
    AtIs(st, x, y, z, i, z);
    AtIs(RhoPi(st), y, 2 * x + 3 * y, z + RHO[i], j, w);
    RhoPiWord(st, i, z);
  }

  lemma RhoPiWord(st: State, i: nat, z: nat)
    requires i < 25 && z < 32
    ensures RhoPi(st)[Dest(i)][Ahead(z, Turn(i))] == st[i][z]
  {
    DestIsOneToOne(i);
    GoesAhead(z, Turn(i));
  }

  lemma MovedTo(x: nat, y: nat, z: nat, n: nat)
    requires x < 5 && y < 5 && z < 32 && n < 32
    ensures y % 5 + 5 * ((2 * x + 3 * y) % 5) == Dest(x + 5 * y) && (z + n) % 32 == Ahead(z, n)
  {
    Coordinates(x + 5 * y, x, y);
    GoesAhead(z, n);
  }

  lemma GoesAhead(z: nat, n: nat)
    requires z < 32 && n < 32
    ensures (z + n) % 32 == Ahead(z, n) && Back(Ahead(z, n), n) == z
  {
  }

  // Where the offsets come from: the walk from (1, 0) that pi makes, through all words
  // but the first, and the triangular numbers.
  function Walk(t: nat): (p: (nat, nat))
    ensures p.0 < 5 && p.1 < 5
  {
    if t == 0 then (1, 0) else var p := Walk(t - 1); (p.1, (2 * p.0 + 3 * p.1) % 5)
  }

  function Triangle(n: nat): nat {
    if n == 0 then 0 else Triangle(n - 1) + n
  }

  ghost predicate TriangularAt(t: nat) {
    forall u: int {:trigger Opened(WALK, u)} :: Opened(WALK, u) ==>
      RHO[Walk(t).0 + 5 * Walk(t).1] == Triangle(t + 1) % 32
  }

  const WALK: nat := 40

  // The walk is at (x, y) after `t` steps, when the next number is `n`.
  ghost predicate Stands(t: nat, x: nat, y: nat, n: nat) {
    forall u: int {:trigger Opened(WALK, u)} :: Opened(WALK, u) ==> Walk(t) == (x, y) && Triangle(t + 1) == n
  }

  lemma StandsOn(t: nat, x: nat, y: nat, n: nat, z: nat, m: nat)
    requires Stands(t, x, y, n) && x < 5 && y < 5 && RHO[x + 5 * y] == n % 32
    requires z == Mod5(2 * x + 3 * y) && m == n + t + 2
    ensures TriangularAt(t) && Stands(t + 1, y, z, m)
  {
    assert Opened(WALK, 0);
  }

  lemma Offsets0To3(t: nat)
    requires t == 0 && Stands(t, 1, 0, 1)
    ensures forall k :: t <= k < t + 4 ==> TriangularAt(k)
    ensures Stands(t + 4, 2, 3, 15)
  {
    StandsOn(t, 1, 0, 1, 2, 3);
    StandsOn(t + 1, 0, 2, 3, 1, 6);
    StandsOn(t + 2, 2, 1, 6, 2, 10);
    StandsOn(t + 3, 1, 2, 10, 3, 15);
  }

  lemma Offsets4To7(t: nat)
    requires t == 4 && Stands(t, 2, 3, 15)
    ensures forall k :: t <= k < t + 4 ==> TriangularAt(k)
    ensures Stands(t + 4, 1, 3, 45)
  {
    StandsOn(t, 2, 3, 15, 3, 21);
    StandsOn(t + 1, 3, 3, 21, 0, 28);
    StandsOn(t + 2, 3, 0, 28, 1, 36);
    StandsOn(t + 3, 0, 1, 36, 3, 45);
  }

  lemma Offsets8To11(t: nat)
    requires t == 8 && Stands(t, 1, 3, 45)
    ensures forall k :: t <= k < t + 4 ==> TriangularAt(k)
    ensures Stands(t + 4, 4, 0, 91)
  {
    StandsOn(t, 1, 3, 45, 1, 55);
    StandsOn(t + 1, 3, 1, 55, 4, 66);
    StandsOn(t + 2, 1, 4, 66, 4, 78);
    StandsOn(t + 3, 4, 4, 78, 0, 91);
  }

  lemma Offsets12To15(t: nat)
    requires t == 12 && Stands(t, 4, 0, 91)
    ensures forall k :: t <= k < t + 4 ==> TriangularAt(k)
    ensures Stands(t + 4, 3, 2, 153)
  {
    StandsOn(t, 4, 0, 91, 3, 105);
    StandsOn(t + 1, 0, 3, 105, 4, 120);
    StandsOn(t + 2, 3, 4, 120, 3, 136);
    StandsOn(t + 3, 4, 3, 136, 2, 153);
  }

  lemma Offsets16To19(t: nat)
    requires t == 16 && Stands(t, 3, 2, 153)
    ensures forall k :: t <= k < t + 4 ==> TriangularAt(k)
    ensures Stands(t + 4, 4, 2, 231)
  {
    StandsOn(t, 3, 2, 153, 2, 171);
    StandsOn(t + 1, 2, 2, 171, 0, 190);
    StandsOn(t + 2, 2, 0, 190, 4, 210);
    StandsOn(t + 3, 0, 4, 210, 2, 231);
  }

  lemma Offsets20To23(t: nat)
    requires t == 20 && Stands(t, 4, 2, 231)
    ensures forall k :: t <= k < t + 4 ==> TriangularAt(k)
    ensures Stands(t + 4, 1, 0, 325)
  {
    StandsOn(t, 4, 2, 231, 4, 253);
    StandsOn(t + 1, 2, 4, 253, 1, 276);
    StandsOn(t + 2, 4, 1, 276, 1, 300);
    StandsOn(t + 3, 1, 1, 300, 0, 325);
  }

  lemma AllOffsets(t: nat)
    requires t < 1
    ensures forall k :: 0 <= k < 24 ==> TriangularAt(k)
  {
    assert Stands(t, 1, 0, 1);
    Offsets0To3(t);
    Offsets4To7(t + 4);
    Offsets8To11(t + 8);
    Offsets12To15(t + 12);
    Offsets16To19(t + 16);
    Offsets20To23(t + 20);
  }

  lemma OffsetsAreTriangular(t: nat)
    requires t < 24
    ensures var (x, y) := Walk(t); RHO[x + 5 * y] == Triangle(t + 1) % 32
    ensures RHO[0] == 0
  {
    AllOffsets(t - t);
    assert TriangularAt(t);
    assert Opened(WALK, 0);
  }

  // Chi, section 3.2.4.
  lemma ChiBit(st: State, x: nat, y: nat, z: nat)
    requires x < 5 && y < 5 && z < 32
    ensures At(Chi(st), x, y, z) <==> (At(st, x, y, z) != (!At(st, x + 1, y, z) && At(st, x + 2, y, z)))
  {
    Within(x, y, z);
    Coordinates(x + 5 * y, x, y);
    ChiIsWordByWord(st, x + 5 * y);
  }

  // ------------------------------------------------------ the round constants

  // The shift register of section 3.2.5, algorithm 5: x^8 + x^6 + x^5 + x^4 + 1.
  function Register(t: nat): bv8 {
    if t == 0 then 1 else Shifted(Register(t - 1))
  }

  function Shifted(r: bv8): bv8 {
    (r << 1) ^ (if r >= 128 then 0x71 else 0)
  }

  predicate Rc(t: nat) {
    Register(t) & 1 == 1
  }

  function Sum(c0: bool, c1: bool, c2: bool, c3: bool, c4: bool, c5: bool): nat {
    One(c0) + 2 * (One(c1) + 4 * (One(c2) + 16 * (One(c3) + 256 * (One(c4) + 65536 * One(c5)))))
  }

  function One(c: bool): nat {
    if c then 1 else 0
  }

  function Seven(r: bv8): bv8 {
    Shifted(Shifted(Shifted(Shifted(Shifted(Shifted(Shifted(r)))))))
  }

  function ConstantOf(r: bv8): nat {
    var r1 := Shifted(r);
    var r2 := Shifted(r1);
    var r3 := Shifted(r2);
    var r4 := Shifted(r3);
    var r5 := Shifted(r4);
    Sum(r & 1 == 1, r1 & 1 == 1, r2 & 1 == 1, r3 & 1 == 1, r4 & 1 == 1, r5 & 1 == 1)
  }

  lemma SevenOn(t: nat)
    ensures Register(t + 7) == Seven(Register(t))
  {
    var r := Register(t);
    assert Register(t + 1) == Shifted(r);
    assert Register(t + 2) == Shifted(Shifted(r));
    assert Register(t + 3) == Shifted(Shifted(Shifted(r)));
    assert Register(t + 4) == Shifted(Register(t + 3));
    assert Register(t + 5) == Shifted(Register(t + 4));
    assert Register(t + 6) == Shifted(Register(t + 5));
    assert Register(t + 7) == Shifted(Register(t + 6));
  }

  predicate ConstantAt(round: nat) {
    round < ROUNDS && ROUND_CONSTANTS[round] == ConstantOf(Register(7 * round))
  }

  lemma ConstantOn(round: nat, r: bv8, next: bv8)
    requires round < ROUNDS && Register(7 * round) == r && ROUND_CONSTANTS[round] == ConstantOf(r) && next == Seven(r)
    ensures ConstantAt(round) && Register(7 * (round + 1)) == next
  {
    SevenOn(7 * round);
  }

  lemma Constants0To2(round: nat)
    requires round == 0 && Register(7 * round) == 0x01
    ensures (forall k :: round <= k < round + 3 ==> ConstantAt(k)) && Register(7 * (round + 3)) == 0x1a
  {
    ConstantOn(round, 0x01, 0x80);
    ConstantOn(round + 1, 0x80, 0xd8);
    ConstantOn(round + 2, 0xd8, 0x1a);
  }

  lemma Constants3To5(round: nat)
    requires round == 3 && Register(7 * round) == 0x1a
    ensures (forall k :: round <= k < round + 3 ==> ConstantAt(k)) && Register(7 * (round + 3)) == 0x35
  {
    ConstantOn(round, 0x1a, 0xdf);
    ConstantOn(round + 1, 0xdf, 0x09);
    ConstantOn(round + 2, 0x09, 0x35);
  }

  lemma Constants6To8(round: nat)
    requires round == 6 && Register(7 * round) == 0x35
    ensures (forall k :: round <= k < round + 3 ==> ConstantAt(k)) && Register(7 * (round + 3)) == 0x70
  {
    ConstantOn(round, 0x35, 0x4f);
    ConstantOn(round + 1, 0x4f, 0xca);
    ConstantOn(round + 2, 0xca, 0x70);
  }

  lemma Constants9To11(round: nat)
    requires round == 9 && Register(7 * round) == 0x70
    ensures (forall k :: round <= k < round + 3 ==> ConstantAt(k)) && Register(7 * (round + 3)) == 0xd5
  {
    ConstantOn(round, 0x70, 0x41);
    ConstantOn(round + 1, 0x41, 0xec);
    ConstantOn(round + 2, 0xec, 0xd5);
  }

  lemma Constants12To14(round: nat)
    requires round == 12 && Register(7 * round) == 0xd5
    ensures (forall k :: round <= k < round + 3 ==> ConstantAt(k)) && Register(7 * (round + 3)) == 0xab
  {
    ConstantOn(round, 0xd5, 0xcd);
    ConstantOn(round + 1, 0xcd, 0x63);
    ConstantOn(round + 2, 0x63, 0xab);
  }

  lemma Constants15To17(round: nat)
    requires round == 15 && Register(7 * round) == 0xab
    ensures (forall k :: round <= k < round + 3 ==> ConstantAt(k)) && Register(7 * (round + 3)) == 0xf2
  {
    ConstantOn(round, 0xab, 0xaa);
    ConstantOn(round + 1, 0xaa, 0x2a);
    ConstantOn(round + 2, 0x2a, 0xf2);
  }

  lemma Constants18To21(round: nat)
    requires round == 18 && Register(7 * round) == 0xf2
    ensures (forall k :: round <= k < round + 4 ==> ConstantAt(k)) && Register(7 * (round + 4)) == 0x0b
  {
    ConstantOn(round, 0xf2, 0xe8);
    ConstantOn(round + 1, 0xe8, 0x37);
    ConstantOn(round + 2, 0x37, 0x3e);
    ConstantOn(round + 3, 0x3e, 0x0b);
  }

  // Bits 0, 1, 3, 7, 15 and 31 of the constant of a round are the register's output,
  // seven steps on for each round.
  lemma ConstantIs(round: nat)
    requires round < ROUNDS
    ensures var t := 7 * round;
            ROUNDS == 22 && ROUND_CONSTANTS[round] == Sum(Rc(t), Rc(t + 1), Rc(t + 2), Rc(t + 3), Rc(t + 4), Rc(t + 5))
  {
    var start := round - round;
    Constants0To2(start);
    Constants3To5(start + 3);
    Constants6To8(start + 6);
    Constants9To11(start + 9);
    Constants12To14(start + 12);
    Constants15To17(start + 15);
    Constants18To21(start + 18);
    assert ConstantAt(round);
    var t := 7 * round;
    assert Register(t + 1) == Shifted(Register(t)) && Register(t + 2) == Shifted(Register(t + 1));
    assert Register(t + 3) == Shifted(Register(t + 2)) && Register(t + 4) == Shifted(Register(t + 3));
    assert Register(t + 5) == Shifted(Register(t + 4));
  }

  // ----------------------------------------------------------------- iota

  lemma {:induction false} BitOnTop(c: bool, y: nat, n: nat, i: nat)
    requires n > 0
    ensures Bit(One(c) + A.Pow2(n) * y, i) == if i == 0 then c else i >= n && Bit(y, i - n)
    decreases n
  {
    var h := A.Pow2(n - 1) * y;
    assert One(c) + A.Pow2(n) * y == One(c) + 2 * h;
    assert (One(c) + 2 * h) / 2 == h && ((One(c) + 2 * h) % 2 == 1 <==> c);
    if i > 0 && n > 1 { BitOnTop(false, y, n - 1, i - 1); }
  }

  // What the constant has at bit i.
  lemma SumBit(c0: bool, c1: bool, c2: bool, c3: bool, c4: bool, c5: bool, i: nat)
    requires i < 32
    ensures Bit(Sum(c0, c1, c2, c3, c4, c5), i) ==
      ((i == 0 && c0) || (i == 1 && c1) || (i == 3 && c2) || (i == 7 && c3) || (i == 15 && c4) || (i == 31 && c5))
  {
    var y2 := One(c2) + 16 * (One(c3) + 256 * (One(c4) + 65536 * One(c5)));
    Powers();
    BitOnTop(c0, One(c1) + 4 * y2, 1, i);
    if i >= 1 { BitOnTop(c1, y2, 2, i - 1); }
    if i >= 3 { UpperBit(c2, c3, c4, c5, i - 3); }
  }

  lemma UpperBit(c2: bool, c3: bool, c4: bool, c5: bool, i: nat)
    requires i < 29
    ensures Bit(One(c2) + 16 * (One(c3) + 256 * (One(c4) + 65536 * One(c5))), i) ==
      ((i == 0 && c2) || (i == 4 && c3) || (i == 12 && c4) || (i == 28 && c5))
  {
    var y4 := One(c4) + 65536 * One(c5);
    Powers();
    BitOnTop(c2, One(c3) + 256 * y4, 4, i);
    if i >= 4 { BitOnTop(c3, y4, 8, i - 4); }
    if i >= 12 { BitOnTop(c4, One(c5), 16, i - 12); }
    if i >= 28 { assert Bit(One(c5), 0) == c5; }
  }

  lemma Powers()
    ensures A.Pow2(1) == 2 && A.Pow2(2) == 4 && A.Pow2(4) == 16 && A.Pow2(8) == 256 && A.Pow2(16) == 65536
  {
    assert A.Pow2(1) == 2 && A.Pow2(2) == 4;
    A.Pow2Splits(2, 4);
    A.Pow2Splits(4, 8);
    A.Pow2Splits(8, 16);
  }

  // Iota, section 3.2.5: only word (0, 0) changes, where the register says.
  lemma IotaBit(st: State, round: RoundIndex, x: nat, y: nat, z: nat)
    requires x < 5 && y < 5 && z < 32
    ensures At(Iota(st, round), x, y, z) <==> (At(st, x, y, z) != (x == 0 && y == 0 && exists j :: Taps(j, z, round)))
  {
    Within(x, y, z);
    ConstantIs(round);
    var t := 7 * round;
    SumBit(Rc(t), Rc(t + 1), Rc(t + 2), Rc(t + 3), Rc(t + 4), Rc(t + 5), z);
    TapPlaces(z, round);
    if x == 0 && y == 0 { IotaWord(st, round, z); }
  }

  lemma IotaWord(st: State, round: RoundIndex, z: nat)
    requires z < 32
    ensures Iota(st, round)[0][z] <==> (st[0][z] != Bit(ROUND_CONSTANTS[round], z))
  {
  }

  // Step j of the round's seven falls on bit 2^j - 1.
  predicate Taps(j: nat, z: nat, round: nat) {
    j <= 5 && z == A.Pow2(j) - 1 && Rc(7 * round + j)
  }

  lemma TapPlaces(z: nat, round: nat)
    requires z < 32
    ensures (exists j :: Taps(j, z, round)) <==>
      (z == 0 && Rc(7 * round)) || (z == 1 && Rc(7 * round + 1)) || (z == 3 && Rc(7 * round + 2)) ||
      (z == 7 && Rc(7 * round + 3)) || (z == 15 && Rc(7 * round + 4)) || (z == 31 && Rc(7 * round + 5))
  {
    assert A.Pow2(0) == 1 && A.Pow2(1) == 2 && A.Pow2(2) == 4 && A.Pow2(3) == 8 && A.Pow2(4) == 16 && A.Pow2(5) == 32;
    if z == 0 && Rc(7 * round) { assert Taps(0, z, round); }
    if z == 1 && Rc(7 * round + 1) { assert Taps(1, z, round); }
    if z == 3 && Rc(7 * round + 2) { assert Taps(2, z, round); }
    if z == 7 && Rc(7 * round + 3) { assert Taps(3, z, round); }
    if z == 15 && Rc(7 * round + 4) { assert Taps(4, z, round); }
    if z == 31 && Rc(7 * round + 5) { assert Taps(5, z, round); }
  }

  // A round is the five steps in this order, and there are 22, from the first on.
  lemma RoundsAreSteps(st: State, k: nat)
    requires k < 22
    ensures ROUNDS == 22 && Rounds(st, 0) == st
    ensures Rounds(st, k + 1) == Iota(Chi(RhoPi(Theta(Rounds(st, k)))), k)
  {
    RoundIs(Rounds(st, k), k);
  }
}
