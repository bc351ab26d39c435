// algorithms/progpow/progpow_hash.cpp, keccak_f800: sections 3.2 and 3.3 of FIPS 202
// on 25 words of 32 bits, 22 rounds. A word is its bits, lowest first: nothing here
// adds or multiplies.

module Keccak {
  import opened Closed

  type Word = w: seq<bool> | |w| == 32 witness seq(32, _ => false)

  const ROUND_CONSTANTS: seq<nat> := [
    0x00000001, 0x00008082, 0x0000808a, 0x80008000, 0x0000808b, 0x80000001,
    0x80008081, 0x00008009, 0x0000008a, 0x00000088, 0x80008009, 0x8000000a,
    0x8000808b, 0x0000008b, 0x00008089, 0x00008003, 0x00008002, 0x00000080,
    0x0000800a, 0x8000000a, 0x80008081, 0x00008080]

  const ROUNDS: nat := |ROUND_CONSTANTS|

  type RoundIndex = i: nat | i < ROUNDS

  const RHO: seq<nat> := [
    0, 1, 30, 28, 27, 4, 12, 6, 23, 20, 3, 10, 11,
    25, 7, 9, 13, 15, 21, 8, 18, 2, 29, 24, 14]

  // ------------------------------------------------------------------ words

  function Xor(a: Word, b: Word): (r: Word)
    ensures forall i :: 0 <= i < 32 ==> r[i] == (a[i] != b[i])
  {
    seq(32, i requires 0 <= i < 32 => a[i] != b[i])
  }

  function And(a: Word, b: Word): (r: Word)
    ensures forall i :: 0 <= i < 32 ==> r[i] == (a[i] && b[i])
  {
    seq(32, i requires 0 <= i < 32 => a[i] && b[i])
  }

  function Or(a: Word, b: Word): (r: Word)
    ensures forall i :: 0 <= i < 32 ==> r[i] == (a[i] || b[i])
  {
    seq(32, i requires 0 <= i < 32 => a[i] || b[i])
  }

  function Not(a: Word): (r: Word)
    ensures forall i :: 0 <= i < 32 ==> r[i] == !a[i]
  {
    seq(32, i requires 0 <= i < 32 => !a[i])
  }

  function ShiftLeft(a: Word, n: nat): (r: Word) {
    seq(32, i requires 0 <= i < 32 => i >= n && a[i - n])
  }

  function ShiftRight(a: Word, n: nat): (r: Word) {
    seq(32, i requires 0 <= i < 32 => i + n < 32 && a[i + n])
  }

  // Where the bit that comes to `i` was, and where the one at `i` goes.
  function Back(i: nat, n: nat): (j: nat)
    requires i < 32 && n < 32
    ensures j < 32
  {
    if i >= n then i - n else i + 32 - n
  }

  function Ahead(i: nat, n: nat): (j: nat)
    requires i < 32 && n < 32
    ensures j < 32
  {
    if i + n < 32 then i + n else i + n - 32
  }

  function Rotl(a: Word, n: nat): Word
    requires n < 32
  {
    seq(32, i requires 0 <= i < 32 => a[Back(i, n)])
  }

  function Rotr(a: Word, n: nat): Word
    requires n < 32
  {
    seq(32, i requires 0 <= i < 32 => a[Ahead(i, n)])
  }

  // rotl32, as it is computed.
  method Rotate(x: Word, n: nat) returns (r: Word)
    requires n < 32
    ensures r == Rotl(x, n)
  {
    r := if n == 0 then x else Or(ShiftLeft(x, n), ShiftRight(x, 32 - n));
    assert forall i :: 0 <= i < 32 ==> r[i] == x[Back(i, n)];
  }

  lemma RotationsCancel(a: Word, n: nat)
    requires n < 32
    ensures Rotr(Rotl(a, n), n) == a && Rotl(Rotr(a, n), n) == a
  {
    assert forall i :: 0 <= i < 32 ==> Back(Ahead(i, n), n) == i && Ahead(Back(i, n), n) == i;
    forall i | 0 <= i < 32 ensures Rotr(Rotl(a, n), n)[i] == a[i] && Rotl(Rotr(a, n), n)[i] == a[i] {
    }
  }

  function Bit(x: nat, i: nat): bool {
    if i == 0 then x % 2 == 1 else Bit(x / 2, i - 1)
  }

  function WordOf(x: nat): Word {
    seq(32, i requires 0 <= i < 32 => Bit(x, i))
  }

  // ------------------------------------------------------- the column parities

  // Five words: the parities of the columns, by x.
  type Five = p: seq<Word> | |p| == 5 witness seq(5, _ => seq(32, _ => false))

  function Left(x: nat, s: nat): (r: nat)
    requires x < 5 && s < 5
    ensures r < 5
  {
    if x >= s then x - s else x + 5 - s
  }

  function Right(x: nat, s: nat): (r: nat)
    requires x < 5 && s < 5
    ensures r < 5
  {
    if x + s < 5 then x + s else x + s - 5
  }

  // Each word with its neighbours `s` to either side, the right one rotated.
  function Mixed(p: Five, s: nat, n: nat, x: nat): Word
    requires s < 5 && n < 32 && x < 5
  {
    Xor(Xor(p[x], p[Left(x, s)]), Rotl(p[Right(x, s)], n))
  }

  function Spread(p: Five, s: nat, n: nat): (r: Five)
    requires s < 5 && n < 32
    ensures forall x :: 0 <= x < 5 ==> r[x] == Mixed(p, s, n, x)
  {
    seq(5, x requires 0 <= x < 5 => Mixed(p, s, n, x))
  }

  // Spreading twice is spreading once, twice as far: the cross terms cancel.
  lemma SpreadTwice(p: Five, s: nat, n: nat)
    requires s < 5 && n < 32
    ensures Spread(Spread(p, s, n), s, n) == Spread(p, 2 * s % 5, 2 * n % 32)
  {
    var q := Spread(p, s, n);
    forall x | 0 <= x < 5 ensures Mixed(q, s, n, x) == Mixed(p, 2 * s % 5, 2 * n % 32, x) {
      SpreadTwiceAt(p, s, n, x);
    }
  }

  lemma MixedBit(p: Five, s: nat, n: nat, x: nat, i: nat)
    requires s < 5 && n < 32 && x < 5 && i < 32
    ensures Mixed(p, s, n, x)[i] == ((p[x][i] != p[Left(x, s)][i]) != p[Right(x, s)][Back(i, n)])
  {
  }

  lemma Neighbours(x: nat, s: nat)
    requires x < 5 && s < 5
    ensures Right(Left(x, s), s) == x && Left(Right(x, s), s) == x
    ensures Left(Left(x, s), s) == Left(x, 2 * s % 5) && Right(Right(x, s), s) == Right(x, 2 * s % 5)
  {
  }

  lemma BackTwice(i: nat, n: nat)
    requires i < 32 && n < 32
    ensures Back(Back(i, n), n) == Back(i, 2 * n % 32)
  {
  }

  lemma SpreadTwiceAt(p: Five, s: nat, n: nat, x: nat)
    requires s < 5 && n < 32 && x < 5
    ensures Mixed(Spread(p, s, n), s, n, x) == Mixed(p, 2 * s % 5, 2 * n % 32, x)
  {
    Neighbours(x, s);
    forall i | 0 <= i < 32
      ensures Mixed(Spread(p, s, n), s, n, x)[i] == Mixed(p, 2 * s % 5, 2 * n % 32, x)[i]
    {
      BackTwice(i, n);
      SpreadBit(p, s, n, x, Left(x, s), Right(x, s), i);
    }
  }

  lemma SpreadBit(p: Five, s: nat, n: nat, x: nat, l: nat, r: nat, i: nat)
    requires s < 5 && n < 32 && x < 5 && i < 32 && l == Left(x, s) && r == Right(x, s)
    requires Right(l, s) == x && Left(r, s) == x
    ensures Mixed(Spread(p, s, n), s, n, x)[i] == ((p[x][i] != p[Left(l, s)][i]) != p[Right(r, s)][Back(Back(i, n), n)])
    ensures Mixed(p, 2 * s % 5, 2 * n % 32, x)[i] ==
      ((p[x][i] != p[Left(x, 2 * s % 5)][i]) != p[Right(x, 2 * s % 5)][Back(i, 2 * n % 32)])
  {
    var q := Spread(p, s, n);
    MixedBit(q, s, n, x, i);
    MixedBit(p, s, n, x, i);
    MixedBit(p, s, n, l, i);
    MixedBit(p, s, n, r, Back(i, n));
    MixedBit(p, 2 * s % 5, 2 * n % 32, x, i);
  }

  // Spreading by one, so often.
  function Often(p: Five, k: nat): Five {
    if k == 0 then p else Spread(Often(p, k - 1), 1, 1)
  }

  lemma {:induction false} OftenAdds(p: Five, j: nat, k: nat)
    ensures Often(Often(p, j), k) == Often(p, j + k)
  {
    if k > 0 { OftenAdds(p, j, k - 1); }
  }

  lemma Often1(p: Five)
    ensures Often(p, 1) == Spread(p, 1, 1)
  {
    assert Often(p, 0) == p;
  }

  lemma Often2(p: Five)
    ensures Often(p, 2) == Spread(p, 2, 2)
  {
    OftenAdds(p, 1, 1);
    Often1(p);
    Often1(Often(p, 1));
    SpreadTwice(p, 1, 1);
  }

  lemma Often4(p: Five)
    ensures Often(p, 4) == Spread(p, 4, 4)
  {
    OftenAdds(p, 2, 2);
    Often2(p);
    Often2(Often(p, 2));
    SpreadTwice(p, 2, 2);
  }

  lemma Often8(p: Five)
    ensures Often(p, 8) == Spread(p, 3, 8)
  {
    OftenAdds(p, 4, 4);
    Often4(p);
    Often4(Often(p, 4));
    SpreadTwice(p, 4, 4);
  }

  lemma Often16(p: Five)
    ensures Often(p, 16) == Spread(p, 1, 16)
  {
    OftenAdds(p, 8, 8);
    Often8(p);
    Often8(Often(p, 8));
    SpreadTwice(p, 3, 8);
  }

  // Thirty-two times, the rotations have gone all the way round.
  lemma Often32(p: Five)
    ensures Often(p, 32) == Spread(p, 2, 0)
  {
    OftenAdds(p, 16, 16);
    Often16(p);
    Often16(Often(p, 16));
    SpreadTwice(p, 1, 16);
  }

  // And three times that leaves the parities as they were.
  lemma Cubed(p: Five)
    ensures Spread(Spread(Spread(p, 2, 0), 2, 0), 2, 0) == p
  {
    TwiceIsFour(p);
    UndoneBy(p);
  }

  lemma TwiceIsFour(p: Five)
    ensures Spread(Spread(p, 2, 0), 2, 0) == Spread(p, 4, 0)
  {
    SpreadTwice(p, 2, 0);
  }

  lemma UndoneBy(p: Five)
    ensures Spread(Spread(p, 4, 0), 2, 0) == p
  {
    var t := Spread(p, 4, 0);
    forall x | 0 <= x < 5 ensures Spread(t, 2, 0)[x] == p[x] {
      CubedWord(p, x);
    }
  }

  lemma CubedWord(p: Five, x: nat)
    requires x < 5
    ensures Mixed(Spread(p, 4, 0), 2, 0, x) == p[x]
  {
    var w := Mixed(Spread(p, 4, 0), 2, 0, x);
    forall i | 0 <= i < 32 ensures w[i] == p[x][i] {
      CubedBit(p, x, i);
    }
  }

  lemma CubedBit(p: Five, x: nat, i: nat)
    requires x < 5 && i < 32
    ensures Mixed(Spread(p, 4, 0), 2, 0, x)[i] == p[x][i]
  {
    var t := Spread(p, 4, 0);
    MixedBit(t, 2, 0, x, i);
    MixedBit(p, 4, 0, x, i);
    MixedBit(p, 4, 0, Left(x, 2), i);
    MixedBit(p, 4, 0, Right(x, 2), i);
  }

  lemma Often96(p: Five)
    ensures Often(p, 96) == p
  {
    Often32(p);
    Often32(Often(p, 32));
    Often32(Often(p, 64));
    OftenAdds(p, 32, 32);
    OftenAdds(p, 64, 32);
    Cubed(p);
  }

  // What undoes one spread.
  lemma SpreadInverse(p: Five)
    ensures Often(Spread(p, 1, 1), 95) == p && Spread(Often(p, 95), 1, 1) == p
  {
    assert Often(p, 0) == p && Often(p, 1) == Spread(Often(p, 0), 1, 1);
    OftenAdds(p, 1, 95);
    Often96(p);
    assert Often(p, 96) == Spread(Often(p, 95), 1, 1);
  }

  // --------------------------------------------------------------- the state

  // Word x of row y is at x + 5 y.
  type State = s: seq<Word> | |s| == 25 witness seq(25, _ => seq(32, _ => false))

  function Column(st: State, x: nat): Word
    requires x < 5
  {
    Xor(Xor(Xor(Xor(st[x], st[x + 5]), st[x + 10]), st[x + 15]), st[x + 20])
  }

  function Parities(st: State): (r: Five)
    ensures forall x :: 0 <= x < 5 ==> r[x] == Column(st, x)
  {
    seq(5, x requires 0 <= x < 5 => Column(st, x))
  }

  // Remainder and quotient of small numbers, case by case.
  function Mod5(n: nat): (r: nat)
    requires n < 25
    ensures r == n % 5
  {
    if n < 5 then n else if n < 10 then n - 5 else if n < 15 then n - 10 else if n < 20 then n - 15 else n - 20
  }

  function X(i: nat): nat
    requires i < 25
  {
    Mod5(i)
  }

  function Y(i: nat): (y: nat)
    requires i < 25
    ensures y == i / 5 < 5
  {
    if i < 5 then 0 else if i < 10 then 1 else if i < 15 then 2 else if i < 20 then 3 else 4
  }

  // What theta adds to column x.
  function Effect(p: Five, x: nat): Word
    requires x < 5
  {
    Xor(p[Left(x, 1)], Rotl(p[Right(x, 1)], 1))
  }

  function Tinted(st: State, p: Five): (r: State)
    ensures forall i :: 0 <= i < 25 ==> r[i] == Xor(st[i], Effect(p, X(i)))
  {
    seq(25, i requires 0 <= i < 25 => Xor(st[i], Effect(p, X(i))))
  }

  function Theta(st: State): State {
    Tinted(st, Parities(st))
  }

  function Untheta(st: State): State {
    Tinted(st, Often(Parities(st), 95))
  }

  lemma XorTwice(a: Word, b: Word)
    ensures Xor(Xor(a, b), b) == a
  {
    var r := Xor(Xor(a, b), b);
    assert forall i :: 0 <= i < 32 ==> r[i] == a[i];
  }

  lemma TintedTwice(st: State, p: Five)
    ensures Tinted(Tinted(st, p), p) == st
  {
    var t := Tinted(Tinted(st, p), p);
    forall i | 0 <= i < 25 ensures t[i] == st[i] {
      XorTwice(st[i], Effect(p, X(i)));
    }
  }

  // Five words of a column change by the same, and five is odd.
  lemma XorFive(a: Word, b: Word, c: Word, d: Word, e: Word, f: Word)
    ensures Xor(Xor(Xor(Xor(Xor(a, f), Xor(b, f)), Xor(c, f)), Xor(d, f)), Xor(e, f))
      == Xor(Xor(Xor(Xor(Xor(a, b), c), d), e), f)
  {
    var l := Xor(Xor(Xor(Xor(Xor(a, f), Xor(b, f)), Xor(c, f)), Xor(d, f)), Xor(e, f));
    var r := Xor(Xor(Xor(Xor(Xor(a, b), c), d), e), f);
    forall i | 0 <= i < 32 ensures l[i] == r[i] {
    }
  }

  lemma ColumnTinted(st: State, p: Five, x: nat)
    requires x < 5
    ensures Column(Tinted(st, p), x) == Xor(Column(st, x), Effect(p, x))
  {
    XorFive(st[x], st[x + 5], st[x + 10], st[x + 15], st[x + 20], Effect(p, x));
  }

  // A word of a spread is the word and what theta adds to its column.
  lemma MixedIsEffect(p: Five, x: nat)
    requires x < 5
    ensures Mixed(p, 1, 1, x) == Xor(p[x], Effect(p, x))
  {
    var l, r := Mixed(p, 1, 1, x), Xor(p[x], Effect(p, x));
    assert forall i :: 0 <= i < 32 ==> l[i] == r[i];
  }

  lemma ParitiesOfTheta(st: State)
    ensures Parities(Theta(st)) == Spread(Parities(st), 1, 1)
  {
    var l, r := Parities(Theta(st)), Spread(Parities(st), 1, 1);
    forall x | 0 <= x < 5 ensures l[x] == r[x] {
      ColumnTinted(st, Parities(st), x);
      MixedIsEffect(Parities(st), x);
    }
  }

  lemma ParitiesOfUntheta(st: State)
    ensures Parities(Untheta(st)) == Often(Parities(st), 95)
  {
    var p := Parities(st);
    var q := Often(p, 95);
    SpreadInverse(p);
    var l := Parities(Untheta(st));
    forall x | 0 <= x < 5 ensures l[x] == q[x] {
      ColumnTinted(st, q, x);
      MixedIsEffect(q, x);
      XorTwice(q[x], Effect(q, x));
    }
  }

  lemma ThetaInverse(st: State)
    ensures Untheta(Theta(st)) == st && Theta(Untheta(st)) == st
  {
    ParitiesOfTheta(st);
    SpreadInverse(Parities(st));
    TintedTwice(st, Parities(st));
    ParitiesOfUntheta(st);
    TintedTwice(st, Often(Parities(st), 95));
  }

  // --------------------------------------------------------------- rho and pi

  // Where word (x, y) moves: to (y, 2x + 3y).
  function Dest(from: nat): (to: nat)
    requires from < 25
    ensures to < 25
  {
    Y(from) + 5 * Mod5(2 * X(from) + 3 * Y(from))
  }

  function Origin(to: nat): (from: nat)
    requires to < 25
    ensures from < 25
  {
    Mod5(3 * Y(to) + X(to)) + 5 * X(to)
  }

  lemma Pi(x: nat, y: nat)
    requires x < 5 && y < 5
    ensures Mod5(3 * Mod5(2 * x + 3 * y) + y) == x
  {
  }

  lemma Unpi(x: nat, y: nat)
    requires x < 5 && y < 5
    ensures Mod5(2 * Mod5(3 * y + x) + 3 * x) == y
  {
  }

  lemma Coordinates(i: nat, x: nat, y: nat)
    requires x < 5 && y < 5
    ensures i == x + 5 * y ==> X(i) == x && Y(i) == y
    ensures i < 25 ==> i == X(i) + 5 * Y(i)
  {
  }

  // No two words move to one place.
  lemma DestIsOneToOne(i: nat)
    requires i < 25
    ensures Origin(Dest(i)) == i && Dest(Origin(i)) == i
  {
    var x, y := X(i), Y(i);
    Coordinates(i, x, y);
    Pi(x, y);
    Unpi(x, y);
    Coordinates(Dest(i), y, Mod5(2 * x + 3 * y));
    Coordinates(Origin(i), Mod5(3 * y + x), x);
  }

  lemma DestApart(i: nat, j: nat)
    requires i < 25 && j < 25
    ensures Dest(i) == Dest(j) ==> i == j
  {
    DestIsOneToOne(i);
    DestIsOneToOne(j);
  }

  function Turn(i: nat): (n: nat)
    requires i < 25
    ensures n < 32
  {
    RHO[i]
  }

  function RhoPi(st: State): (r: State) {
    seq(25, to requires 0 <= to < 25 => Rotl(st[Origin(to)], Turn(Origin(to))))
  }

  function UnrhoPi(st: State): (r: State) {
    seq(25, i requires 0 <= i < 25 => Rotr(st[Dest(i)], Turn(i)))
  }

  lemma RhoPiInverse(st: State)
    ensures UnrhoPi(RhoPi(st)) == st && RhoPi(UnrhoPi(st)) == st
  {
    var a, b := UnrhoPi(RhoPi(st)), RhoPi(UnrhoPi(st));
    forall i | 0 <= i < 25 ensures a[i] == st[i] && b[i] == st[i] {
      DestIsOneToOne(i);
      RotationsCancel(st[i], Turn(i));
      RotationsCancel(st[i], Turn(Origin(i)));
    }
  }

  // --------------------------------------------------------------------- chi

  function RowOf(st: State, y: nat): Five
    requires y < 5
  {
    [st[5 * y], st[5 * y + 1], st[5 * y + 2], st[5 * y + 3], st[5 * y + 4]]
  }

  function ChiWord(a: Word, b: Word, c: Word): Word {
    Xor(a, And(Not(b), c))
  }

  function ChiRow(r: Five): Five {
    [ChiWord(r[0], r[1], r[2]), ChiWord(r[1], r[2], r[3]), ChiWord(r[2], r[3], r[4]),
     ChiWord(r[3], r[4], r[0]), ChiWord(r[4], r[0], r[1])]
  }

  function UnchiWord(a: Word, b: Word, c: Word, d: Word, e: Word): Word {
    Xor(a, And(Not(b), Xor(c, And(Not(d), e))))
  }

  function UnchiRow(r: Five): Five {
    [UnchiWord(r[0], r[1], r[2], r[3], r[4]), UnchiWord(r[1], r[2], r[3], r[4], r[0]),
     UnchiWord(r[2], r[3], r[4], r[0], r[1]), UnchiWord(r[3], r[4], r[0], r[1], r[2]),
     UnchiWord(r[4], r[0], r[1], r[2], r[3])]
  }

  lemma UnchiOfChi(a: Word, b: Word, c: Word, d: Word, e: Word)
    ensures UnchiWord(ChiWord(a, b, c), ChiWord(b, c, d), ChiWord(c, d, e), ChiWord(d, e, a), ChiWord(e, a, b)) == a
  {
    var r := UnchiWord(ChiWord(a, b, c), ChiWord(b, c, d), ChiWord(c, d, e), ChiWord(d, e, a), ChiWord(e, a, b));
    assert forall i :: 0 <= i < 32 ==> r[i] == a[i];
  }

  lemma ChiOfUnchi(a: Word, b: Word, c: Word, d: Word, e: Word)
    ensures ChiWord(UnchiWord(a, b, c, d, e), UnchiWord(b, c, d, e, a), UnchiWord(c, d, e, a, b)) == a
  {
    var r := ChiWord(UnchiWord(a, b, c, d, e), UnchiWord(b, c, d, e, a), UnchiWord(c, d, e, a, b));
    assert forall i :: 0 <= i < 32 ==> r[i] == a[i];
  }

  lemma UnchiOfChiRow(r: Five)
    ensures UnchiRow(ChiRow(r)) == r
  {
    UnchiOfChi(r[0], r[1], r[2], r[3], r[4]);
    UnchiOfChi(r[1], r[2], r[3], r[4], r[0]);
    UnchiOfChi(r[2], r[3], r[4], r[0], r[1]);
    UnchiOfChi(r[3], r[4], r[0], r[1], r[2]);
    UnchiOfChi(r[4], r[0], r[1], r[2], r[3]);
  }

  lemma ChiOfUnchiRow(r: Five)
    ensures ChiRow(UnchiRow(r)) == r
  {
    ChiOfUnchi(r[0], r[1], r[2], r[3], r[4]);
    ChiOfUnchi(r[1], r[2], r[3], r[4], r[0]);
    ChiOfUnchi(r[2], r[3], r[4], r[0], r[1]);
    ChiOfUnchi(r[3], r[4], r[0], r[1], r[2]);
    ChiOfUnchi(r[4], r[0], r[1], r[2], r[3]);
  }

  // A state is its rows.
  function FromRows(a: Five, b: Five, c: Five, d: Five, e: Five): State {
    a + b + c + d + e
  }

  function Chi(st: State): State {
    FromRows(ChiRow(RowOf(st, 0)), ChiRow(RowOf(st, 1)), ChiRow(RowOf(st, 2)), ChiRow(RowOf(st, 3)), ChiRow(RowOf(st, 4)))
  }

  function Unchi(st: State): State {
    FromRows(UnchiRow(RowOf(st, 0)), UnchiRow(RowOf(st, 1)), UnchiRow(RowOf(st, 2)), UnchiRow(RowOf(st, 3)), UnchiRow(RowOf(st, 4)))
  }

  lemma RowsOf(a: Five, b: Five, c: Five, d: Five, e: Five)
    ensures var st := FromRows(a, b, c, d, e);
            RowOf(st, 0) == a && RowOf(st, 1) == b && RowOf(st, 2) == c && RowOf(st, 3) == d && RowOf(st, 4) == e
  {
  }

  lemma OfRows(st: State)
    ensures FromRows(RowOf(st, 0), RowOf(st, 1), RowOf(st, 2), RowOf(st, 3), RowOf(st, 4)) == st
  {
  }

  lemma ChiInverse(st: State)
    ensures Unchi(Chi(st)) == st && Chi(Unchi(st)) == st
  {
    UnchiChi(st);
    ChiUnchi(st);
  }

  lemma UnchiChi(st: State)
    ensures Unchi(Chi(st)) == st
  {
    RowsOf(ChiRow(RowOf(st, 0)), ChiRow(RowOf(st, 1)), ChiRow(RowOf(st, 2)), ChiRow(RowOf(st, 3)), ChiRow(RowOf(st, 4)));
    UnchiOfChiRow(RowOf(st, 0));
    UnchiOfChiRow(RowOf(st, 1));
    UnchiOfChiRow(RowOf(st, 2));
    UnchiOfChiRow(RowOf(st, 3));
    UnchiOfChiRow(RowOf(st, 4));
    OfRows(st);
  }

  lemma ChiUnchi(st: State)
    ensures Chi(Unchi(st)) == st
  {
    RowsOf(UnchiRow(RowOf(st, 0)), UnchiRow(RowOf(st, 1)), UnchiRow(RowOf(st, 2)), UnchiRow(RowOf(st, 3)), UnchiRow(RowOf(st, 4)));
    ChiOfUnchiRow(RowOf(st, 0));
    ChiOfUnchiRow(RowOf(st, 1));
    ChiOfUnchiRow(RowOf(st, 2));
    ChiOfUnchiRow(RowOf(st, 3));
    ChiOfUnchiRow(RowOf(st, 4));
    OfRows(st);
  }

  // ------------------------------------------------------------ the permutation

  function Iota(st: State, round: RoundIndex): State
  {
    st[0 := Xor(st[0], WordOf(ROUND_CONSTANTS[round]))]
  }

  lemma IotaInverse(st: State, round: RoundIndex)
    ensures Iota(Iota(st, round), round) == st
  {
    XorTwice(st[0], WordOf(ROUND_CONSTANTS[round]));
  }

  function OneRound(s: (State, RoundIndex)): State {
    Iota(Chi(RhoPi(Theta(s.0))), s.1)
  }

  function OneUnround(s: (State, RoundIndex)): State {
    Untheta(UnrhoPi(Unchi(Iota(s.0, s.1))))
  }

  // The same, closed: RoundIs and UnroundIs open them.
  function Round(st: State, round: RoundIndex): State {
    Behind(OneRound, (st, round), round + 9)
  }

  function Unround(st: State, round: RoundIndex): State {
    Behind(OneUnround, (st, round), round + 9)
  }

  lemma RoundIs(st: State, round: RoundIndex)
    ensures Round(st, round) == OneRound((st, round))
  {
    BehindIs<(State, RoundIndex), State>(OneRound, (st, round), round + 9);
  }

  lemma UnroundIs(st: State, round: RoundIndex)
    ensures Unround(st, round) == OneUnround((st, round))
  {
    BehindIs<(State, RoundIndex), State>(OneUnround, (st, round), round + 9);
  }

  lemma OneUnroundOfRound(st: State, round: RoundIndex)
    ensures OneUnround((OneRound((st, round)), round)) == st
  {
    var t := Theta(st);
    var u := RhoPi(t);
    var v := Chi(u);
    ThetaInverse(st);
    RhoPiInverse(t);
    ChiInverse(u);
    IotaInverse(v, round);
  }

  lemma OneRoundOfUnround(st: State, round: RoundIndex)
    ensures OneRound((OneUnround((st, round)), round)) == st
  {
    var v := Iota(st, round);
    var u := Unchi(v);
    var t := UnrhoPi(u);
    IotaInverse(st, round);
    ChiInverse(v);
    RhoPiInverse(u);
    ThetaInverse(t);
  }

  lemma RoundInverse(st: State, round: RoundIndex)
    ensures Unround(Round(st, round), round) == st && Round(Unround(st, round), round) == st
  {
    RoundIs(st, round);
    UnroundIs(Round(st, round), round);
    OneUnroundOfRound(st, round);
    UnroundIs(st, round);
    RoundIs(Unround(st, round), round);
    OneRoundOfUnround(st, round);
  }

  // The first `k` rounds, and what takes them back.
  function Rounds(st: State, k: nat): State
    requires k <= ROUNDS
  {
    if k == 0 then st else Round(Rounds(st, k - 1), k - 1)
  }

  function Unrounds(st: State, k: nat): State
    requires k <= ROUNDS
    decreases k
  {
    if k == 0 then st else Unrounds(Unround(st, k - 1), k - 1)
  }

  // keccak_f800 is one to one and onto, and so is every number of its rounds.
  lemma {:induction false} PermutationIsBijective(st: State, k: nat)
    requires k <= ROUNDS
    ensures Unrounds(Rounds(st, k), k) == st
    ensures Rounds(Unrounds(st, k), k) == st
    decreases k
  {
    if k > 0 {
      RoundInverse(Rounds(st, k - 1), k - 1);
      RoundInverse(st, k - 1);
      PermutationIsBijective(st, k - 1);
      PermutationIsBijective(Unround(st, k - 1), k - 1);
    }
  }

  // ------------------------------------------------- the permutation in place

  // `i` comes before word (x, y), row by row.
  predicate BeforeInRows(i: nat, x: nat, y: nat)
    requires i < 25
  {
    Y(i) < y || (Y(i) == y && X(i) < x)
  }

  method ColumnParities(st: array<Word>) returns (c: array<Word>)
    requires st.Length == 25
    ensures fresh(c) && c.Length == 5 && c[..] == Parities(st[..])
  {
    c := new Word[5];
    for x := 0 to 5
      invariant forall k :: 0 <= k < x ==> c[k] == Column(st[..], k)
    {
      c[x] := Xor(Xor(Xor(Xor(st[x], st[x + 5]), st[x + 10]), st[x + 15]), st[x + 20]);
    }
  }

  method TintColumn(st: array<Word>, x: nat, d: Word)
    requires st.Length == 25 && x < 5
    modifies st
    ensures forall i :: 0 <= i < 25 ==> st[i] == if X(i) == x then Xor(old(st[i]), d) else old(st[i])
  {
    for y := 0 to 5
      invariant forall i :: 0 <= i < 25 ==>
        st[i] == if X(i) == x && Y(i) < y then Xor(old(st[i]), d) else old(st[i])
    {
      Coordinates(x + 5 * y, x, y);
      st[x + 5 * y] := Xor(st[x + 5 * y], d);
    }
  }

  method ColumnEffect(c: array<Word>, x: nat) returns (d: Word)
    requires c.Length == 5 && x < 5
    ensures d == Effect(c[..], x)
  {
    var l: nat, r: nat := (x + 4) % 5, (x + 1) % 5;
    assert l == Left(x, 1) && r == Right(x, 1);
    d := Rotate(c[r], 1);
    d := Xor(c[l], d);
  }

  // The first `x` columns are tinted.
  predicate Columns(now: State, was: State, p: Five, x: nat) {
    forall i :: 0 <= i < 25 ==> now[i] == if X(i) < x then Xor(was[i], Effect(p, X(i))) else was[i]
  }

  method ThetaStep(st: array<Word>)
    requires st.Length == 25
    modifies st
    ensures st[..] == Theta(old(st[..]))
  {
    ghost var was := st[..];
    var c := ColumnParities(st);
    ghost var p := c[..];
    var x := 0;
    while x < 5
      invariant x <= 5 && c[..] == p && Columns(st[..], was, p, x)
    {
      var d := ColumnEffect(c, x);
      ghost var before := st[..];
      TintColumn(st, x, d);
      NextColumn(st[..], before, was, p, x);
      x := x + 1;
    }
    AllColumns(st[..], was, p);
  }

  lemma NextColumn(now: State, before: State, was: State, p: Five, x: nat)
    requires x < 5 && Columns(before, was, p, x)
    requires forall i :: 0 <= i < 25 ==> now[i] == if X(i) == x then Xor(before[i], Effect(p, x)) else before[i]
    ensures Columns(now, was, p, x + 1)
  {
  }

  lemma AllColumns(now: State, was: State, p: Five)
    requires Columns(now, was, p, 5)
    ensures now == Tinted(was, p)
  {
  }

  // Everything before word (x, y) has moved.
  predicate Moved(b: State, st: State, x: nat, y: nat) {
    forall i :: 0 <= i < 25 && BeforeInRows(i, x, y) ==> b[Dest(i)] == Rotl(st[i], Turn(i))
  }

  method MoveWord(st: array<Word>, b: array<Word>, x: nat, y: nat)
    requires st.Length == 25 && b.Length == 25 && st != b && x < 5 && y < 5
    requires Moved(b[..], st[..], x, y)
    modifies b
    ensures Moved(b[..], st[..], x + 1, y)
  {
    var from := x + 5 * y;
    var to := y + 5 * ((2 * x + 3 * y) % 5);
    Coordinates(from, x, y);
    ghost var before := b[..];
    var w := Rotate(st[from], Turn(from));
    b[to] := w;
    NextMoved(before, st[..], x, y, from, w);
    assert b[..] == before[to := w];
  }

  lemma NextMoved(b: State, st: State, x: nat, y: nat, from: nat, w: Word)
    requires x < 5 && y < 5 && from < 25 && X(from) == x && Y(from) == y && w == Rotl(st[from], Turn(from))
    requires Moved(b, st, x, y)
    ensures Moved(b[Dest(from) := w], st, x + 1, y)
  {
    forall i | 0 <= i < 25 && BeforeInRows(i, x + 1, y)
      ensures b[Dest(from) := w][Dest(i)] == Rotl(st[i], Turn(i))
    {
      DestApart(i, from);
      Coordinates(i, x, y);
      Coordinates(from, x, y);
    }
  }

  method RhoPiStep(st: array<Word>) returns (b: array<Word>)
    requires st.Length == 25
    ensures fresh(b) && b.Length == 25 && b[..] == RhoPi(st[..])
  {
    b := new Word[25];
    for y := 0 to 5
      invariant Moved(b[..], st[..], 0, y)
    {
      for x := 0 to 5
        invariant Moved(b[..], st[..], x, y)
      {
        MoveWord(st, b, x, y);
      }
    }
    AllMoved(b[..], st[..]);
  }

  lemma AllMoved(b: State, st: State)
    requires Moved(b, st, 0, 5)
    ensures b == RhoPi(st)
  {
    forall to | 0 <= to < 25 ensures b[to] == RhoPi(st)[to] {
      DestIsOneToOne(to);
      assert b[Dest(Origin(to))] == Rotl(st[Origin(to)], Turn(Origin(to)));
    }
  }

  // Chi, word by word.
  function ChiAt(b: State, i: nat): Word
    requires i < 25
  {
    ChiWord(b[i], b[Right(X(i), 1) + 5 * Y(i)], b[Right(X(i), 2) + 5 * Y(i)])
  }

  lemma ChiIsWordByWord(b: State, i: nat)
    requires i < 25
    ensures Chi(b)[i] == ChiAt(b, i)
  {
  }

  method ChiStep(b: array<Word>, st: array<Word>)
    requires b.Length == 25 && st.Length == 25 && b != st
    modifies st
    ensures st[..] == Chi(b[..])
  {
    for y := 0 to 5
      invariant forall i :: 0 <= i < 25 && BeforeInRows(i, 0, y) ==> st[i] == ChiAt(b[..], i)
    {
      for x := 0 to 5
        invariant forall i :: 0 <= i < 25 && BeforeInRows(i, x, y) ==> st[i] == ChiAt(b[..], i)
      {
        Coordinates(x + 5 * y, x, y);
        st[x + 5 * y] := Xor(b[x + 5 * y], And(Not(b[(x + 1) % 5 + 5 * y]), b[(x + 2) % 5 + 5 * y]));
      }
    }
    forall i | 0 <= i < 25 ensures st[i] == Chi(b[..])[i] {
      ChiIsWordByWord(b[..], i);
    }
  }

  method AddConstant(st: array<Word>, round: RoundIndex)
    requires st.Length == 25
    modifies st
    ensures st[..] == Iota(old(st[..]), round)
  {
    st[0] := Xor(st[0], WordOf(ROUND_CONSTANTS[round]));
  }

  method LinearSteps(st: array<Word>) returns (b: array<Word>)
    requires st.Length == 25
    modifies st
    ensures fresh(b) && b.Length == 25 && b[..] == RhoPi(Theta(old(st[..])))
  {
    ThetaStep(st);
    b := RhoPiStep(st);
  }

  method OtherSteps(b: array<Word>, st: array<Word>, round: RoundIndex)
    requires b.Length == 25 && st.Length == 25 && b != st
    modifies st
    ensures st[..] == Iota(Chi(b[..]), round)
  {
    ChiStep(b, st);
    AddConstant(st, round);
  }

  method RoundStep(st: array<Word>, round: RoundIndex)
    requires st.Length == 25
    modifies st
    ensures st[..] == Round(old(st[..]), round)
  {
    RoundIs(st[..], round);
    var b := LinearSteps(st);
    OtherSteps(b, st, round);
  }

  method KeccakF800(st: array<Word>)
    requires st.Length == 25
    modifies st
    ensures st[..] == Rounds(old(st[..]), ROUNDS)
  {
    ghost var was := st[..];
    for round := 0 to ROUNDS
      invariant st[..] == Rounds(was, round)
    {
      RoundStep(st, round);
    }
  }
}
