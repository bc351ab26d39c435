// salsa20_8 of algorithms/scrypt/scrypt.cpp: the rounds of the Salsa20 specification,
// written out in place.

module Salsa {
  import opened Closed
  import opened Words

  type Block = s: seq<Word> | |s| == 16 witness seq(16, _ => 0)

  // x ^= (a + b) <<< bits: the one step everything is made of.
  function Stirred(x: Word, a: Word, b: Word, bits: Shift): Word {
    Xor(x, Rotl(Add(a, b), bits))
  }

  // What the rounds are made of, for any step: nothing below looks into it.
  type Step<!W> = (W, W, W, Shift) -> W

  // The specification's quarterround.
  function QuarterRound<W>(f: Step<W>, y0: W, y1: W, y2: W, y3: W): (W, W, W, W) {
    var z1 := f(y1, y0, y3, 7);
    var z2 := f(y2, z1, y0, 9);
    var z3 := f(y3, z2, z1, 13);
    var z0 := f(y0, z3, z2, 18);
    (z0, z1, z2, z3)
  }

  // Its rowround: on each row, starting at the diagonal.
  function RowRound<W>(f: Step<W>, y: seq<W>): (r: seq<W>)
    requires |y| == 16
    ensures |r| == 16
  {
    var a := QuarterRound(f, y[0], y[1], y[2], y[3]);
    var b := QuarterRound(f, y[5], y[6], y[7], y[4]);
    var c := QuarterRound(f, y[10], y[11], y[8], y[9]);
    var d := QuarterRound(f, y[15], y[12], y[13], y[14]);
    [a.0, a.1, a.2, a.3, b.3, b.0, b.1, b.2, c.2, c.3, c.0, c.1, d.1, d.2, d.3, d.0]
  }

  function Transposed<W>(y: seq<W>): (r: seq<W>)
    requires |y| == 16
    ensures |r| == 16
  {
    [y[0], y[4], y[8], y[12], y[1], y[5], y[9], y[13], y[2], y[6], y[10], y[14], y[3], y[7], y[11], y[15]]
  }

  // Its columnround is the rowround of the transposed square.
  function ColumnRound<W>(f: Step<W>, x: seq<W>): (r: seq<W>)
    requires |x| == 16
    ensures |r| == 16
  {
    Transposed(RowRound(f, Transposed(x)))
  }

  function DoubleRounds<W>(f: Step<W>, x: seq<W>, k: nat): (r: seq<W>)
    requires |x| == 16
    ensures |r| == 16
  {
    if k == 0 then x else RowRound(f, ColumnRound(f, DoubleRounds(f, x, k - 1)))
  }

  function Summed<W>(add: (W, W) -> W, a: seq<W>, b: seq<W>): (r: seq<W>)
    requires |a| == 16 && |b| == 16
    ensures |r| == 16 && forall i :: 0 <= i < 16 ==> r[i] == add(a[i], b[i])
  {
    seq(16, i requires 0 <= i < 16 => add(a[i], b[i]))
  }

  // The core with eight rounds, section 3 of RFC 7914, for any step and sum.
  function CoreOf<W>(f: Step<W>, add: (W, W) -> W, b: seq<W>): (r: seq<W>)
    requires |b| == 16
    ensures |r| == 16
  {
    Summed(add, b, DoubleRounds(f, b, 4))
  }

  function OpenCore(b: Block): Block {
    CoreOf<Word>(Stirred, Add, b)
  }

  // The same, closed: CoreIs opens it.
  function Core(b: Block): Block {
    Behind(OpenCore, b, |b|)
  }

  lemma CoreIs(b: Block)
    ensures Core(b) == CoreOf<Word>(Stirred, Add, b)
  {
    BehindIs<Block, Block>(OpenCore, b, |b|);
  }

  // Four steps of the listing.
  method Quarter<W>(f: Step<W>, x: array<W>, y0: nat, y1: nat, y2: nat, y3: nat)
    requires x.Length == 16 && y0 < 16 && y1 < 16 && y2 < 16 && y3 < 16
    requires y0 != y1 && y0 != y2 && y0 != y3 && y1 != y2 && y1 != y3 && y2 != y3
    modifies x
    ensures (x[y0], x[y1], x[y2], x[y3]) == QuarterRound(f, old(x[y0]), old(x[y1]), old(x[y2]), old(x[y3]))
    ensures forall i :: 0 <= i < 16 && i != y0 && i != y1 && i != y2 && i != y3 ==> x[i] == old(x[i])
  {
    x[y1] := f(x[y1], x[y0], x[y3], 7);
    x[y2] := f(x[y2], x[y1], x[y0], 9);
    x[y3] := f(x[y3], x[y2], x[y1], 13);
    x[y0] := f(x[y0], x[y3], x[y2], 18);
  }

  method Columns<W>(f: Step<W>, x: array<W>)
    requires x.Length == 16
    modifies x
    ensures x[..] == ColumnRound(f, old(x[..]))
  {
    Quarter(f, x, 0, 4, 8, 12);
    Quarter(f, x, 5, 9, 13, 1);
    Quarter(f, x, 10, 14, 2, 6);
    Quarter(f, x, 15, 3, 7, 11);
  }

  method Rows<W>(f: Step<W>, x: array<W>)
    requires x.Length == 16
    modifies x
    ensures x[..] == RowRound(f, old(x[..]))
  {
    Quarter(f, x, 0, 1, 2, 3);
    Quarter(f, x, 5, 6, 7, 4);
    Quarter(f, x, 10, 11, 8, 9);
    Quarter(f, x, 15, 12, 13, 14);
  }

  method DoublePass<W>(f: Step<W>, x: array<W>, ghost was: seq<W>, ghost k: nat)
    requires x.Length == |was| == 16 && x[..] == DoubleRounds(f, was, k)
    modifies x
    ensures x[..] == DoubleRounds(f, was, k + 1)
  {
    Columns(f, x);
    Rows(f, x);
  }

  method Passes<W>(f: Step<W>, x: array<W>)
    requires x.Length == 16
    modifies x
    ensures x[..] == DoubleRounds(f, old(x[..]), 4)
  {
    ghost var was := x[..];
    var i := 0;
    ghost var k: nat := 0;
    while i < 8
      invariant i == 2 * k && k <= 4 && x[..] == DoubleRounds(f, was, k)
    {
      DoublePass(f, x, was, k);
      i := i + 2;
      k := k + 1;
    }
  }

  method AddBack<W>(add: (W, W) -> W, block: array<W>, x: array<W>)
    requires block.Length == 16 && x.Length == 16 && block != x
    modifies block
    ensures block[..] == Summed(add, old(block[..]), x[..])
  {
    ghost var r := Summed(add, block[..], x[..]);
    for i := 0 to 16
      invariant forall j :: 0 <= j < 16 ==> block[j] == if j < i then r[j] else old(block[j])
    {
      block[i] := add(block[i], x[i]);
    }
  }

  method Copied<W(0)>(block: array<W>) returns (x: array<W>)
    requires block.Length == 16
    ensures fresh(x) && x[..] == block[..]
  {
    x := new W[16];
    for i := 0 to 16
      invariant forall j :: 0 <= j < i ==> x[j] == block[j]
    {
      x[i] := block[i];
    }
  }

  method SalsaOf<W(0)>(f: Step<W>, add: (W, W) -> W, block: array<W>)
    requires block.Length == 16
    modifies block
    ensures block[..] == CoreOf(f, add, old(block[..]))
  {
    ghost var was := block[..];
    var x := Copied(block);
    Passes(f, x);
    assert block[..] == was;
    AddBack(add, block, x);
  }

  method Salsa20_8(block: array<Word>)
    requires block.Length == 16
    modifies block
    ensures block[..] == Core(old(block[..]))
  {
    CoreIs(block[..]);
    SalsaOf<Word>(Stirred, Add, block);
  }
}
