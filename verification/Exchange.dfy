// compat/getopt/getopt_long.c, permute_args: two neighbouring blocks of an array
// change places, by as many cycles as their lengths have greatest common divisor.

module Exchange {
  import opened Closed
  import A = Arithmetic

  method Gcd(a: nat, b: nat) returns (g: nat)
    requires b > 0
    ensures g == A.Gcd(a, b)
  {
    var x, y := a, b;
    var c := x % y;
    while c != 0
      invariant y > 0 && c == x % y && A.Gcd(x, y) == A.Gcd(a, b)
      decreases c
    {
      x := y;
      y := c;
      c := x % y;
    }
    g := y;
  }

  // The greatest common divisor divides both and is a combination of them.
  lemma {:induction false} Bezout(a: nat, b: nat) returns (p: nat, q: nat, u: int, v: int)
    requires b > 0
    ensures a == p * A.Gcd(a, b) && b == q * A.Gcd(a, b)
    ensures u * a + v * b == A.Gcd(a, b)
    decreases b
  {
    var k, r := a / b, a % b;
    A.Split(a, b);
    if r == 0 {
      p, q, u, v := k, 1, 0, 1;
    } else {
      var p', q', u', v' := Bezout(b, r);
      p, q, u, v := k * p' + q', p', v', u' - v' * k;
      BezoutStep(a, b, r, k, A.Gcd(b, r), p', q', u', v');
    }
  }

  lemma BezoutStep(a: int, b: int, r: int, k: int, g: int, p: int, q: int, u: int, v: int)
    requires a == k * b + r && b == p * g && r == q * g && u * b + v * r == g
    ensures (k * p + q) * g == a && v * a + (u - v * k) * b == g
  {
    A.Distributes(k * p, q, g);
    assert (k * p) * g == k * (p * g);
    A.Distributes(u, -(v * k), b);
    assert v * a == v * (k * b) + v * r by { A.Distributes(k * b, r, v); }
    assert v * (k * b) == (v * k) * b;
  }

  // ------------------------------------------------------------ the cycles

  // Where the element at `x` of two blocks of `a` and `b` goes, and where the
  // one that comes there is from.
  function To(x: nat, a: nat, b: nat): nat
    requires x < a + b
  {
    if x >= a then x - a else x + b
  }

  function From(x: nat, a: nat, b: nat): nat
    requires x < a + b
  {
    if x < b then x + a else x - b
  }

  // The cycle through `x`, `j` steps on.
  function At(x: nat, j: nat, a: nat, b: nat): (y: nat)
    requires x < a + b
    ensures y < a + b
  {
    if j == 0 then x else To(At(x, j - 1, a, b), a, b)
  }

  lemma {:induction false} AtIsShift(x: nat, j: nat, a: nat, b: nat) returns (q: nat)
    requires x < a + b
    ensures At(x, j, a, b) == x + j * b - q * (a + b)
  {
    if j == 0 {
      q := 0;
    } else {
      var r := AtIsShift(x, j - 1, a, b);
      q := if At(x, j - 1, a, b) >= a then r + 1 else r;
      A.Distributes(j - 1, 1, b);
      A.Distributes(r, 1, a + b);
    }
  }

  // What a common divisor `g` of the blocks makes of a cycle: it stays in one
  // class modulo g, and where g is the greatest, `u` undoes the stride.
  datatype Division = Division(g: nat, p: nat, q: nat, u: int, v: int)

  predicate Products(d: Division, a: nat, b: nat) {
    a == d.p * d.g && b == d.q * d.g && d.u * d.q + d.v * (d.p + d.q) == 1
  }

  // The products are kept out of sight where nobody multiplies.
  ghost predicate Divides(d: Division, a: nat, b: nat) {
    d.g > 0 && forall t: int {:trigger Opened(0, t)} :: Opened(0, t) ==> Products(d, a, b)
  }

  lemma Divide(a: nat, b: nat) returns (d: Division)
    requires b > 0
    ensures Divides(d, a, b) && d.g == A.Gcd(a, b) && a + b == d.g * (d.p + d.q)
  {
    var p, q, u, v := Bezout(a, b);
    var g := A.Gcd(a, b);
    // u p + v q == 1, so (v - u) q + u (p + q) == 1
    assert (u * p + v * q) * g == g;
    OneOf(u * p + v * q, g);
    d := Division(g, p, q, v - u, u);
    assert d.u * d.q + d.v * (d.p + d.q) == 1;
  }

  lemma OneOf(x: int, g: nat)
    requires g > 0 && x * g == g
    ensures x == 1
  {
    A.Distributes(x - 1, 1, g);
  }

  // Two places less than `n` apart are `n` times nothing apart.
  lemma Near(x: nat, y: nat, n: nat, k: int)
    requires x < n && y < n && x == y + k * n
    ensures x == y
  {
    if k >= 1 {
      A.Distributes(k - 1, 1, n);
    } else if k <= -1 {
      A.Distributes(k + 1, -1, n);
    }
  }

  lemma Remainder(w: int, c: nat) returns (m: int, k: nat)
    requires c > 0
    ensures w == m * c + k && k < c
  {
    m, k := w / c, w % c;
  }

  // Whatever is in the class of `x` is on its cycle,
  lemma Reaches(x: nat, t: int, y: nat, a: nat, b: nat, d: Division) returns (k: nat)
    requires b > 0 && Divides(d, a, b) && x < a + b && y < a + b && y == x + t * d.g
    ensures k < d.p + d.q && At(x, k, a, b) == y
  {
    assert Opened(0, 0);
    var c := d.p + d.q;
    A.Distributes(d.p, d.q, d.g);
    assert c > 0;
    var m: int;
    m, k := Remainder(d.u * t, c);
    var s := AtIsShift(x, k, a, b);
    // k q == t - c (v t + m q)
    ReachesStep(d, c, t, m, k, s, x, y, a, b);
    Near(At(x, k, a, b), y, a + b, -(d.v * t) - m * d.q - s);
  }

  lemma StepsTaken(d: Division, c: int, t: int, m: int, k: int)
    requires d.u * d.q + d.v * c == 1 && d.u * t == m * c + k
    ensures k * d.q == t - (d.v * t + m * d.q) * c
  {
    A.Distributes(d.u * t, -(m * c), d.q);
    A.Distributes(d.u * d.q, d.v * c, t);
    A.Distributes(d.v * t, m * d.q, c);
    assert (d.u * t) * d.q == (d.u * d.q) * t;
    assert (m * c) * d.q == (m * d.q) * c;
    assert (d.v * c) * t == (d.v * t) * c;
  }

  lemma ReachesStep(d: Division, c: int, t: int, m: int, k: int, s: int, x: int, y: int, a: int, b: int)
    requires d.u * d.q + d.v * c == 1 && b == d.q * d.g && a + b == c * d.g && y == x + t * d.g
    requires d.u * t == m * c + k
    ensures x + k * b - s * (a + b) == y + (-(d.v * t) - m * d.q - s) * (a + b)
  {
    var e := d.v * t + m * d.q;
    StepsTaken(d, c, t, m, k);
    assert k * b == (k * d.q) * d.g;
    A.Distributes(t, -(e * c), d.g);
    assert (e * c) * d.g == e * (a + b);
    A.Distributes(-e, -s, a + b);
  }

  // it is there once,
  lemma Apart(x: nat, j: nat, k: nat, a: nat, b: nat, d: Division)
    requires b > 0 && Divides(d, a, b) && x < a + b && j < k < j + d.p + d.q
    ensures At(x, j, a, b) != At(x, k, a, b)
  {
    assert Opened(0, 0);
    if At(x, j, a, b) == At(x, k, a, b) {
      var c, n := d.p + d.q, k - j;
      var s := AtIsShift(x, j, a, b);
      var r := AtIsShift(x, k, a, b);
      ApartStep(d, c, n, r - s, j, k, s, r, a, b);
      Near(n, 0, c, d.u * (r - s) + d.v * n);
    }
  }

  lemma ApartStep(d: Division, c: int, n: int, m: int, j: int, k: int, s: int, r: int, a: int, b: int)
    requires d.g > 0 && d.u * d.q + d.v * c == 1 && b == d.q * d.g && c == d.p + d.q && a == d.p * d.g
    requires n == k - j && m == r - s && j * b - s * (a + b) == k * b - r * (a + b)
    ensures n == (d.u * m + d.v * n) * c
  {
    A.Distributes(d.p, d.q, d.g);
    A.Distributes(k, -j, b);
    A.Distributes(r, -s, a + b);
    assert n * b == m * (a + b);
    assert (n * d.q) * d.g == (m * c) * d.g;
    Cancel(n * d.q, m * c, d.g);
    A.Distributes(d.u * d.q, d.v * c, n);
    assert (d.u * d.q) * n == d.u * (m * c) == (d.u * m) * c;
    assert (d.v * c) * n == (d.v * n) * c;
    A.Distributes(d.u * m, d.v * n, c);
  }

  lemma Cancel(x: int, y: int, g: int)
    requires g > 0 && x * g == y * g
    ensures x == y
  {
    A.Distributes(x, -y, g);
    if x - y > 0 { A.Distributes(x - y - 1, 1, g); } else if x - y < 0 { A.Distributes(x - y + 1, -1, g); }
  }

  // and the cycle is closed after p + q steps, all of them in one class.
  lemma Closes(x: nat, a: nat, b: nat, d: Division)
    requires b > 0 && Divides(d, a, b) && x < a + b
    ensures At(x, d.p + d.q, a, b) == x
  {
    assert Opened(0, 0);
    var c := d.p + d.q;
    var s := AtIsShift(x, c, a, b);
    A.Distributes(d.p, d.q, d.g);
    ClosesStep(c, d.q, d.g, s, b, a + b);
    Near(At(x, c, a, b), x, a + b, d.q - s);
  }

  lemma ClosesStep(c: int, q: int, g: int, s: int, b: int, n: int)
    requires b == q * g && n == c * g
    ensures c * b - s * n == (q - s) * n
  {
    assert c * b == (c * q) * g == q * n;
    A.Distributes(q, -s, n);
  }

  // The class of `x`: its remainder.
  ghost function Class(x: nat, g: nat): (r: nat)
    requires g > 0
    ensures r < g
  {
    if x < g then x else Class(x - g, g)
  }

  lemma {:induction false} ClassOf(x: nat, g: nat) returns (k: nat)
    requires g > 0
    ensures x == k * g + Class(x, g)
    decreases x
  {
    if x < g {
      k := 0;
    } else {
      var k' := ClassOf(x - g, g);
      k := k' + 1;
      A.Distributes(k', 1, g);
    }
  }

  lemma {:induction false} Shifted(x: nat, k: nat, g: nat)
    requires g > 0
    ensures Class(x + k * g, g) == Class(x, g)
    decreases k
  {
    if k > 0 {
      Shifted(x, k - 1, g);
      A.Distributes(k - 1, 1, g);
      assert x + k * g - g == x + (k - 1) * g;
    }
  }

  lemma {:induction false} SameClass(x: nat, j: nat, a: nat, b: nat, d: Division)
    requires b > 0 && Divides(d, a, b) && x < a + b
    ensures Class(At(x, j, a, b), d.g) == Class(x, d.g)
  {
    assert Opened(0, 0);
    if j > 0 {
      SameClass(x, j - 1, a, b, d);
      var y := At(x, j - 1, a, b);
      if y >= a { Shifted(y - a, d.p, d.g); } else { Shifted(y, d.q, d.g); }
    }
  }

  // --------------------------------------------------------- in the array

  ghost predicate Passed(x: nat, y: nat, j: nat, a: nat, b: nat)
    requires x < a + b
  {
    exists k: nat :: 1 <= k <= j && At(x, k, a, b) == y
  }

  // Which element is at `x` once `i` cycles of `c` are done, and `j` steps of
  // the next.
  ghost function Source(x: nat, i: nat, j: nat, a: nat, b: nat, g: nat, c: nat): (y: nat)
    requires g > 0 && x < a + b
    ensures y < a + b
  {
    if Class(x, g) < i then From(x, a, b)
    else if Class(x, g) > i then x
    else if x == a + i then if j < c then At(x, j, a, b) else From(x, a, b)
    else if i < b && Passed(a + i, x, j, a, b) then From(x, a, b)
    else x
  }

  lemma Strides(a: nat, b: nat, d: Division)
    requires b > 0 && Divides(d, a, b)
    ensures d.q >= 1 && d.g <= b && a + b == (d.p + d.q) * d.g
  {
    assert Opened(0, 0);
    A.Distributes(d.p, d.q, d.g);
    A.Distributes(d.q - 1, 1, d.g);
  }

  lemma StartClass(i: nat, a: nat, b: nat, d: Division)
    requires Divides(d, a, b) && i < d.g
    ensures Class(a + i, d.g) == i
  {
    assert Opened(0, 0);
    Shifted(i, d.p, d.g);
  }

  // What the next step comes to has not been passed, unless it closes the cycle.
  lemma NextIsNew(i: nat, j: nat, a: nat, b: nat, d: Division)
    requires b > 0 && Divides(d, a, b) && i < d.g <= b && j < d.p + d.q
    ensures var y := At(a + i, j + 1, a, b);
            if j + 1 == d.p + d.q then y == a + i else y != a + i && !Passed(a + i, y, j, a, b)
  {
    var s := a + i;
    if j + 1 == d.p + d.q {
      Closes(s, a, b, d);
    } else {
      Apart(s, 0, j + 1, a, b, d);
      if k: nat :| 1 <= k <= j && At(s, k, a, b) == At(s, j + 1, a, b) {
        Apart(s, k, j + 1, a, b, d);
      }
    }
  }

  lemma OnePassedMore(s: nat, x: nat, j: nat, a: nat, b: nat)
    requires s < a + b
    ensures Passed(s, x, j + 1, a, b) <==> Passed(s, x, j, a, b) || x == At(s, j + 1, a, b)
  {
  }

  // One swap, of the place the cycle has come to with the one it started from.
  lemma SourceStep(x: nat, i: nat, j: nat, a: nat, b: nat, d: Division)
    requires b > 0 && Divides(d, a, b) && x < a + b && i < d.g <= b && j < d.p + d.q
    ensures var y := At(a + i, j + 1, a, b);
            Source(x, i, j + 1, a, b, d.g, d.p + d.q) ==
              if x == a + i then Source(y, i, j, a, b, d.g, d.p + d.q)
              else if x == y then Source(a + i, i, j, a, b, d.g, d.p + d.q)
              else Source(x, i, j, a, b, d.g, d.p + d.q)
  {
    var s := a + i;
    var y := At(s, j + 1, a, b);
    StartClass(i, a, b, d);
    SameClass(s, j + 1, a, b, d);
    assert From(y, a, b) == At(s, j, a, b);
    NextIsNew(i, j, a, b, d);
    OnePassedMore(s, x, j, a, b);
  }

  lemma AllPassed(x: nat, i: nat, a: nat, b: nat, d: Division)
    requires b > 0 && Divides(d, a, b) && x < a + b && i < d.g <= b && Class(x, d.g) == i && x != a + i
    ensures Passed(a + i, x, d.p + d.q, a, b)
  {
    assert Opened(0, 0);
    var m := ClassOf(x, d.g);
    var p: int := d.p;
    A.Distributes(m, -p, d.g);
    var k := Reaches(a + i, m - p, x, a, b, d);
    assert At(a + i, k, a, b) == x;
  }

  // A cycle done is a class done.
  lemma CycleDone(x: nat, i: nat, a: nat, b: nat, d: Division)
    requires b > 0 && Divides(d, a, b) && x < a + b && i < d.g <= b
    ensures Source(x, i, d.p + d.q, a, b, d.g, d.p + d.q) == Source(x, i + 1, 0, a, b, d.g, d.p + d.q)
  {
    Strides(a, b, d);
    if Class(x, d.g) == i && x != a + i { AllPassed(x, i, a, b, d); }
  }

  // ----------------------------------------------------------- permute_args

  // Two neighbouring blocks of an array of `n`.
  datatype Blocks = Blocks(n: nat, start: nat, a: nat, b: nat)

  predicate Fit(k: Blocks) {
    k.b > 0 && k.start + k.a + k.b <= k.n
  }

  ghost function Spot(y: nat, i: nat, j: nat, k: Blocks, g: nat, c: nat): nat
    requires Fit(k) && g > 0
  {
    if k.start <= y < k.start + k.a + k.b then k.start + Source(y - k.start, i, j, k.a, k.b, g, c) else y
  }

  // The sources of all places of the array at once.
  ghost function Layout(i: nat, j: nat, k: Blocks, g: nat, c: nat): (r: seq<nat>)
    requires Fit(k) && g > 0
    ensures |r| == k.n
  {
    seq(k.n, y requires 0 <= y < k.n => Spot(y, i, j, k, g, c))
  }

  function Swapped<T>(s: seq<T>, x: nat, y: nat): seq<T>
    requires x < |s| && y < |s|
  {
    s[y := s[x]][x := s[y]]
  }

  // One swap, of the places `s` and `z`.
  ghost predicate Moves(y: nat, i: nat, j: nat, k: Blocks, g: nat, c: nat, s: nat, z: nat)
    requires Fit(k) && g > 0
  {
    Spot(y, i, j + 1, k, g, c) ==
      if y == s then Spot(z, i, j, k, g, c) else if y == z then Spot(s, i, j, k, g, c) else Spot(y, i, j, k, g, c)
  }

  lemma SpotStep(y: nat, i: nat, j: nat, k: Blocks, d: Division, from: nat, to: nat)
    requires Fit(k) && Divides(d, k.a, k.b) && i < d.g <= k.b && j < d.p + d.q && y < k.n
    requires from == k.start + k.a + i && to == k.start + At(k.a + i, j + 1, k.a, k.b)
    ensures Moves(y, i, j, k, d.g, d.p + d.q, from, to)
  {
    if k.start <= y < k.start + k.a + k.b { SourceStep(y - k.start, i, j, k.a, k.b, d); }
  }

  lemma AllMove(i: nat, j: nat, k: Blocks, d: Division, c: nat, from: nat, to: nat)
    requires Fit(k) && Divides(d, k.a, k.b) && i < d.g <= k.b && j < d.p + d.q == c
    requires from == k.start + k.a + i && to == k.start + At(k.a + i, j + 1, k.a, k.b)
    ensures forall y: nat :: y < k.n ==> Moves(y, i, j, k, d.g, c, from, to)
  {
    forall y: nat | y < k.n ensures Moves(y, i, j, k, d.g, c, from, to) {
      SpotStep(y, i, j, k, d, from, to);
    }
  }

  lemma LayoutStep(i: nat, j: nat, k: Blocks, d: Division)
    requires Fit(k) && Divides(d, k.a, k.b) && i < d.g <= k.b && j < d.p + d.q
    ensures Layout(i, j + 1, k, d.g, d.p + d.q) ==
      Swapped(Layout(i, j, k, d.g, d.p + d.q), k.start + k.a + i, k.start + At(k.a + i, j + 1, k.a, k.b))
  {
    var from, to, c := k.start + k.a + i, k.start + At(k.a + i, j + 1, k.a, k.b), d.p + d.q;
    AllMove(i, j, k, d, c, from, to);
    SwappedLayout(i, j, k, d.g, c, from, to);
  }

  lemma SwappedLayout(i: nat, j: nat, k: Blocks, g: nat, c: nat, s: nat, z: nat)
    requires Fit(k) && g > 0 && s < k.n && z < k.n
    requires forall y: nat :: y < k.n ==> Moves(y, i, j, k, g, c, s, z)
    ensures Layout(i, j + 1, k, g, c) == Swapped(Layout(i, j, k, g, c), s, z)
  {
    var before, after := Layout(i, j, k, g, c), Layout(i, j + 1, k, g, c);
    forall y: nat | y < k.n ensures after[y] == Swapped(before, s, z)[y] {
      assert Moves(y, i, j, k, g, c, s, z);
    }
  }

  lemma LayoutDone(i: nat, k: Blocks, d: Division)
    requires Fit(k) && Divides(d, k.a, k.b) && i < d.g <= k.b
    ensures Layout(i, d.p + d.q, k, d.g, d.p + d.q) == Layout(i + 1, 0, k, d.g, d.p + d.q)
  {
    var before, after := Layout(i, d.p + d.q, k, d.g, d.p + d.q), Layout(i + 1, 0, k, d.g, d.p + d.q);
    forall y | 0 <= y < |after| ensures before[y] == after[y] {
      if k.start <= y < k.start + k.a + k.b { CycleDone(y - k.start, i, k.a, k.b, d); }
    }
  }

  lemma LayoutFirst(k: Blocks, g: nat, c: nat)
    requires Fit(k) && g > 0 && c > 0
    ensures forall y :: 0 <= y < k.n ==> Layout(0, 0, k, g, c)[y] == y
  {
  }

  lemma LayoutLast(k: Blocks, g: nat, c: nat)
    requires Fit(k) && g > 0
    ensures forall y :: 0 <= y < k.n ==>
      Layout(g, 0, k, g, c)[y] == Origin(y, k.start, k.start + k.a, k.start + k.a + k.b)
  {
  }

  // The two blocks the other way round.
  function Exchanged<T>(was: seq<T>, start: nat, mid: nat, end: nat): seq<T>
    requires start <= mid <= end <= |was|
  {
    was[..start] + was[mid..end] + was[start..mid] + was[end..]
  }

  function Origin(x: nat, start: nat, mid: nat, end: nat): nat
    requires start <= mid <= end
  {
    if x < start || x >= end then x
    else if x < start + (end - mid) then x + (mid - start)
    else x - (end - mid)
  }

  lemma ExchangedAt<T>(was: seq<T>, start: nat, mid: nat, end: nat)
    requires start <= mid <= end <= |was|
    ensures |Exchanged(was, start, mid, end)| == |was|
    ensures forall x :: 0 <= x < |was| ==> Exchanged(was, start, mid, end)[x] == was[Origin(x, start, mid, end)]
  {
  }

  // The layouts a cycle goes through, one swap after another.
  ghost predicate Cycles(r: seq<seq<nat>>, i: nat, k: Blocks)
    requires i < k.b && k.start + k.a + k.b <= k.n
  {
    && (forall j :: 0 <= j < |r| ==> |r[j]| == k.n)
    && forall j :: 0 <= j < |r| - 1 ==> Step(r, j, i, k)
  }

  ghost predicate Step(r: seq<seq<nat>>, j: nat, i: nat, k: Blocks)
    requires j + 1 < |r| && |r[j]| == k.n && i < k.b && Fit(k)
  {
    r[j + 1] == Swapped(r[j], k.start + k.a + i, k.start + At(k.a + i, j + 1, k.a, k.b))
  }

  ghost predicate Round(before: seq<nat>, after: seq<nat>, i: nat, k: Blocks, c: nat)
    requires i < k.b && Fit(k)
  {
    exists r: seq<seq<nat>> :: |r| == c + 1 && r[0] == before && r[c] == after && Cycles(r, i, k)
  }

  lemma OneRound(i: nat, k: Blocks, d: Division, c: nat)
    requires Fit(k) && Divides(d, k.a, k.b) && i < d.g <= k.b && c == d.p + d.q
    ensures Round(Layout(i, 0, k, d.g, c), Layout(i + 1, 0, k, d.g, c), i, k, c)
  {
    var r := Layouts(i, k, d, c);
    LayoutDone(i, k, d);
    assert Cycles(r, i, k);
  }

  lemma Layouts(i: nat, k: Blocks, d: Division, c: nat) returns (r: seq<seq<nat>>)
    requires Fit(k) && Divides(d, k.a, k.b) && i < d.g <= k.b && c == d.p + d.q
    ensures |r| == c + 1 && r[0] == Layout(i, 0, k, d.g, c) && r[c] == Layout(i, c, k, d.g, c) && Cycles(r, i, k)
  {
    r := seq(c + 1, j requires 0 <= j => Layout(i, j, k, d.g, c));
    forall j: nat | j < c ensures Step(r, j, i, k) {
      LayoutsStep(r, i, j, k, d, c);
    }
  }

  lemma LayoutsStep(r: seq<seq<nat>>, i: nat, j: nat, k: Blocks, d: Division, c: nat)
    requires Fit(k) && Divides(d, k.a, k.b) && i < d.g <= k.b && j < c == d.p + d.q < |r|
    requires r[j] == Layout(i, j, k, d.g, c) && r[j + 1] == Layout(i, j + 1, k, d.g, c)
    ensures Step(r, j, i, k)
  {
    LayoutStep(i, j, k, d);
  }

  // All of them: from the array as it is to the two blocks exchanged.
  ghost predicate Plan(plan: seq<seq<nat>>, k: Blocks, c: nat)
    requires Fit(k)
  {
    && 0 < |plan| <= k.b + 1
    && (forall i :: 0 <= i < |plan| ==> |plan[i]| == k.n)
    && (forall i :: 0 <= i < |plan| - 1 ==> Hop(plan, i, k, c))
    && (forall y :: 0 <= y < k.n ==> plan[0][y] == y)
  }

  ghost predicate Hop(plan: seq<seq<nat>>, i: nat, k: Blocks, c: nat)
    requires i + 1 < |plan| && i < k.b && Fit(k)
  {
    Round(plan[i], plan[i + 1], i, k, c)
  }

  lemma MakePlan(k: Blocks) returns (plan: seq<seq<nat>>)
    requires Fit(k)
    ensures |plan| == A.Gcd(k.a, k.b) + 1 && Plan(plan, k, (k.a + k.b) / A.Gcd(k.a, k.b))
    ensures Done(plan[|plan| - 1], k.start, k.start + k.a, k.start + k.a + k.b)
  {
    var d := Divide(k.a, k.b);
    var c := d.p + d.q;
    Strides(k.a, k.b, d);
    A.Quotient(c, 0, d.g);
    plan := seq(d.g + 1, i requires 0 <= i => Layout(i, 0, k, d.g, c));
    forall i: nat | i < d.g ensures Hop(plan, i, k, c) {
      OneRound(i, k, d, c);
    }
    LayoutFirst(k, d.g, c);
    LayoutLast(k, d.g, c);
  }

  ghost predicate Done(layout: seq<nat>, start: nat, mid: nat, end: nat)
    requires start <= mid <= end
  {
    forall y :: 0 <= y < |layout| ==> layout[y] == Origin(y, start, mid, end)
  }

  // `argv` is `was` laid out so.
  ghost predicate Stands<T>(argv: seq<T>, was: seq<T>, layout: seq<nat>) {
    |argv| == |was| == |layout| && forall y {:trigger layout[y]} :: 0 <= y < |argv| ==> layout[y] < |was| && argv[y] == was[layout[y]]
  }

  method Swap<T>(argv: array<T>, cstart: nat, pos: nat, ghost was: seq<T>, ghost layout: seq<nat>)
    requires cstart < argv.Length && pos < argv.Length && Stands(argv[..], was, layout)
    modifies argv
    ensures Stands(argv[..], was, Swapped(layout, cstart, pos))
  {
    StandsSwapped(argv[..], was, layout, cstart, pos);
    ghost var now := argv[..];
    var swap := argv[pos];
    argv[pos] := argv[cstart];
    argv[cstart] := swap;
    assert argv[..] == Swapped(now, cstart, pos);
  }

  // The walk round one cycle.
  method Cycle<T>(nonoptStart: nat, nonoptEnd: nat, optEnd: nat, i: nat, cyclelen: nat, argv: array<T>,
                  ghost was: seq<T>, ghost before: seq<nat>, ghost after: seq<nat>, ghost k: Blocks)
    requires nonoptStart <= nonoptEnd && nonoptEnd + i < optEnd <= argv.Length
    requires k == Blocks(argv.Length, nonoptStart, nonoptEnd - nonoptStart, optEnd - nonoptEnd)
    requires Round(before, after, i, k, cyclelen)
    requires Stands(argv[..], was, before)
    modifies argv
    ensures Stands(argv[..], was, after)
  {
    ghost var layouts :| |layouts| == cyclelen + 1 && layouts[0] == before && layouts[cyclelen] == after && Cycles(layouts, i, k);
    var nnonopts, nopts := nonoptEnd - nonoptStart, optEnd - nonoptEnd;
    var cstart := nonoptEnd + i;
    var pos := cstart;
    var j := 0;
    while j < cyclelen
      invariant j <= cyclelen && pos == nonoptStart + At(nnonopts + i, j, nnonopts, nopts)
      invariant Stands(argv[..], was, layouts[j])
    {
      if pos >= nonoptEnd {
        pos := pos - nnonopts;
      } else {
        pos := pos + nopts;
      }
      assert Step(layouts, j, i, k);
      Swap(argv, cstart, pos, was, layouts[j]);
      j := j + 1;
    }
  }

  lemma StandsSwapped<T>(now: seq<T>, was: seq<T>, layout: seq<nat>, x: nat, y: nat)
    requires Stands(now, was, layout) && x < |layout| && y < |layout|
    ensures Stands(Swapped(now, x, y), was, Swapped(layout, x, y))
  {
  }

  lemma StandsExchanged<T>(now: seq<T>, was: seq<T>, layout: seq<nat>, start: nat, mid: nat, end: nat)
    requires Stands(now, was, layout) && start <= mid <= end <= |was|
    requires Done(layout, start, mid, end)
    ensures now == Exchanged(was, start, mid, end)
  {
    ExchangedAt(was, start, mid, end);
  }

  // permute_args. A second block without elements would have gcd divide by 0.
  method PermuteArgs<T>(nonoptStart: nat, nonoptEnd: nat, optEnd: nat, argv: array<T>)
    requires nonoptStart <= nonoptEnd < optEnd <= argv.Length
    modifies argv
    ensures argv[..] == Exchanged(old(argv[..]), nonoptStart, nonoptEnd, optEnd)
  {
    ghost var was := argv[..];
    var nnonopts, nopts := nonoptEnd - nonoptStart, optEnd - nonoptEnd;
    var ncycle := Gcd(nnonopts, nopts);
    var cyclelen := (optEnd - nonoptStart) / ncycle;
    ghost var k := Blocks(argv.Length, nonoptStart, nnonopts, nopts);
    ghost var plan := MakePlan(k);
    var i := 0;
    while i < ncycle
      invariant i <= ncycle && Stands(argv[..], was, plan[i])
    {
      assert Hop(plan, i, k, cyclelen);
      Cycle(nonoptStart, nonoptEnd, optEnd, i, cyclelen, argv, was, plan[i], plan[i + 1], k);
      i := i + 1;
    }
    StandsExchanged(argv[..], was, plan[ncycle], nonoptStart, nonoptEnd, optEnd);
  }
}
