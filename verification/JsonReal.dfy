// compat/jansson/strconv.c: doubles and their texts. The C library's printf and strtod
// are not part of this model; a double is known by the seventeen digits "%.17g" gives it.

module JsonReal {
  import opened Octets
  import opened Wrappers

  predicate Digit(c: int) {
    0x30 <= c <= 0x39
  }

  predicate AllDigits(d: Bytes) {
    forall i :: 0 <= i < |d| ==> Digit(d[i])
  }

  // What printf makes of a finite double: a sign, digits, and where it has them a
  // fraction and an exponent.
  datatype Printed = Printed(negative: bool, whole: Bytes, fraction: Bytes, exponent: Bytes, small: bool)

  // Seventeen digits and, in fixed notation, three zeros behind the point; at least
  // two digits in an exponent, which is never zero.
  predicate Finite(x: Printed) {
    && AllDigits(x.whole) && AllDigits(x.fraction) && AllDigits(x.exponent)
    && 0 < |x.whole| <= 17 && (x.whole[0] == 0x30 ==> |x.whole| == 1) && |x.fraction| <= 20
    && (x.exponent != [] ==> 2 <= |x.exponent| <= 3 && exists i :: 0 <= i < |x.exponent| && x.exponent[i] != 0x30)
  }

  type Double = x: Printed | Finite(x) witness Printed(false, [0x30], [], [], false)

  const POINT: byte := 0x2E
  const MINUS: byte := 0x2D
  const PLUS: byte := 0x2B
  const SMALL_E: byte := 0x65
  const ZERO: byte := 0x30

  function Mantissa(x: Double): (r: Bytes)
    ensures r != [] && |r| <= 39
  {
    (if x.negative then [MINUS] else []) + x.whole + (if x.fraction != [] then [POINT] + x.fraction else [])
  }

  // "%.17g"
  function PrintfText(x: Double): (r: Bytes)
    ensures |r| <= 44
  {
    Mantissa(x) + if x.exponent != [] then [SMALL_E] + [if x.small then MINUS else PLUS] + x.exponent else []
  }

  // Without its leading zeros.
  function Stripped(d: Bytes): (r: Bytes)
    ensures |r| <= |d|
  {
    if d != [] && d[0] == ZERO then Stripped(d[1..]) else d
  }

  // jsonp_dtostr: a real is told from an integer by its point or its exponent, which
  // has no '+' and no zeros in front.
  function RealText(x: Double): Bytes {
    if x.exponent != [] then Mantissa(x) + [SMALL_E] + (if x.small then [MINUS] else []) + Stripped(x.exponent)
    else if x.fraction != [] then Mantissa(x)
    else Mantissa(x) + [POINT, ZERO]
  }

  // strchr in the first `length` bytes.
  method Strchr(buffer: array<byte>, length: nat, c: byte) returns (k: nat)
    requires length <= buffer.Length
    ensures k <= length && c !in buffer[..k] && (k < length ==> buffer[k] == c)
  {
    k := 0;
    while k < length && buffer[k] != c
      invariant k <= length && c !in buffer[..k]
    {
      k := k + 1;
    }
  }

  // memmove, down: `n` bytes at `from` to `to`.
  method MoveDown(buffer: array<byte>, to: nat, from: nat, n: nat)
    requires to <= from && from + n <= buffer.Length
    modifies buffer
    ensures buffer[..to + n] == old(buffer[..to]) + old(buffer[from..from + n])
  {
    var i := 0;
    while i < n
      invariant i <= n && buffer[..to] == old(buffer[..to])
      invariant buffer[to..to + i] == old(buffer[from..from + i])
      invariant forall j :: from + i <= j < from + n ==> buffer[j] == old(buffer[j])
    {
      buffer[to + i] := buffer[from + i];
      i := i + 1;
    }
    assert buffer[..to + n] == buffer[..to] + buffer[to..to + n];
  }

  method Write(buffer: array<byte>, text: Bytes)
    requires |text| <= buffer.Length
    modifies buffer
    ensures buffer[..|text|] == text
  {
    forall i | 0 <= i < |text| {
      buffer[i] := text[i];
    }
  }

  lemma MantissaMarks(x: Double)
    ensures SMALL_E !in Mantissa(x) && (POINT in Mantissa(x) <==> x.fraction != [])
  {
    if x.fraction != [] { assert Mantissa(x)[|Mantissa(x)| - |x.fraction| - 1] == POINT; }
  }

  // Where the marks are that the text is searched for.
  lemma Marks(x: Double)
    ensures POINT in PrintfText(x) <==> x.fraction != []
    ensures SMALL_E in PrintfText(x) <==> x.exponent != []
    ensures x.exponent != [] ==> PrintfText(x)[|Mantissa(x)|] == SMALL_E && SMALL_E !in PrintfText(x)[..|Mantissa(x)|]
  {
    MantissaMarks(x);
    if x.exponent != [] {
      assert PrintfText(x)[..|Mantissa(x)|] == Mantissa(x);
      assert POINT in Mantissa(x) ==> POINT in PrintfText(x)[..|Mantissa(x)|];
    }
  }

  lemma FirstMark(text: Bytes, c: byte, k: nat, m: nat)
    requires k < |text| && m < |text| && text[k] == c && text[m] == c && c !in text[..k] && c !in text[..m]
    ensures k == m
  {
  }

  // The exponent's sign and digits, behind the 'e' at `e`.
  lemma ExponentPart(x: Double, e: nat)
    requires x.exponent != [] && e == |Mantissa(x)|
    ensures var t := PrintfText(x);
            && |t| == e + 2 + |x.exponent| && t[..e + 1] == Mantissa(x) + [SMALL_E]
            && t[e + 1] == (if x.small then MINUS else PLUS) && t[e + 2..] == x.exponent
  {
  }

  lemma {:induction false} StrippedIs(d: Bytes, z: nat)
    requires z < |d| && d[z] != ZERO && forall i :: 0 <= i < z ==> d[i] == ZERO
    ensures Stripped(d) == d[z..]
    decreases z
  {
    if z > 0 {
      StrippedIs(d[1..], z - 1);
      assert d[1..][z - 1..] == d[z..];
    }
  }

  const MAX_REAL_STR_LENGTH: nat := 100

  // Past the zeros from `from` on, where a digit that is none follows.
  method SkipZeros(buffer: array<byte>, from: nat, ghost digits: Bytes) returns (end: nat)
    requires from + |digits| <= buffer.Length && buffer[from..from + |digits|] == digits
    requires exists i :: 0 <= i < |digits| && digits[i] != ZERO
    ensures from <= end < from + |digits| && digits[end - from] != ZERO
    ensures forall i :: 0 <= i < end - from ==> digits[i] == ZERO
  {
    end := from;
    assert forall i :: 0 <= i < |digits| ==> digits[i] == buffer[from + i];
    while buffer[end] == ZERO
      invariant from <= end < from + |digits| && forall i :: 0 <= i < end - from ==> digits[i] == ZERO
      decreases from + |digits| - end
    {
      end := end + 1;
    }
  }

  // What is between `start` and `end` goes away.
  method CutOut(buffer: array<byte>, length: nat, start: nat, end: nat, ghost t: Bytes) returns (shorter: nat)
    requires start <= end <= length == |t| <= buffer.Length && buffer[..length] == t
    modifies buffer
    ensures shorter == length - (end - start) && buffer[..shorter] == t[..start] + t[end..]
  {
    shorter := length;
    assert buffer[..start] == t[..start] && buffer[end..length] == t[end..];
    if end != start {
      MoveDown(buffer, start, end, length - end);
      shorter := length - (end - start);
    } else {
      assert t == t[..start] + t[end..];
    }
  }

  // The 'e' found: what is superfluous behind it goes away.
  method Shorten(x: Double, buffer: array<byte>, length: nat, e: nat) returns (shorter: nat)
    requires x.exponent != [] && e == |Mantissa(x)| && length == |PrintfText(x)| <= buffer.Length
    requires buffer[..length] == PrintfText(x)
    modifies buffer
    ensures shorter <= length && buffer[..shorter] == RealText(x)
  {
    ghost var t := PrintfText(x);
    ExponentPart(x, e);
    var start: nat := e + 1;
    assert buffer[start] == buffer[..length][start] == t[e + 1];
    assert buffer[e + 2..e + 2 + |x.exponent|] == t[e + 2..];
    var end := SkipZeros(buffer, start + 1, x.exponent);
    if buffer[start] == MINUS {
      start := start + 1;
    }
    StrippedIs(x.exponent, end - (e + 2));
    ShorterText(x, t, start, end, end - (e + 2));
    shorter := CutOut(buffer, length, start, end, t);
  }

  lemma ShorterText(x: Double, t: Bytes, start: nat, end: nat, z: nat)
    requires x.exponent != [] && t == PrintfText(x) && z < |x.exponent| && Stripped(x.exponent) == x.exponent[z..]
    requires end == |Mantissa(x)| + 2 + z && start == |Mantissa(x)| + if x.small then 2 else 1
    ensures end <= |t| && start <= |t| && RealText(x) == t[..start] + t[end..]
  {
    var m, sign := Mantissa(x), if x.small then MINUS else PLUS;
    assert t == m + ([SMALL_E] + [sign] + x.exponent);
    Cut(m, sign, x.exponent, z, t);
  }

  lemma Cut(m: Bytes, sign: byte, d: Bytes, z: nat, t: Bytes)
    requires t == m + ([SMALL_E] + [sign] + d) && z <= |d|
    ensures t[|m| + 2 + z..] == d[z..] && t[..|m| + 1] == m + [SMALL_E] && t[..|m| + 2] == m + [SMALL_E] + [sign]
  {
  }

  // Neither a point nor an exponent: ".0".
  method AddPoint(buffer: array<byte>, length: nat, ghost text: Bytes) returns (longer: nat)
    requires length == |text| && length + 2 <= buffer.Length && buffer[..length] == text
    modifies buffer
    ensures longer == length + 2 && buffer[..longer] == text + [POINT, ZERO]
  {
    buffer[length], buffer[length + 1] := POINT, ZERO;
    longer := length + 2;
  }

  // jsonp_dtostr
  method Dtostr(x: Double, buffer: array<byte>) returns (length: nat)
    requires buffer.Length == MAX_REAL_STR_LENGTH
    modifies buffer
    ensures length <= buffer.Length && buffer[..length] == RealText(x)
  {
    var printed := PrintfText(x);
    Write(buffer, printed);
    length := |printed|;
    var point := Strchr(buffer, length, POINT);
    var e := Strchr(buffer, length, SMALL_E);
    Marks(x);
    assert buffer[..length] == printed;
    if point == length && e == length {
      length := AddPoint(buffer, length, printed);
    } else if e < length {
      assert buffer[..e] == printed[..e];
      FirstMark(printed, SMALL_E, e, |Mantissa(x)|);
      length := Shorten(x, buffer, length, e);
    }
  }
}
