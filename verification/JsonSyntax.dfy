// The grammar of RFC 8259 as trees, their texts and what they mean: nothing here knows of
// a lexer, a parser or a dump. Bytes are given by number, as the RFC does.

module JsonSyntax {
  import opened Closed
  import opened Octets
  import opened Wrappers
  import opened Utf8
  import opened JsonReal
  import opened JsonValue
  import L = JsonLex
  import P = JsonParse

  // Section 2: ws.
  predicate Gap(b: Bytes) {
    forall i :: 0 <= i < |b| ==> b[i] == 0x20 || b[i] == 0x09 || b[i] == 0x0A || b[i] == 0x0D
  }

  // ------------------------------------------------------ section 7: strings

  // A byte of an unescaped character, a short escape, or four hexadecimal digits.
  datatype Char = Raw(b: byte) | Short(c: byte) | Unicode(d: Bytes)

  // Where a byte stands in a table of characters, or its length where it does not.
  function PlaceFrom(table: string, b: byte, i: nat): (k: nat)
    requires i <= |table|
    ensures i <= k <= |table|
    decreases |table| - i
  {
    if i == |table| || table[i] as int == b then i else PlaceFrom(table, b, i + 1)
  }

  function OpenPlace(s: (string, byte)): nat {
    PlaceFrom(s.0, s.1, 0)
  }

  // The same, closed: Placed opens it.
  function Place(table: string, b: byte): nat {
    Behind(OpenPlace, (table, b), b)
  }

  lemma {:induction false} PlacedFrom(table: string, b: byte, i: nat)
    requires i <= |table|
    ensures var k := PlaceFrom(table, b, i); (k < |table| ==> table[k] as int == b) && forall j :: i <= j < k ==> table[j] as int != b
    decreases |table| - i
  {
    if i < |table| && table[i] as int != b { PlacedFrom(table, b, i + 1); }
  }

  lemma Placed(table: string, b: byte)
    ensures var k := Place(table, b);
            k <= |table| && (k < |table| ==> table[k] as int == b) && forall j :: 0 <= j < k ==> table[j] as int != b
  {
    BehindIs<(string, byte), nat>(OpenPlace, (table, b), b);
    PlacedFrom(table, b, 0);
  }

  const LOWER := "0123456789abcdef"
  const UPPER := "0123456789ABCDEF"

  predicate HexByte(b: byte) {
    Place(LOWER, b) < 16 || Place(UPPER, b) < 16
  }

  function HexOf(b: byte): (v: nat)
    ensures v < 16
  {
    if Place(LOWER, b) < 16 then Place(LOWER, b) else if Place(UPPER, b) < 16 then Place(UPPER, b) else 0
  }

  // The number that four of them write, whatever their case.
  function CodeUnit(d: Bytes): (v: nat)
    requires |d| == 4
    ensures v < 0x10000
  {
    ((HexOf(d[0]) * 16 + HexOf(d[1])) * 16 + HexOf(d[2])) * 16 + HexOf(d[3])
  }

  const ESCAPED := "\"\\/bfnrt"
  const MEANT: Bytes := [0x22, 0x5C, 0x2F, 0x08, 0x0C, 0x0A, 0x0D, 0x09]

  predicate GoodChar(c: Char) {
    match c
    case Raw(b) => b >= 0x20 && b != 0x22 && b != 0x5C
    case Short(c) => Place(ESCAPED, c) < 8
    case Unicode(d) => |d| == 4 && HexByte(d[0]) && HexByte(d[1]) && HexByte(d[2]) && HexByte(d[3])
  }

  predicate GoodChars(cs: seq<Char>) {
    forall i :: 0 <= i < |cs| ==> GoodChar(cs[i])
  }

  function CharText(c: Char): (r: Bytes)
    ensures |r| >= 1
  {
    match c
    case Raw(b) => [b]
    case Short(c) => [0x5C, c]
    case Unicode(d) => [0x5C, 0x75] + d
  }

  function CharsText(cs: seq<Char>): Bytes {
    if cs == [] then [] else CharText(cs[0]) + CharsText(cs[1..])
  }

  predicate HighSurrogate(v: int) {
    0xD800 <= v <= 0xDBFF
  }

  predicate LowSurrogate(v: int) {
    0xDC00 <= v <= 0xDFFF
  }

  function InFront(a: Bytes, rest: Option<Bytes>): Option<Bytes> {
    if rest.None? then None else Some(a + rest.value)
  }

  // What a code unit makes of the string behind it, and of that behind the next: a
  // character of its own, or with the next one; None for half a surrogate pair, and for
  // U+0000, which no C string holds.
  function Unite(v: int, next: int, one: Option<Bytes>, two: Option<Bytes>): Option<Bytes>
    requires 0 <= v < 0x10000
  {
    if HighSurrogate(v) then
      if LowSurrogate(next) then InFront(Enc((v - 0xD800) * 0x400 + (next - 0xDC00) + 0x10000), two) else None
    else if LowSurrogate(v) || v == 0 then None
    else InFront(Enc(v), one)
  }

  function UnitOf(cs: seq<Char>): int
    requires GoodChars(cs)
  {
    if cs != [] && cs[0].Unicode? then CodeUnit(cs[0].d) else -1
  }

  // The string they stand for.
  function Decoded(cs: seq<Char>): Option<Bytes>
    requires GoodChars(cs)
    decreases |cs|
  {
    if cs == [] then Some([])
    else
      match cs[0]
      case Raw(b) => InFront([b], Decoded(cs[1..]))
      case Short(c) => InFront([MEANT[Place(ESCAPED, c)]], Decoded(cs[1..]))
      case Unicode(d) => Unite(CodeUnit(d), UnitOf(cs[1..]), Decoded(cs[1..]), if |cs| > 1 then Decoded(cs[2..]) else None)
  }

  // ------------------------------------------------------ section 6: numbers

  datatype Exp = Exp(mark: byte, sign: Bytes, digits: Bytes)

  datatype Num = Num(negative: bool, whole: Bytes, fraction: Bytes, exp: Option<Exp>)

  predicate Digits(d: Bytes) {
    forall i :: 0 <= i < |d| ==> 0x30 <= d[i] <= 0x39
  }

  predicate GoodExp(e: Exp) {
    && (e.mark == 0x45 || e.mark == 0x65) && (e.sign == [] || e.sign == [0x2B] || e.sign == [0x2D])
    && e.digits != [] && Digits(e.digits)
  }

  // No zeros in front; digits behind a point, if there is one.
  predicate GoodNum(n: Num) {
    && n.whole != [] && Digits(n.whole) && (n.whole[0] == 0x30 ==> |n.whole| == 1)
    && Digits(n.fraction) && (n.exp.Some? ==> GoodExp(n.exp.value))
  }

  function WholeText(n: Num): Bytes {
    (if n.negative then [0x2D] else []) + n.whole
  }

  function FracText(n: Num): Bytes {
    if n.fraction != [] then [0x2E] + n.fraction else []
  }

  function ExpText(n: Num): Bytes {
    if n.exp.Some? then [n.exp.value.mark] + n.exp.value.sign + n.exp.value.digits else []
  }

  function NumText(n: Num): Bytes {
    WholeText(n) + (FracText(n) + ExpText(n))
  }

  // The number decimal digits write.
  function DecimalOf(d: Bytes): int {
    if d == [] then 0 else 10 * DecimalOf(d[..|d| - 1]) + (d[|d| - 1] as int - 0x30)
  }

  function WholeNumber(n: Num): int {
    if n.negative then -DecimalOf(n.whole) else DecimalOf(n.whole)
  }

  // An integer of 64 bits, or what strtod makes of it.
  function NumValue(n: Num, env: L.Env, lf: P.LoadFlags): Option<Json> {
    if n.fraction == [] && n.exp.None? && !(-0x8000_0000_0000_0000 <= WholeNumber(n) <= 0x7FFF_FFFF_FFFF_FFFF) then None
    else if n.fraction == [] && n.exp.None? && !lf.intAsReal then Some(Integer(WholeNumber(n)))
    else
      var x := env.strtod(NumText(n));
      if x.Some? then Some(Real(x.value)) else None
  }

  // --------------------------------------------- sections 3, 4 and 5: values

  datatype Tree =
    | Literal(text: Bytes)
    | Numeral(num: Num)
    | Text(chars: seq<Char>)
    | List(gap: Bytes, items: seq<Element>)
    | Table(gap: Bytes, members: seq<Member>)

  // ws value ws
  datatype Element = Element(before: Bytes, value: Tree, after: Bytes)

  // ws string ws ':' ws value ws
  datatype Member = Member(before: Bytes, key: seq<Char>, after: Bytes, element: Element)

  // "true", "false" and "null"
  const TRUE: Bytes := [0x74, 0x72, 0x75, 0x65]
  const FALSE: Bytes := [0x66, 0x61, 0x6C, 0x73, 0x65]
  const NULL: Bytes := [0x6E, 0x75, 0x6C, 0x6C]

  predicate GoodTree(t: Tree) {
    match t
    case Literal(text) => text == TRUE || text == FALSE || text == NULL
    case Numeral(num) => GoodNum(num)
    case Text(chars) => GoodChars(chars)
    case List(gap, items) => Gap(gap) && GoodItems(items)
    case Table(gap, members) => Gap(gap) && GoodMembers(members)
  }

  predicate GoodItems(items: seq<Element>) {
    items == [] || (GoodElement(items[0]) && GoodItems(items[1..]))
  }

  predicate GoodMembers(members: seq<Member>) {
    members == [] || (GoodMember(members[0]) && GoodMembers(members[1..]))
  }

  predicate GoodElement(e: Element) {
    Gap(e.before) && GoodTree(e.value) && Gap(e.after)
  }

  predicate GoodMember(m: Member) {
    Gap(m.before) && GoodChars(m.key) && Gap(m.after) && GoodElement(m.element)
  }

  function Quoted(cs: seq<Char>): Bytes {
    [0x22] + CharsText(cs) + [0x22]
  }

  // The text of a tree, a gap between brackets with nothing else in them.
  function TreeText(t: Tree): Bytes {
    match t
    case Literal(text) => text
    case Numeral(num) => NumText(num)
    case Text(chars) => Quoted(chars)
    case List(gap, items) => [0x5B] + (if items == [] then gap + [0x5D] else ItemsText(items))
    case Table(gap, members) => [0x7B] + (if members == [] then gap + [0x7D] else MembersText(members))
  }

  function ElementText(e: Element): Bytes {
    e.before + TreeText(e.value) + e.after
  }

  // Elements with commas between them, and the bracket behind the last.
  function ItemsText(items: seq<Element>): Bytes
    requires items != []
  {
    ElementText(items[0]) + if |items| == 1 then [0x5D] else [0x2C] + ItemsText(items[1..])
  }

  function MemberText(m: Member): Bytes {
    m.before + Quoted(m.key) + m.after + [0x3A] + ElementText(m.element)
  }

  function MembersText(members: seq<Member>): Bytes
    requires members != []
  {
    MemberText(members[0]) + if |members| == 1 then [0x7D] else [0x2C] + MembersText(members[1..])
  }

  // What a tree means: None where a string or a number means nothing, or where a key
  // comes twice and must not.
  function Meaning(t: Tree, env: L.Env, lf: P.LoadFlags): Option<Json>
    requires GoodTree(t)
  {
    match t
    case Literal(text) => Some(if text == TRUE then True else if text == FALSE then False else Null)
    case Numeral(num) => NumValue(num, env, lf)
    case Text(chars) =>
      var s := Decoded(chars);
      if s.None? then None else Some(String(s.value))
    case List(_, items) =>
      var r := ItemsMeaning(items, [], env, lf);
      if r.None? then None else Some(Array(r.value))
    case Table(_, members) =>
      var r := MembersMeaning(members, map[], env, lf);
      if r.None? then None else Some(Object(r.value))
  }

  function ItemsMeaning(items: seq<Element>, acc: seq<Json>, env: L.Env, lf: P.LoadFlags): Option<seq<Json>>
    requires GoodItems(items)
  {
    if items == [] then Some(acc)
    else
      assert GoodElement(items[0]);
      var v := Meaning(items[0].value, env, lf);
      if v.None? then None else ItemsMeaning(items[1..], acc + [v.value], env, lf)
  }

  // A later member with the same key takes the place of an earlier one.
  function MembersMeaning(members: seq<Member>, acc: map<Bytes, Json>, env: L.Env, lf: P.LoadFlags): Option<map<Bytes, Json>>
    requires GoodMembers(members)
  {
    if members == [] then Some(acc)
    else
      assert GoodMember(members[0]) && GoodElement(members[0].element);
      var k := Decoded(members[0].key);
      if k.None? || (lf.rejectDuplicates && k.value in acc) then None
      else
        var v := Meaning(members[0].element.value, env, lf);
        if v.None? then None else MembersMeaning(members[1..], acc[k.value := v.value], env, lf)
  }
}
