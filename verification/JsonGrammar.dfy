// That json_loads takes exactly the texts of the trees of RFC 8259's grammar that have a
// meaning.

module JsonGrammar {
  import opened Closed
  import opened Octets
  import opened Wrappers
  import opened Utf8
  import opened JsonValue
  import opened JsonDump
  import opened JsonLex
  import opened JsonParse
  import opened JsonReal
  import opened JsonSyntax
  import opened JsonTheorems
  import R = JsonRoundTrip

  // ------------------------------------------------ the lexer has the same characters

  // A digit is worth what the tables say, in either case.
  lemma HexAgrees(b: byte)
    ensures HexByte(b) <==> HexChar(b)
    ensures HexByte(b) ==> HexOf(b) == HexValue(b)
  {
    Tables();
    Placed(LOWER, b);
    Placed(UPPER, b);
    if HexChar(b) {
      var v := HexValue(b);
      assert LOWER[v] as int == b || UPPER[v] as int == b;
    }
  }

  // What stands in the tables.
  lemma Tables()
    ensures |LOWER| == |UPPER| == 16
    ensures forall v :: 0 <= v < 16 ==> LOWER[v] as int == if v < 10 then 0x30 + v else 0x57 + v
    ensures forall v :: 0 <= v < 16 ==> UPPER[v] as int == if v < 10 then 0x30 + v else 0x37 + v
  {
  }

  // The code unit of four digits, each from one of the two tables.
  lemma UnitAgrees(d: Bytes)
    requires |d| == 4
    ensures GoodChar(Unicode(d)) <==> FourHex(d, 0)
    ensures FourHex(d, 0) ==> Unit(d, 0) == CodeUnit(d) < 0x10000
  {
    HexAgrees(d[0]);
    HexAgrees(d[1]);
    HexAgrees(d[2]);
    HexAgrees(d[3]);
  }

  lemma {:induction false} DecimalAgrees(d: Bytes)
    ensures DecimalOf(d) == Decimal(d)
  {
    if d != [] { DecimalAgrees(d[..|d| - 1]); }
  }

  lemma IntegerAgrees(n: Num)
    requires GoodNum(n) && n.fraction == [] && n.exp.None?
    ensures IntegerOf(NumText(n)) == WholeNumber(n)
  {
    DecimalAgrees(n.whole);
    assert NumText(n) == WholeText(n);
    if n.negative { assert WholeText(n)[1..] == n.whole; } else { assert WholeText(n) == n.whole; }
  }

  lemma ShortAgrees(c: byte)
    ensures Place(ESCAPED, c) < 8 <==> ShortEscape(c)
    ensures ShortEscape(c) ==> MEANT[Place(ESCAPED, c)] == ShortValue(c)
  {
    Placed(ESCAPED, c);
    assert ESCAPED[0] as int == 0x22 && ESCAPED[1] as int == 0x5C && ESCAPED[2] as int == 0x2F && ESCAPED[3] as int == 0x62;
    assert ESCAPED[4] as int == 0x66 && ESCAPED[5] as int == 0x6E && ESCAPED[6] as int == 0x72 && ESCAPED[7] as int == 0x74;
  }

  // ------------------------------------------- what a text of the grammar loads to

  const CHARS: nat := 23

  // Chars in a text at `p`: closed by the quote at `k`, and decoded as they are.
  ghost predicate Spelled(t: Bytes, p: nat, cs: seq<Char>, k: nat) {
    forall u: int {:trigger Opened(CHARS, u)} :: Opened(CHARS, u) ==>
      GoodChars(cs) && CloseFrom(t, p) == Some(k) && Unescape(t, p, k) == Decoded(cs)
  }

  lemma {:induction false} CharsSpelled(t: Bytes, p: nat, cs: seq<Char>, k: nat)
    requires GoodChars(cs) && R.At(t, p, CharsText(cs)) && k == p + |CharsText(cs)| && k < |t| && t[k] == QUOTE
    ensures Spelled(t, p, cs, k)
    decreases |cs|
  {
    if cs != [] {
      var q := FirstChar(t, p, cs);
      CharsSpelled(t, q, cs[1..], k);
      if !cs[0].Unicode? {
        OrdinarySpelled(t, p, cs, k);
      } else if |cs| == 1 {
        LastUnicode(t, p, cs, k);
      } else {
        var s := SecondChar(t, q, cs);
        CharsSpelled(t, s, cs[2..], k);
        UnicodeSpelled(t, p, cs, k);
      }
    }
  }

  lemma OrdinarySpelled(t: Bytes, p: nat, cs: seq<Char>, k: nat)
    requires cs != [] && GoodChars(cs) && !cs[0].Unicode? && CharStands(t, p, cs[0])
    requires Spelled(t, p + |CharText(cs[0])|, cs[1..], k)
    ensures Spelled(t, p, cs, k)
  {
    assert Opened(CHARS, 0);
  }

  lemma UnitUnescaped(t: Bytes, p: nat, k: nat, next: int)
    requires CloseFrom(t, p) == Some(k) == CloseFrom(t, p + 6) && p + 6 <= k < |t| && t[p] == BACKSLASH && t[p + 1] == 0x75 && FourHex(t, p + 2)
    requires t[p + 6] == BACKSLASH && p + 7 < |t| && t[p + 7] == 0x75 ==> FourHex(t, p + 8) && CloseFrom(t, p + 12) == Some(k) && next == Unit(t, p + 8)
    requires (t[p + 6] == BACKSLASH && p + 7 < |t| && t[p + 7] == 0x75) || next == -1
    ensures Unescape(t, p, k) ==
      Unite(Unit(t, p + 2), next, Unescape(t, p + 6, k), if next != -1 then Unescape(t, p + 12, k) else None)
  {
  }

  // A lone unit, or the first of a pair, or half of one.
  lemma UnicodeSpelled(t: Bytes, p: nat, cs: seq<Char>, k: nat)
    requires |cs| > 1 && GoodChars(cs) && cs[0].Unicode? && CharStands(t, p, cs[0]) && CharStands(t, p + 6, cs[1])
    requires Spelled(t, p + 6, cs[1..], k) && Spelled(t, p + 6 + |CharText(cs[1])|, cs[2..], k)
    ensures Spelled(t, p, cs, k)
  {
    assert Opened(CHARS, 0);
    assert CloseFrom(t, p) == CloseFrom(t, p + 6);
    assert cs[1..][0] == cs[1];
    UnitUnescaped(t, p, k, UnitOf(cs[1..]));
  }

  lemma LastUnicode(t: Bytes, p: nat, cs: seq<Char>, k: nat)
    requires |cs| == 1 && GoodChars(cs) && cs[0].Unicode? && CharStands(t, p, cs[0]) && k == p + 6 < |t| && t[k] == QUOTE
    requires Spelled(t, p + 6, cs[1..], k)
    ensures Spelled(t, p, cs, k)
  {
    assert Opened(CHARS, 0);
    assert CloseFrom(t, p) == CloseFrom(t, p + 6);
    UnitUnescaped(t, p, k, -1);
  }

  lemma FirstChar(t: Bytes, p: nat, cs: seq<Char>) returns (q: nat)
    requires cs != [] && GoodChars(cs) && R.At(t, p, CharsText(cs))
    ensures q == p + |CharText(cs[0])| <= |t| && R.At(t, q, CharsText(cs[1..])) && GoodChars(cs[1..])
    ensures |CharsText(cs)| == |CharText(cs[0])| + |CharsText(cs[1..])| && CharStands(t, p, cs[0])
  {
    q := p + |CharText(cs[0])|;
    R.AtConcat(t, p, CharText(cs[0]), CharsText(cs[1..]));
    CharAt(t, p, cs[0]);
  }

  lemma SecondChar(t: Bytes, q: nat, cs: seq<Char>) returns (s: nat)
    requires |cs| > 1 && GoodChars(cs) && R.At(t, q, CharsText(cs[1..]))
    ensures s == q + |CharText(cs[1])| <= |t| && R.At(t, s, CharsText(cs[2..])) && GoodChars(cs[2..])
    ensures |CharsText(cs[1..])| == |CharText(cs[1])| + |CharsText(cs[2..])| && CharStands(t, q, cs[1])
  {
    assert cs[1..][1..] == cs[2..] && cs[1..][0] == cs[1];
    s := FirstChar(t, q, cs[1..]);
  }

  predicate CharStands(t: Bytes, p: nat, c: Char)
    requires GoodChar(c)
  {
    match c
    case Raw(b) => p < |t| && t[p] == b
    case Short(e) =>
      p + 2 <= |t| && t[p] == BACKSLASH && t[p + 1] == e && ShortEscape(e) && ShortValue(e) == MEANT[Place(ESCAPED, e)]
    case Unicode(d) =>
      p + 6 <= |t| && t[p] == BACKSLASH && t[p + 1] == 0x75 && FourHex(t, p + 2) && Unit(t, p + 2) == CodeUnit(d) < 0x10000
  }

  lemma CharAt(t: Bytes, p: nat, c: Char)
    requires GoodChar(c) && R.At(t, p, CharText(c))
    ensures CharStands(t, p, c)
  {
    match c
    case Raw(b) => R.AtIndex(t, p, [b], 0);
    case Short(e) =>
      R.AtIndex(t, p, [BACKSLASH, e], 0);
      R.AtIndex(t, p, [BACKSLASH, e], 1);
      ShortAgrees(e);
    case Unicode(d) =>
      var w := [BACKSLASH, 0x75] + d;
      UnitAgrees(d);
      R.AtIndex(t, p, w, 0);
      R.AtIndex(t, p, w, 1);
      R.AtIndex(t, p, w, 2);
      R.AtIndex(t, p, w, 3);
      R.AtIndex(t, p, w, 4);
      R.AtIndex(t, p, w, 5);
  }

  lemma StringReads(t: Bytes, p: nat, cs: seq<Char>, s: Bytes, q: nat, env: Env)
    requires GoodChars(cs) && R.At(t, p, Quoted(cs)) && q == p + |Quoted(cs)| && Decoded(cs) == Some(s)
    ensures R.ScansTo(t, p, TString(s), q, env)
  {
    var text, k := Quoted(cs), q - 1;
    QuotedReads(t, p, cs, text, k);
    R.AtItself(text);
    QuotedReads(text, 0, cs, text, |text| - 1);
    R.ScanAtQuote(t, p, k, s, text, env);
  }

  lemma QuotedReads(t: Bytes, p: nat, cs: seq<Char>, text: Bytes, k: nat)
    requires GoodChars(cs) && text == Quoted(cs) && R.At(t, p, text) && k + 1 == p + |text|
    ensures p < k < |t| && t[p] == QUOTE && t[p..k + 1] == text
    ensures CloseFrom(t, p + 1) == Some(k) && Unescape(t, p + 1, k) == Decoded(cs)
  {
    R.QuotedAt(t, p, CharsText(cs), k);
    CharsSpelled(t, p + 1, cs, k);
    assert Opened(CHARS, 0);
  }

  lemma GapSkipped(t: Bytes, p: nat, b: Bytes, q: nat, env: Env)
    requires Gap(b) && R.At(t, p, b) && q == p + |b|
    ensures R.SameScan(t, p, q, env)
  {
    R.BlanksSkipped(t, p, b, env);
  }

  // An exponent, with whatever sign.
  lemma ExpEnds(t: Bytes, p: nat, q: nat, e: Exp, end: nat, env: Env)
    requires p < q <= |t| && GoodExp(e) && R.At(t, q, [e.mark] + e.sign + e.digits) && end == q + 1 + |e.sign| + |e.digits|
    requires R.EndsAt(t, end)
    ensures q < end <= |t| && Exponent(t, p, q, env) == RealAt(t, p, end, env) && t[q] == e.mark
  {
    ExpPlaces(t, q, e);
    R.DigitsAt(t, q + 1 + |e.sign|, e.digits, end);
  }

  lemma ExpPlaces(t: Bytes, q: nat, e: Exp)
    requires GoodExp(e) && R.At(t, q, [e.mark] + e.sign + e.digits)
    ensures var s := q + 1 + |e.sign|;
            && s < |t| && t[q] == e.mark && R.At(t, s, e.digits) && Digit(t[s])
            && (e.sign != [] <==> t[q + 1] == 0x2B || t[q + 1] == 0x2D)
  {
    R.AtConcat(t, q, [e.mark] + e.sign, e.digits);
    R.AtConcat(t, q, [e.mark], e.sign);
    R.AtIndex(t, q, [e.mark], 0);
    if e.sign != [] { R.AtIndex(t, q + 1, e.sign, 0); }
    R.AtIndex(t, q + 1 + |e.sign|, e.digits, 0);
  }

  // What a number ends with, from its whole part at `q` on.
  lemma NumTail(t: Bytes, p: nat, q: nat, n: Num, frac: Bytes, exp: Bytes, end: nat, env: Env)
    requires p < q && GoodNum(n) && frac == FracText(n) && exp == ExpText(n) && frac + exp != []
    requires R.At(t, q, frac + exp) && end == q + |frac| + |exp| && R.EndsAt(t, end)
    ensures q < end <= |t| && !Digit(t[q]) && AfterWhole(t, p, q, env) == RealAt(t, p, end, env)
  {
    R.AtConcat(t, q, frac, exp);
    var r := q + |frac|;
    if n.exp.Some? { ExpEnds(t, p, r, n.exp.value, end, env); }
    if n.fraction != [] { R.FractionEnds(t, p, q, n.fraction, r, env); }
  }

  predicate NumParts(n: Num, text: Bytes, whole: Bytes, frac: Bytes, exp: Bytes) {
    text == whole + (frac + exp) && whole == WholeText(n) && frac == FracText(n) && exp == ExpText(n)
  }

  // A number in a text is the token its value is of.
  lemma NumEnds(t: Bytes, p: nat, n: Num, text: Bytes, whole: Bytes, frac: Bytes, exp: Bytes, end: nat, env: Env)
    requires GoodNum(n) && NumParts(n, text, whole, frac, exp) && R.At(t, p, text) && end == p + |text| && R.EndsAt(t, end)
    ensures p < end <= |t| && (t[p] == MINUS || Digit(t[p]))
    ensures Number(t, p, env) ==
      if frac + exp != [] then RealAt(t, p, end, env)
      else if INT64_MIN <= IntegerOf(text) <= INT64_MAX then (TInteger(text), end) else (Invalid, p)
  {
    if frac + exp == [] {
      assert whole == text;
      IntegerEnds(t, p, n, text, end, env);
    } else {
      var q := p + |whole|;
      R.AtConcat(t, p, whole, frac + exp);
      NumTail(t, p, q, n, frac, exp, end, env);
      R.WholeAt(t, p, n.negative, n.whole, q);
    }
  }

  lemma IntegerEnds(t: Bytes, p: nat, n: Num, text: Bytes, end: nat, env: Env)
    requires GoodNum(n) && text == WholeText(n) && R.At(t, p, text) && end == p + |text| && R.EndsAt(t, end)
    ensures p < end <= |t| && (t[p] == MINUS || Digit(t[p]))
    ensures Number(t, p, env) == if INT64_MIN <= IntegerOf(text) <= INT64_MAX then (TInteger(text), end) else (Invalid, p)
  {
    R.WholeAt(t, p, n.negative, n.whole, end);
    assert Number(t, p, env) == AfterWhole(t, p, end, env);
  }

  lemma NumReads(t: Bytes, p: nat, n: Num, v: Json, end: nat, env: Env, lf: LoadFlags)
    requires GoodNum(n) && R.At(t, p, NumText(n)) && end == p + |NumText(n)| && R.EndsAt(t, end)
    requires NumValue(n, env, lf) == Some(v)
    ensures R.ReadsAs(t, p, v, end, env, lf)
  {
    var text, whole, frac, exp := NumText(n), WholeText(n), FracText(n), ExpText(n);
    NumEnds(t, p, n, text, whole, frac, exp, end, env);
    NumIsValue(t, p, n, text, v, end, env, lf);
  }

  lemma NumIsValue(t: Bytes, p: nat, n: Num, text: Bytes, v: Json, end: nat, env: Env, lf: LoadFlags)
    requires GoodNum(n) && text == NumText(n) && NumValue(n, env, lf) == Some(v) && p < end <= |t| && t[p..end] == text
    requires t[p] == MINUS || Digit(t[p])
    requires Number(t, p, env) ==
      if FracText(n) + ExpText(n) != [] then RealAt(t, p, end, env)
      else if INT64_MIN <= IntegerOf(text) <= INT64_MAX then (TInteger(text), end) else (Invalid, p)
    ensures R.ReadsAs(t, p, v, end, env, lf)
  {
    if n.fraction == [] && n.exp.None? {
      IntegerAgrees(n);
      IntegerToken(t, p, text, WholeNumber(n), v, end, env, lf);
    } else {
      RealToken(t, p, text, v, end, env, lf);
    }
  }

  lemma IntegerToken(t: Bytes, p: nat, text: Bytes, i: int, v: Json, end: nat, env: Env, lf: LoadFlags)
    requires p < end <= |t| && (t[p] == MINUS || Digit(t[p])) && Number(t, p, env) == (TInteger(text), end) && i == IntegerOf(text)
    requires Some(v) == if !lf.intAsReal then Some(Integer(i)) else if env.strtod(text).Some? then Some(Real(env.strtod(text).value)) else None
    ensures R.ReadsAs(t, p, v, end, env, lf)
  {
    assert Opened(R.READ, 0);
    assert Scan(t, p, env) == Number(t, p, env);
  }

  lemma RealToken(t: Bytes, p: nat, text: Bytes, v: Json, end: nat, env: Env, lf: LoadFlags)
    requires p < end <= |t| && (t[p] == MINUS || Digit(t[p])) && Number(t, p, env) == RealAt(t, p, end, env) && t[p..end] == text
    requires env.strtod(text).Some? && v == Real(env.strtod(text).value)
    ensures R.ReadsAs(t, p, v, end, env, lf)
  {
    assert Opened(R.READ, 0);
    assert Scan(t, p, env) == Number(t, p, env);
  }

  // ------------------------------------------------ trees, closed as Closed.dfy says

  const TREE: nat := 20
  const LIST: nat := 21
  const TABLE: nat := 22

  ghost predicate TreeMeans(tree: Tree, v: Json, env: Env, lf: LoadFlags) {
    forall u: int {:trigger Opened(TREE, u)} :: Opened(TREE, u) ==> GoodTree(tree) && Meaning(tree, env, lf) == Some(v)
  }

  ghost predicate ElementMeans(e: Element, v: Json, env: Env, lf: LoadFlags) {
    Gap(e.before) && Gap(e.after) && TreeMeans(e.value, v, env, lf)
  }

  ghost predicate MemberMeans(m: Member, k: Bytes, v: Json, env: Env, lf: LoadFlags) {
    Gap(m.before) && GoodChars(m.key) && Decoded(m.key) == Some(k) && Gap(m.after) && ElementMeans(m.element, v, env, lf)
  }

  ghost predicate ListMeans(items: seq<Element>, acc: seq<Json>, out: seq<Json>, env: Env, lf: LoadFlags) {
    forall u: int {:trigger Opened(LIST, u)} :: Opened(LIST, u) ==> GoodItems(items) && ItemsMeaning(items, acc, env, lf) == Some(out)
  }

  ghost predicate TableMeans(members: seq<Member>, acc: map<Bytes, Json>, out: map<Bytes, Json>, env: Env, lf: LoadFlags) {
    forall u: int {:trigger Opened(TABLE, u)} :: Opened(TABLE, u) ==>
      GoodMembers(members) && MembersMeaning(members, acc, env, lf) == Some(out)
  }

  ghost predicate TreeIs(tree: Tree, d: Bytes) {
    forall u: int {:trigger Opened(TREE, u)} :: Opened(TREE, u) ==> d == TreeText(tree)
  }

  // The pieces of an element's text.
  ghost predicate ElementIs(e: Element, x: Bytes, d: Bytes) {
    TreeIs(e.value, x) && d == e.before + x + e.after
  }

  ghost predicate MemberIs(m: Member, x: Bytes, element: Bytes, d: Bytes) {
    ElementIs(m.element, x, element) && d == m.before + Quoted(m.key) + m.after + [COLON] + element
  }

  ghost predicate ListIs(items: seq<Element>, d: Bytes) {
    forall u: int {:trigger Opened(LIST, u)} :: Opened(LIST, u) ==> items != [] && d == ItemsText(items)
  }

  ghost predicate TableIs(members: seq<Member>, d: Bytes) {
    forall u: int {:trigger Opened(TABLE, u)} :: Opened(TABLE, u) ==> members != [] && d == MembersText(members)
  }

  // The first of a list and the rest of it.
  lemma ListStep(items: seq<Element>, d: Bytes, acc: seq<Json>, out: seq<Json>, env: Env, lf: LoadFlags)
    returns (x: Bytes, first: Bytes, rest: Bytes, v: Json)
    requires items != [] && ListIs(items, d) && ListMeans(items, acc, out, env, lf)
    ensures ElementIs(items[0], x, first) && ElementMeans(items[0], v, env, lf)
    ensures if |items| == 1 then d == first + [0x5D] && out == acc + [v]
            else d == first + ([COMMA] + rest) && ListIs(items[1..], rest) && ListMeans(items[1..], acc + [v], out, env, lf)
  {
    assert Opened(LIST, 0);
    assert GoodElement(items[0]);
    v := Meaning(items[0].value, env, lf).value;
    x, first, rest := TreeText(items[0].value), ElementText(items[0]), [];
    if |items| > 1 { rest := ItemsText(items[1..]); } else { assert items[1..] == []; }
  }

  lemma ListCons(e: Element, x: Bytes, first: Bytes, tail: seq<Element>, rest: Bytes, v: Json, acc: seq<Json>, out: seq<Json>, env: Env, lf: LoadFlags)
    returns (items: seq<Element>, d: Bytes)
    requires ElementIs(e, x, first) && ElementMeans(e, v, env, lf)
    requires if tail == [] then out == acc + [v] else ListIs(tail, rest) && ListMeans(tail, acc + [v], out, env, lf)
    ensures items != [] && ListIs(items, d) && ListMeans(items, acc, out, env, lf)
    ensures d == if tail == [] then first + [0x5D] else first + ([COMMA] + rest)
  {
    assert Opened(LIST, 0) && Opened(TREE, 0);
    items := [e] + tail;
    assert items[1..] == tail && GoodItems(tail) && GoodElement(e);
    assert ItemsMeaning(items, acc, env, lf) == ItemsMeaning(tail, acc + [v], env, lf);
    d := ItemsText(items);
    assert d == ElementText(e) + if tail == [] then [0x5D] else [COMMA] + ItemsText(tail);
  }

  lemma TableStep(members: seq<Member>, d: Bytes, acc: map<Bytes, Json>, out: map<Bytes, Json>, env: Env, lf: LoadFlags)
    returns (x: Bytes, element: Bytes, first: Bytes, rest: Bytes, k: Bytes, v: Json)
    requires members != [] && TableIs(members, d) && TableMeans(members, acc, out, env, lf)
    ensures MemberIs(members[0], x, element, first) && MemberMeans(members[0], k, v, env, lf) && !(lf.rejectDuplicates && k in acc)
    ensures if |members| == 1 then d == first + [0x7D] && out == acc[k := v]
            else d == first + ([COMMA] + rest) && TableIs(members[1..], rest) && TableMeans(members[1..], acc[k := v], out, env, lf)
  {
    assert Opened(TABLE, 0);
    var m := members[0];
    assert GoodMember(m) && GoodElement(m.element) && GoodTree(m.element.value);
    assert Gap(m.before) && Gap(m.after) && Gap(m.element.before) && Gap(m.element.after);
    k, v := Decoded(m.key).value, Meaning(m.element.value, env, lf).value;
    x, element, first, rest := TreeText(m.element.value), ElementText(m.element), MemberText(m), [];
    if |members| > 1 {
      rest := MembersText(members[1..]);
      assert MembersText(members) == MemberText(m) + ([COMMA] + rest);
    } else {
      assert members[1..] == [];
      assert MembersText(members) == MemberText(m) + [0x7D];
      assert MembersMeaning(members, acc, env, lf) == MembersMeaning(members[1..], acc[k := v], env, lf);
    }
  }

  lemma TableCons(m: Member, x: Bytes, element: Bytes, first: Bytes, tail: seq<Member>, rest: Bytes, k: Bytes, v: Json,
                  acc: map<Bytes, Json>, out: map<Bytes, Json>, env: Env, lf: LoadFlags)
    returns (members: seq<Member>, d: Bytes)
    requires MemberIs(m, x, element, first) && MemberMeans(m, k, v, env, lf) && !(lf.rejectDuplicates && k in acc)
    requires if tail == [] then out == acc[k := v] else TableIs(tail, rest) && TableMeans(tail, acc[k := v], out, env, lf)
    ensures members != [] && TableIs(members, d) && TableMeans(members, acc, out, env, lf)
    ensures d == if tail == [] then first + [0x7D] else first + ([COMMA] + rest)
  {
    assert Opened(TABLE, 0) && Opened(TREE, 0);
    members := [m] + tail;
    assert members[1..] == tail && GoodMembers(tail) && GoodElement(m.element) && GoodMember(m);
    assert MembersMeaning(members, acc, env, lf) == MembersMeaning(tail, acc[k := v], env, lf);
    d := MembersText(members);
    assert MemberText(m) == first;
    assert d == MemberText(m) + if tail == [] then [0x7D] else [COMMA] + MembersText(tail);
  }

  // ------------------------------------------- what a text of the grammar loads to

  lemma LeafReads(t: Bytes, p: nat, tree: Tree, d: Bytes, v: Json, at: nat, env: Env, lf: LoadFlags)
    requires !tree.List? && !tree.Table? && TreeMeans(tree, v, env, lf) && TreeIs(tree, d)
    requires R.At(t, p, d) && at == p + |d| && R.EndsAt(t, at)
    ensures R.ReadsAs(t, p, v, at, env, lf)
  {
    assert Opened(TREE, 0);
    match tree
    case Literal(text) => R.WordReads(t, p, text, v, at, env, lf);
    case Numeral(num) => NumReads(t, p, num, v, at, env, lf);
    case Text(chars) => TextReads(t, p, chars, v, at, env, lf);
  }

  // What is between the brackets of a list or a table.
  lemma ListInside(tree: Tree, d: Bytes, v: Json, env: Env, lf: LoadFlags) returns (body: Bytes)
    requires tree.List? && TreeMeans(tree, v, env, lf) && TreeIs(tree, d)
    ensures d == [0x5B] + body && v.Array?
    ensures if tree.items == [] then body == tree.gap + [0x5D] && Gap(tree.gap) && v.items == []
            else ListIs(tree.items, body) && ListMeans(tree.items, [], v.items, env, lf)
  {
    assert Opened(TREE, 0) && Opened(LIST, 0);
    assert GoodItems(tree.items) && ItemsMeaning(tree.items, [], env, lf) == Some(v.items);
    body := d[1..];
  }

  lemma TableInside(tree: Tree, d: Bytes, v: Json, env: Env, lf: LoadFlags) returns (body: Bytes)
    requires tree.Table? && TreeMeans(tree, v, env, lf) && TreeIs(tree, d)
    ensures d == [0x7B] + body && v.Object?
    ensures if tree.members == [] then body == tree.gap + [0x7D] && Gap(tree.gap) && v.members == map[]
            else TableIs(tree.members, body) && TableMeans(tree.members, map[], v.members, env, lf)
  {
    assert Opened(TREE, 0) && Opened(TABLE, 0);
    assert GoodMembers(tree.members) && MembersMeaning(tree.members, map[], env, lf) == Some(v.members);
    body := d[1..];
  }

  lemma {:induction false} TreeReads(t: Bytes, p: nat, tree: Tree, d: Bytes, v: Json, at: nat, env: Env, lf: LoadFlags)
    requires TreeMeans(tree, v, env, lf) && TreeIs(tree, d)
    requires R.At(t, p, d) && at == p + |d| && (tree.List? || tree.Table? || R.EndsAt(t, at))
    ensures R.ReadsAs(t, p, v, at, env, lf)
    decreases tree
  {
    var open := p + 1;
    if tree.List? {
      var body := ListInside(tree, d, v, env, lf);
      R.AtConcat(t, p, [0x5B], body);
      R.PunctScans(t, p, 0x5B, open, env);
      if tree.items == [] {
        GapThenPunct(t, open, tree.gap, 0x5D, at, env);
        R.EmptyArrayReads(t, p, open, v, at, env, lf);
      } else {
        ItemsRead(t, open, tree.items, body, [], v.items, at, env, lf);
        R.ArrayReads(t, p, open, v.items, v, at, env, lf);
      }
    } else if tree.Table? {
      var body := TableInside(tree, d, v, env, lf);
      R.AtConcat(t, p, [0x7B], body);
      R.PunctScans(t, p, 0x7B, open, env);
      if tree.members == [] {
        GapThenPunct(t, open, tree.gap, 0x7D, at, env);
        R.EmptyObjectReads(t, p, open, v, at, env, lf);
      } else {
        MembersRead(t, open, tree.members, body, map[], v.members, at, env, lf);
        R.ObjectReads(t, p, open, v.members, v, at, env, lf);
      }
    } else {
      LeafReads(t, p, tree, d, v, at, env, lf);
    }
  }

  lemma TextReads(t: Bytes, p: nat, cs: seq<Char>, v: Json, at: nat, env: Env, lf: LoadFlags)
    requires GoodChars(cs) && R.At(t, p, Quoted(cs)) && at == p + |Quoted(cs)| && Decoded(cs).Some? && v == String(Decoded(cs).value)
    ensures R.ReadsAs(t, p, v, at, env, lf)
  {
    StringReads(t, p, cs, v.s, at, env);
    assert Opened(R.READ, 0) && Opened(R.SCAN, 0);
  }

  lemma GapThenPunct(t: Bytes, p: nat, gap: Bytes, c: byte, at: nat, env: Env)
    requires Gap(gap) && Punctuation(c) && R.At(t, p, gap + [c]) && at == p + |gap| + 1
    ensures R.EndsAt(t, p) && R.ScansTo(t, p, Punct(c), at, env)
  {
    var q := p + |gap|;
    R.AtConcat(t, p, gap, [c]);
    R.AtIndex(t, p, gap + [c], 0);
    GapSkipped(t, p, gap, q, env);
    R.PunctScans(t, q, c, at, env);
    R.ScanMoved(t, p, q, Punct(c), at, env);
  }

  // An element with the bracket or comma behind it.
  lemma {:induction false} ElementReads(t: Bytes, p: nat, e: Element, x: Bytes, d: Bytes, c: byte, v: Json, at: nat, env: Env, lf: LoadFlags)
    returns (q: nat)
    requires ElementIs(e, x, d) && ElementMeans(e, v, env, lf) && Punctuation(c) && R.At(t, p, d + [c]) && at == p + |d| + 1
    ensures R.ReadsAs(t, p, v, q, env, lf) && R.ScansTo(t, q, Punct(c), at, env)
    decreases e
  {
    var start := p + |e.before|;
    q := start + |x|;
    ElementParts(t, p, e.before, x, e.after, c);
    GapThenPunct(t, q, e.after, c, at, env);
    TreeReads(t, start, e.value, x, v, q, env, lf);
    GapSkipped(t, p, e.before, start, env);
    R.ReadMoved(t, p, start, v, q, env, lf);
  }

  lemma ElementParts(t: Bytes, p: nat, before: Bytes, x: Bytes, after: Bytes, c: byte)
    requires R.At(t, p, before + x + after + [c])
    ensures var start := p + |before|;
            R.At(t, p, before) && R.At(t, start, x) && R.At(t, start + |x|, after + [c])
  {
    assert before + x + after + [c] == before + (x + (after + [c]));
    R.AtConcat(t, p, before, x + (after + [c]));
    R.AtConcat(t, p + |before|, x, after + [c]);
  }

  lemma {:induction false} ItemsRead(t: Bytes, p: nat, items: seq<Element>, d: Bytes, acc: seq<Json>, out: seq<Json>, at: nat, env: Env, lf: LoadFlags)
    requires items != [] && ListIs(items, d) && ListMeans(items, acc, out, env, lf) && R.At(t, p, d) && at == p + |d|
    ensures R.ItemsAs(t, p, acc, out, at, env, lf)
    decreases items
  {
    var x, first, rest, v := ListStep(items, d, acc, out, env, lf);
    var next := p + |first| + 1;
    if |items| == 1 {
      var q := ElementReads(t, p, items[0], x, first, 0x5D, v, next, env, lf);
      R.LastItem(t, p, acc, v, q, out, at, env, lf);
    } else {
      CommaParts(t, p, first, rest);
      var q := ElementReads(t, p, items[0], x, first, COMMA, v, next, env, lf);
      ItemsRead(t, next, items[1..], rest, acc + [v], out, at, env, lf);
      R.OneMoreItem(t, p, acc, v, acc + [v], q, next, out, at, env, lf);
    }
  }

  lemma CommaParts(t: Bytes, p: nat, a: Bytes, b: Bytes)
    requires R.At(t, p, a + ([COMMA] + b))
    ensures R.At(t, p, a + [COMMA]) && R.At(t, p + |a| + 1, b)
  {
    assert a + ([COMMA] + b) == (a + [COMMA]) + b;
    R.AtConcat(t, p, a + [COMMA], b);
  }

  // A member's key and colon, and where its value stands.
  lemma KeyReads(t: Bytes, p: nat, before: Bytes, key: seq<Char>, after: Bytes, k: Bytes, element: Bytes, first: Bytes, c: byte, env: Env)
    returns (e: nat, e1: nat)
    requires Gap(before) && GoodChars(key) && Decoded(key) == Some(k) && Gap(after)
    requires first == before + Quoted(key) + after + [COLON] + element && R.At(t, p, first + [c])
    ensures R.ScansTo(t, p, TString(k), e, env) && R.ScansTo(t, e, Punct(COLON), e1, env)
    ensures R.At(t, e1, element + [c]) && e1 + |element| == p + |first|
  {
    var text := Quoted(key);
    var start := p + |before|;
    e, e1 := start + |text|, start + |text| + |after| + 1;
    KeyParts(t, p, before, text, after, element, c);
    GapSkipped(t, p, before, start, env);
    StringReads(t, start, key, k, e, env);
    R.ScanMoved(t, p, start, TString(k), e, env);
    GapThenPunct(t, e, after, COLON, e1, env);
  }

  lemma KeyParts(t: Bytes, p: nat, before: Bytes, text: Bytes, after: Bytes, element: Bytes, c: byte)
    requires R.At(t, p, before + text + after + [COLON] + element + [c])
    ensures var start := p + |before|;
            && R.At(t, p, before) && R.At(t, start, text) && R.At(t, start + |text|, after + [COLON])
            && R.At(t, start + |text| + |after| + 1, element + [c])
  {
    var tail := element + [c];
    assert before + text + after + [COLON] + element + [c] == before + (text + ((after + [COLON]) + tail));
    R.AtConcat(t, p, before, text + ((after + [COLON]) + tail));
    R.AtConcat(t, p + |before|, text, (after + [COLON]) + tail);
    R.AtConcat(t, p + |before| + |text|, after + [COLON], tail);
  }

  lemma {:induction false} MemberReads(t: Bytes, p: nat, m: Member, x: Bytes, element: Bytes, first: Bytes, c: byte, k: Bytes, v: Json, at: nat,
                                       env: Env, lf: LoadFlags) returns (e: nat, e1: nat, q: nat)
    requires MemberIs(m, x, element, first) && MemberMeans(m, k, v, env, lf) && Punctuation(c)
    requires R.At(t, p, first + [c]) && at == p + |first| + 1
    ensures R.ScansTo(t, p, TString(k), e, env) && R.ScansTo(t, e, Punct(COLON), e1, env)
    ensures R.ReadsAs(t, e1, v, q, env, lf) && R.ScansTo(t, q, Punct(c), at, env)
    decreases m
  {
    e, e1 := KeyReads(t, p, m.before, m.key, m.after, k, element, first, c, env);
    q := ElementReads(t, e1, m.element, x, element, c, v, at, env, lf);
  }

  lemma {:induction false} MembersRead(t: Bytes, p: nat, members: seq<Member>, d: Bytes, acc: map<Bytes, Json>, out: map<Bytes, Json>, at: nat,
                                       env: Env, lf: LoadFlags)
    requires members != [] && TableIs(members, d) && TableMeans(members, acc, out, env, lf) && R.At(t, p, d) && at == p + |d|
    ensures R.MembersAs(t, p, acc, out, at, env, lf)
    decreases members
  {
    var x, element, first, rest, k, v := TableStep(members, d, acc, out, env, lf);
    var next := p + |first| + 1;
    if |members| == 1 {
      var e, e1, q := MemberReads(t, p, members[0], x, element, first, 0x7D, k, v, at, env, lf);
      R.LastMember(t, p, acc, k, e, e1, v, q, out, at, env, lf);
    } else {
      CommaParts(t, p, first, rest);
      var e, e1, q := MemberReads(t, p, members[0], x, element, first, COMMA, k, v, next, env, lf);
      MembersRead(t, next, members[1..], rest, acc[k := v], out, at, env, lf);
      R.OneMoreMember(t, p, acc, k, e, e1, v, acc[k := v], q, next, out, at, env, lf);
    }
  }

  // ------------------------------------------------- the tree of a text that loads

  lemma {:induction false} BlanksBefore(r: Bytes, p: nat)
    requires p <= |r|
    ensures Gap(r[p..BlankEnd(r, p)])
    decreases |r| - p
  {
    if p < |r| && Blank(r[p]) {
      BlanksBefore(r, p + 1);
      var q := BlankEnd(r, p);
      assert r[p..q] == [r[p]] + r[p + 1..q];
    }
  }

  // The chars up to the closing quote.
  lemma {:induction false} CharsOf(r: Bytes, p: nat, k: nat) returns (cs: seq<Char>)
    requires CloseFrom(r, p) == Some(k)
    ensures GoodChars(cs) && CharsText(cs) == r[p..k]
    decreases k - p
  {
    if p == k {
      cs := [];
    } else {
      var c, q := CharOf(r, p, k);
      var rest := CharsOf(r, q, k);
      cs := [c] + rest;
      assert cs[1..] == rest && r[p..k] == r[p..q] + r[q..k];
    }
  }

  lemma CharOf(r: Bytes, p: nat, k: nat) returns (c: Char, q: nat)
    requires CloseFrom(r, p) == Some(k) && p < k
    ensures GoodChar(c) && p < q <= k && CharText(c) == r[p..q] && CloseFrom(r, q) == Some(k)
  {
    if r[p] != BACKSLASH {
      c, q := Raw(r[p]), p + 1;
      assert r[p..p + 1] == [r[p]];
    } else if r[p + 1] != 0x75 {
      c, q := Short(r[p + 1]), p + 2;
      assert r[p..p + 2] == [BACKSLASH, r[p + 1]];
      ShortAgrees(r[p + 1]);
    } else {
      c, q := Unicode(r[p + 2..p + 6]), p + 6;
      assert r[p..p + 6] == [BACKSLASH, 0x75] + r[p + 2..p + 6];
      UnitAgrees(c.d);
    }
  }

  // A string token.
  lemma StringOf(r: Bytes, p: nat) returns (cs: seq<Char>)
    requires p < |r| && r[p] == QUOTE && StringAt(r, p).0.TString?
    ensures GoodChars(cs) && r[p..StringAt(r, p).1] == Quoted(cs) && Decoded(cs) == Some(StringAt(r, p).0.s)
  {
    var k := CloseFrom(r, p + 1).value;
    var text := r[p..k + 1];
    CloseShift(r, p, text, 1, k);
    cs := CharsOf(text, 1, k - p);
    QuotedIs(text, cs);
    R.AtItself(text);
    QuotedReads(text, 0, cs, text, k - p);
  }

  lemma QuotedIs(text: Bytes, cs: seq<Char>)
    requires |text| >= 2 && text[0] == QUOTE && text[|text| - 1] == QUOTE && CharsText(cs) == text[1..|text| - 1]
    ensures text == Quoted(cs)
  {
    assert text == [text[0]] + text[1..|text| - 1] + [text[|text| - 1]];
  }

  // A number token: its parts, and that its value is the token's.
  lemma NumOf(r: Bytes, p: nat, env: Env, lf: LoadFlags) returns (n: Num)
    requires p < |r| && !Number(r, p, env).0.Invalid?
    ensures GoodNum(n) && r[p..Number(r, p, env).1] == NumText(n)
    ensures NumValue(n, env, lf) == TokenValue(Number(r, p, env).0, env, lf)
  {
    var whole := WholeEnd(r, p);
    var negative, d := WholeOf(r, p);
    if whole < |r| && r[whole] == POINT {
      n := FractionOf(r, p, whole, negative, d, env, lf);
    } else if ExponentAt(r, whole) {
      n := RealOf(r, p, whole, whole, negative, d, [], env, lf);
    } else {
      n := IntegerNum(r, p, whole, negative, d, env, lf);
    }
  }

  lemma IntegerNum(r: Bytes, p: nat, whole: nat, negative: bool, d: Bytes, env: Env, lf: LoadFlags) returns (n: Num)
    requires p < whole <= |r| && !DigitAt(r, whole) && !ExponentAt(r, whole) && (whole < |r| ==> r[whole] != POINT)
    requires !AfterWhole(r, p, whole, env).0.Invalid?
    requires R.WholeDigits(d) && r[p..whole] == (if negative then [MINUS] else []) + d
    ensures GoodNum(n) && r[p..AfterWhole(r, p, whole, env).1] == NumText(n)
    ensures NumValue(n, env, lf) == TokenValue(AfterWhole(r, p, whole, env).0, env, lf)
  {
    n := Num(negative, d, [], None);
    assert NumText(n) == r[p..whole];
    IntegerAgrees(n);
  }

  lemma FractionOf(r: Bytes, p: nat, whole: nat, negative: bool, d: Bytes, env: Env, lf: LoadFlags) returns (n: Num)
    requires p < whole < |r| && r[whole] == POINT && !AfterWhole(r, p, whole, env).0.Invalid?
    requires R.WholeDigits(d) && r[p..whole] == (if negative then [MINUS] else []) + d
    ensures GoodNum(n) && r[p..AfterWhole(r, p, whole, env).1] == NumText(n)
    ensures NumValue(n, env, lf) == TokenValue(AfterWhole(r, p, whole, env).0, env, lf)
  {
    var f := DigitsEnd(r, whole + 2);
    n := RealOf(r, p, whole, f, negative, d, r[whole + 1..f], env, lf);
  }

  // A number with a fraction up to `f`, or none, and an exponent, or none.
  lemma RealOf(r: Bytes, p: nat, whole: nat, f: nat, negative: bool, d: Bytes, fraction: Bytes, env: Env, lf: LoadFlags) returns (n: Num)
    requires p < whole <= f <= |r| && !Exponent(r, p, f, env).0.Invalid?
    requires R.WholeDigits(d) && r[p..whole] == (if negative then [MINUS] else []) + d && AllDigits(fraction)
    requires r[whole..f] == (if fraction != [] then [POINT] + fraction else []) && (fraction == [] ==> ExponentAt(r, f))
    ensures GoodNum(n) && r[p..Exponent(r, p, f, env).1] == NumText(n)
    ensures NumValue(n, env, lf) == TokenValue(Exponent(r, p, f, env).0, env, lf)
  {
    var q := Exponent(r, p, f, env).1;
    var exp := ExpOf(r, p, f, env);
    n := Num(negative, d, fraction, exp);
    assert f <= q;
    Spliced(r, p, whole, q);
    Spliced(r, whole, f, q);
    RealValue(r, p, q, n, env, lf);
  }

  lemma RealValue(r: Bytes, p: nat, q: nat, n: Num, env: Env, lf: LoadFlags)
    requires p < q <= |r| && r[p..q] == NumText(n) && !RealAt(r, p, q, env).0.Invalid? && (n.fraction != [] || n.exp.Some?)
    ensures NumValue(n, env, lf) == TokenValue(RealAt(r, p, q, env).0, env, lf)
  {
  }

  function TokenValue(t: Token, env: Env, lf: LoadFlags): Option<Json> {
    match t
    case TInteger(text) => IntegerValue(text, env, lf)
    case TReal(x) => Some(Real(x))
    case _ => None
  }

  lemma WholeOf(r: Bytes, p: nat) returns (negative: bool, d: Bytes)
    requires p < |r| && WholeEnd(r, p) > p
    ensures R.WholeDigits(d) && r[p..WholeEnd(r, p)] == (if negative then [MINUS] else []) + d
  {
    var q := WholeEnd(r, p);
    negative := r[p] == MINUS;
    d := r[if negative then p + 1 else p..q];
    if negative { assert r[p..q] == [r[p]] + r[p + 1..q]; }
  }

  // What follows the digits: an exponent or nothing.
  lemma ExpOf(r: Bytes, p: nat, q: nat, env: Env) returns (exp: Option<Exp>)
    requires p < q <= |r| && !Exponent(r, p, q, env).0.Invalid?
    ensures exp.Some? ==> GoodExp(exp.value)
    ensures exp.Some? <==> ExponentAt(r, q)
    ensures r[q..Exponent(r, p, q, env).1] == if exp.Some? then [exp.value.mark] + exp.value.sign + exp.value.digits else []
    ensures Exponent(r, p, q, env) == RealAt(r, p, Exponent(r, p, q, env).1, env)
  {
    exp := None;
    if ExponentAt(r, q) {
      var s := if q + 1 < |r| && (r[q + 1] == 0x2B || r[q + 1] == 0x2D) then q + 2 else q + 1;
      var end := DigitsEnd(r, s + 1);
      exp := Some(Exp(r[q], r[q + 1..s], r[s..end]));
      Spliced(r, q, s, end);
      Spliced(r, q, q, s);
      if s == q + 2 { assert r[q + 1..s] == [r[q + 1]]; }
    }
  }

  // The token at `b` with the gap in front of it.
  lemma GapOf(r: Bytes, b: nat, env: Env) returns (gap: Bytes)
    requires b <= |r|
    ensures Gap(gap) && b + |gap| <= |r| && r[b..b + |gap|] == gap && Scan(r, b, env) == Head(r, b + |gap|, env)
  {
    BlanksBefore(r, b);
    gap := r[b..BlankEnd(r, b)];
  }

  lemma PunctOf(r: Bytes, b: nat, c: byte, q: nat, env: Env) returns (gap: Bytes)
    requires R.ScansTo(r, b, Punct(c), q, env)
    ensures b < q <= |r| && Gap(gap) && r[b..q] == gap + [c]
  {
    assert Opened(R.SCAN, 0);
    gap := GapOf(r, b, env);
    Opening(r, b + |gap|, Punct(c), env);
    Spliced(r, b, b + |gap|, q);
  }

  lemma Spliced(r: Bytes, b: nat, p: nat, q: nat)
    requires b <= p <= q <= |r|
    ensures r[b..q] == r[b..p] + r[p..q] && (p < q ==> r[p..q] == [r[p]] + r[p + 1..q])
  {
  }

  lemma Opening(r: Bytes, p: nat, t: Token, env: Env)
    requires p <= |r| && Head(r, p, env).0 == t && t.Punct?
    ensures p < |r| && r[p] == t.c && Head(r, p, env).1 == p + 1
  {
  }

  lemma KeyOf(r: Bytes, b: nat, k: Bytes, q: nat, env: Env) returns (gap: Bytes, cs: seq<Char>)
    requires R.ScansTo(r, b, TString(k), q, env)
    ensures b < q <= |r| && Gap(gap) && GoodChars(cs) && r[b..q] == gap + Quoted(cs) && Decoded(cs) == Some(k)
  {
    assert Opened(R.SCAN, 0);
    assert Scan(r, b, env) == (TString(k), q);
    gap := GapOf(r, b, env);
    cs := StringToken(r, b + |gap|, k, q, env);
    Spliced(r, b, b + |gap|, q);
  }

  lemma StringToken(r: Bytes, p: nat, k: Bytes, q: nat, env: Env) returns (cs: seq<Char>)
    requires p <= |r| && Head(r, p, env) == (TString(k), q)
    ensures p < q <= |r| && GoodChars(cs) && r[p..q] == Quoted(cs) && Decoded(cs) == Some(k)
  {
    assert p < |r| && r[p] == QUOTE;
    cs := StringOf(r, p);
  }

  lemma ScalarOf(r: Bytes, p: nat, t: Token, q: nat, v: Json, env: Env, lf: LoadFlags) returns (tree: Tree, d: Bytes)
    requires p <= |r| && Head(r, p, env) == (t, q) && t != LBRACKET && t != LBRACE && Value(r, t, q, env, lf) == Parsed(v, q)
    ensures p < q <= |r| && r[p..q] == d && TreeIs(tree, d) && TreeMeans(tree, v, env, lf)
  {
    if r[p] == QUOTE {
      tree, d := StringScalar(r, p, t, q, v, env, lf);
    } else if Digit(r[p]) || r[p] == 0x2D {
      tree, d := NumberScalar(r, p, t, q, v, env, lf);
    } else {
      tree, d := Literal(r[p..AlphaEnd(r, p + 1)]), r[p..q];
    }
  }

  lemma StringScalar(r: Bytes, p: nat, t: Token, q: nat, v: Json, env: Env, lf: LoadFlags) returns (tree: Tree, d: Bytes)
    requires p < |r| && r[p] == QUOTE && Head(r, p, env) == (t, q) && Value(r, t, q, env, lf) == Parsed(v, q)
    ensures p < q <= |r| && r[p..q] == d && TreeIs(tree, d) && TreeMeans(tree, v, env, lf)
  {
    var cs := StringOf(r, p);
    tree, d := Text(cs), r[p..q];
  }

  lemma NumberScalar(r: Bytes, p: nat, t: Token, q: nat, v: Json, env: Env, lf: LoadFlags) returns (tree: Tree, d: Bytes)
    requires p < |r| && (Digit(r[p]) || r[p] == 0x2D) && Head(r, p, env) == (t, q) && Value(r, t, q, env, lf) == Parsed(v, q)
    ensures p < q <= |r| && r[p..q] == d && TreeIs(tree, d) && TreeMeans(tree, v, env, lf)
  {
    var n := NumOf(r, p, env, lf);
    tree, d := Numeral(n), r[p..q];
  }

  // A value that is no list and no table ends where its token does.
  lemma EndsWithToken(r: Bytes, t: Token, q: nat, v: Json, at: nat, env: Env, lf: LoadFlags)
    requires q <= |r| && Value(r, t, q, env, lf) == Parsed(v, at) && t != LBRACKET && t != LBRACE
    ensures at == q
  {
  }

  // How a value that is read starts and goes on.
  datatype Shape = Leaf | EmptyList | FullList | EmptyTable | FullTable

  lemma ShapeOf(r: Bytes, b: nat, v: Json, at: nat, env: Env, lf: LoadFlags) returns (s: Shape, q: nat)
    requires R.ReadsAs(r, b, v, at, env, lf)
    ensures b < at <= |r|
    ensures s.EmptyList? || s.FullList? ==> R.ScansTo(r, b, LBRACKET, q, env) && v.Array?
    ensures s.EmptyTable? || s.FullTable? ==> R.ScansTo(r, b, LBRACE, q, env) && v.Object?
    ensures match s
            case Leaf => Scan(r, b, env).0 != LBRACKET && Scan(r, b, env).0 != LBRACE
            case EmptyList => R.ScansTo(r, q, RBRACKET, at, env) && v.items == []
            case FullList => R.ItemsAs(r, q, [], v.items, at, env, lf)
            case EmptyTable => R.ScansTo(r, q, RBRACE, at, env) && v.members == map[]
            case FullTable => R.MembersAs(r, q, map[], v.members, at, env, lf)
  {
    assert Opened(R.READ, 0) && Opened(R.SCAN, 0);
    var (t, p) := Scan(r, b, env);
    q := p;
    if t == LBRACKET {
      s := ListShape(r, p, v, at, env, lf);
    } else if t == LBRACE {
      s := TableShape(r, p, v, at, env, lf);
    } else {
      s := Leaf;
    }
  }

  lemma ListShape(r: Bytes, q: nat, v: Json, at: nat, env: Env, lf: LoadFlags) returns (s: Shape)
    requires q <= |r| && ArrayAt(r, q, env, lf) == Parsed(v, at)
    ensures v.Array? && (s.EmptyList? || s.FullList?)
    ensures if s.EmptyList? then R.ScansTo(r, q, RBRACKET, at, env) && v.items == [] else R.ItemsAs(r, q, [], v.items, at, env, lf)
  {
    assert Opened(R.SCAN, 0) && Opened(R.ITEMS, 0);
    s := if Scan(r, q, env).0 == RBRACKET then EmptyList else FullList;
    if s.FullList? { ItemsAreArray(r, Scan(r, q, env).0, Scan(r, q, env).1, [], env, lf); }
  }

  lemma {:induction false} ItemsAreArray(r: Bytes, t: Token, p: nat, acc: seq<Json>, env: Env, lf: LoadFlags)
    requires p <= |r| && Items(r, t, p, acc, env, lf).Parsed?
    ensures Items(r, t, p, acc, env, lf).value.Array?
    decreases |r| - p
  {
    var item := Value(r, t, p, env, lf);
    var (sep, q) := Scan(r, item.at, env);
    if sep == Punct(COMMA) {
      var (next, q2) := Scan(r, q, env);
      ItemsAreArray(r, next, q2, acc + [item.value], env, lf);
    }
  }

  lemma TableShape(r: Bytes, q: nat, v: Json, at: nat, env: Env, lf: LoadFlags) returns (s: Shape)
    requires q <= |r| && ObjectAt(r, q, env, lf) == Parsed(v, at)
    ensures v.Object? && (s.EmptyTable? || s.FullTable?)
    ensures if s.EmptyTable? then R.ScansTo(r, q, RBRACE, at, env) && v.members == map[] else R.MembersAs(r, q, map[], v.members, at, env, lf)
  {
    assert Opened(R.SCAN, 0) && Opened(R.MEMBERS, 0);
    s := if Scan(r, q, env).0 == RBRACE then EmptyTable else FullTable;
    if s.FullTable? { MembersAreObject(r, Scan(r, q, env).0.s, Scan(r, q, env).1, map[], env, lf); }
  }

  lemma {:induction false} MembersAreObject(r: Bytes, key: Bytes, p: nat, acc: map<Bytes, Json>, env: Env, lf: LoadFlags)
    requires p <= |r| && Members(r, key, p, acc, env, lf).Parsed?
    ensures Members(r, key, p, acc, env, lf).value.Object?
    decreases |r| - p
  {
    var (_, q) := Scan(r, p, env);
    var (first, q1) := Scan(r, q, env);
    var item := Value(r, first, q1, env, lf);
    var (sep, q2) := Scan(r, item.at, env);
    if sep == Punct(COMMA) {
      var (next, q3) := Scan(r, q2, env);
      MembersAreObject(r, next.s, q3, acc[key := item.value], env, lf);
    }
  }

  // The item that is read at `b`, and what is read behind it.
  lemma ItemStep(r: Bytes, b: nat, acc: seq<Json>, out: seq<Json>, at: nat, env: Env, lf: LoadFlags) returns (v: Json, q: nat, end: nat, last: bool)
    requires R.ItemsAs(r, b, acc, out, at, env, lf)
    ensures R.ReadsAs(r, b, v, q, env, lf)
    ensures if last then R.ScansTo(r, q, RBRACKET, at, env) && out == acc + [v]
            else R.ScansTo(r, q, Punct(COMMA), end, env) && R.ItemsAs(r, end, acc + [v], out, at, env, lf)
  {
    assert Opened(R.ITEMS, 0) && Opened(R.READ, 0) && Opened(R.SCAN, 0);
    var (t, p) := Scan(r, b, env);
    var item := Value(r, t, p, env, lf);
    v, q := item.value, item.at;
    last, end := Scan(r, q, env).0 == RBRACKET, Scan(r, q, env).1;
    if !last { NoBracket(r, end, acc + [v], env, lf); }
  }

  // Behind a comma there is no closing bracket.
  lemma NoBracket(r: Bytes, p: nat, acc: seq<Json>, env: Env, lf: LoadFlags)
    requires p <= |r| && Items(r, Scan(r, p, env).0, Scan(r, p, env).1, acc, env, lf).Parsed?
    ensures Scan(r, p, env).0 != RBRACKET
  {
  }

  lemma MemberStep(r: Bytes, b: nat, acc: map<Bytes, Json>, out: map<Bytes, Json>, at: nat, env: Env, lf: LoadFlags)
    returns (k: Bytes, p: nat, p1: nat, v: Json, q: nat, end: nat, last: bool)
    requires R.MembersAs(r, b, acc, out, at, env, lf)
    ensures R.ScansTo(r, b, TString(k), p, env) && R.ScansTo(r, p, Punct(COLON), p1, env) && !(lf.rejectDuplicates && k in acc)
    ensures R.ReadsAs(r, p1, v, q, env, lf)
    ensures if last then R.ScansTo(r, q, RBRACE, at, env) && out == acc[k := v]
            else R.ScansTo(r, q, Punct(COMMA), end, env) && R.MembersAs(r, end, acc[k := v], out, at, env, lf)
  {
    assert Opened(R.MEMBERS, 0) && Opened(R.READ, 0) && Opened(R.SCAN, 0);
    k, p := Scan(r, b, env).0.s, Scan(r, b, env).1;
    p1 := Scan(r, p, env).1;
    var (t, start) := Scan(r, p1, env);
    var item := Value(r, t, start, env, lf);
    v, q := item.value, item.at;
    last, end := Scan(r, q, env).0 == RBRACE, Scan(r, q, env).1;
  }

  // The value that starts behind `b`.
  lemma {:induction false} TreeOf(r: Bytes, b: nat, v: Json, at: nat, env: Env, lf: LoadFlags) returns (gap: Bytes, tree: Tree, d: Bytes)
    requires R.ReadsAs(r, b, v, at, env, lf)
    ensures b < at <= |r| && Gap(gap) && r[b..at] == gap + d && TreeIs(tree, d) && TreeMeans(tree, v, env, lf)
    decreases |r| - b, 1
  {
    var s, q := ShapeOf(r, b, v, at, env, lf);
    match s
    case Leaf => gap, tree, d := LeafOf(r, b, v, at, env, lf);
    case EmptyList =>
      gap := PunctOf(r, b, 0x5B, q, env);
      var inner := PunctOf(r, q, 0x5D, at, env);
      tree, d := ListTree(inner, [], inner + [0x5D], v, env, lf);
      Joined(r, b, q, at, gap, 0x5B, inner + [0x5D]);
    case FullList =>
      gap := PunctOf(r, b, 0x5B, q, env);
      var items, body := ElementsOf(r, q, [], v.items, at, env, lf);
      tree, d := ListTree([], items, body, v, env, lf);
      Joined(r, b, q, at, gap, 0x5B, body);
    case EmptyTable =>
      gap := PunctOf(r, b, 0x7B, q, env);
      var inner := PunctOf(r, q, 0x7D, at, env);
      tree, d := TableTree(inner, [], inner + [0x7D], v, env, lf);
      Joined(r, b, q, at, gap, 0x7B, inner + [0x7D]);
    case FullTable =>
      gap := PunctOf(r, b, 0x7B, q, env);
      var members, body := MemberListOf(r, q, map[], v.members, at, env, lf);
      tree, d := TableTree([], members, body, v, env, lf);
      Joined(r, b, q, at, gap, 0x7B, body);
  }

  lemma Joined(r: Bytes, b: nat, q: nat, at: nat, gap: Bytes, c: byte, body: Bytes)
    requires b <= q <= at <= |r| && r[b..q] == gap + [c] && r[q..at] == body
    ensures r[b..at] == gap + ([c] + body)
  {
    Spliced(r, b, q, at);
  }

  lemma LeafOf(r: Bytes, b: nat, v: Json, at: nat, env: Env, lf: LoadFlags) returns (gap: Bytes, tree: Tree, d: Bytes)
    requires R.ReadsAs(r, b, v, at, env, lf) && b < at <= |r| && Scan(r, b, env).0 != LBRACKET && Scan(r, b, env).0 != LBRACE
    ensures Gap(gap) && r[b..at] == gap + d && TreeIs(tree, d) && TreeMeans(tree, v, env, lf)
  {
    var t, q := TokenOf(r, b, v, at, env, lf);
    gap := GapOf(r, b, env);
    EndsWithToken(r, t, q, v, at, env, lf);
    tree, d := ScalarOf(r, b + |gap|, t, q, v, env, lf);
    Spliced(r, b, b + |gap|, at);
  }

  lemma TokenOf(r: Bytes, b: nat, v: Json, at: nat, env: Env, lf: LoadFlags) returns (t: Token, q: nat)
    requires R.ReadsAs(r, b, v, at, env, lf)
    ensures b <= |r| && Scan(r, b, env) == (t, q) && q <= |r| && Value(r, t, q, env, lf) == Parsed(v, at)
  {
    assert Opened(R.READ, 0);
    t, q := Scan(r, b, env).0, Scan(r, b, env).1;
  }

  lemma ListTree(gap: Bytes, items: seq<Element>, body: Bytes, v: Json, env: Env, lf: LoadFlags) returns (tree: Tree, d: Bytes)
    requires Gap(gap) && v.Array?
    requires if items == [] then body == gap + [0x5D] && v.items == [] else ListIs(items, body) && ListMeans(items, [], v.items, env, lf)
    ensures d == [0x5B] + body && TreeIs(tree, d) && TreeMeans(tree, v, env, lf)
  {
    assert Opened(LIST, 0);
    tree := List(gap, items);
    assert GoodItems(items) && ItemsMeaning(items, [], env, lf) == Some(v.items);
    assert GoodTree(tree);
    d := TreeText(tree);
  }

  lemma TableTree(gap: Bytes, members: seq<Member>, body: Bytes, v: Json, env: Env, lf: LoadFlags) returns (tree: Tree, d: Bytes)
    requires Gap(gap) && v.Object?
    requires if members == [] then body == gap + [0x7D] && v.members == map[]
             else TableIs(members, body) && TableMeans(members, map[], v.members, env, lf)
    ensures d == [0x7B] + body && TreeIs(tree, d) && TreeMeans(tree, v, env, lf)
  {
    assert Opened(TABLE, 0);
    tree := Table(gap, members);
    assert GoodMembers(members) && MembersMeaning(members, map[], env, lf) == Some(v.members);
    assert GoodTree(tree);
    d := TreeText(tree);
  }

  lemma {:induction false} ElementsOf(r: Bytes, b: nat, acc: seq<Json>, out: seq<Json>, at: nat, env: Env, lf: LoadFlags)
    returns (items: seq<Element>, d: Bytes)
    requires R.ItemsAs(r, b, acc, out, at, env, lf)
    ensures items != [] && b < at <= |r| && r[b..at] == d && ListIs(items, d) && ListMeans(items, acc, out, env, lf)
    decreases |r| - b, 2
  {
    var v, q, end, last := ItemStep(r, b, acc, out, at, env, lf);
    var before, tree, x := TreeOf(r, b, v, q, env, lf);
    if last {
      var after := PunctOf(r, q, 0x5D, at, env);
      var e := Element(before, tree, after);
      items, d := ListCons(e, x, before + x + after, [], [], v, acc, out, env, lf);
      ElementJoined(r, b, q, at, before, x, after, 0x5D);
    } else {
      var after := PunctOf(r, q, COMMA, end, env);
      var e := Element(before, tree, after);
      var tail, rest := ElementsOf(r, end, acc + [v], out, at, env, lf);
      items, d := ListCons(e, x, before + x + after, tail, rest, v, acc, out, env, lf);
      ElementJoined(r, b, q, end, before, x, after, COMMA);
      MoreJoined(r, b, end, at, before + x + after, rest);
    }
  }

  lemma ElementJoined(r: Bytes, b: nat, q: nat, end: nat, before: Bytes, x: Bytes, after: Bytes, c: byte)
    requires b <= q <= end <= |r| && r[b..q] == before + x && r[q..end] == after + [c]
    ensures r[b..end] == before + x + after + [c]
  {
    Spliced(r, b, q, end);
  }

  lemma MoreJoined(r: Bytes, b: nat, end: nat, at: nat, first: Bytes, rest: Bytes)
    requires b <= end <= at <= |r| && r[b..end] == first + [COMMA] && r[end..at] == rest
    ensures r[b..at] == first + ([COMMA] + rest)
  {
    Spliced(r, b, end, at);
  }

  lemma {:induction false} MemberListOf(r: Bytes, b: nat, acc: map<Bytes, Json>, out: map<Bytes, Json>, at: nat, env: Env, lf: LoadFlags)
    returns (members: seq<Member>, d: Bytes)
    requires R.MembersAs(r, b, acc, out, at, env, lf)
    ensures members != [] && b < at <= |r| && r[b..at] == d && TableIs(members, d) && TableMeans(members, acc, out, env, lf)
    decreases |r| - b, 2
  {
    var k, p, p1, v, q, end, last := MemberStep(r, b, acc, out, at, env, lf);
    var before, key := KeyOf(r, b, k, p, env);
    var colon := PunctOf(r, p, COLON, p1, env);
    var gap, tree, x := TreeOf(r, p1, v, q, env, lf);
    var c: byte := if last then 0x7D else COMMA;
    var stop := if last then at else end;
    var after := PunctOf(r, q, c, stop, env);
    var m := Member(before, key, colon, Element(gap, tree, after));
    var element := gap + x + after;
    var first := before + Quoted(key) + colon + [COLON] + element;
    ElementJoined(r, p1, q, stop, gap, x, after, c);
    MemberJoined(r, b, p, p1, stop, before, Quoted(key), colon, element, c);
    if last {
      members, d := TableCons(m, x, element, first, [], [], k, v, acc, out, env, lf);
    } else {
      var tail, rest := MemberListOf(r, end, acc[k := v], out, at, env, lf);
      members, d := TableCons(m, x, element, first, tail, rest, k, v, acc, out, env, lf);
      MoreJoined(r, b, end, at, first, rest);
    }
  }

  lemma MemberJoined(r: Bytes, b: nat, p: nat, p1: nat, end: nat, before: Bytes, text: Bytes, colon: Bytes, element: Bytes, c: byte)
    requires b <= p <= p1 <= end <= |r|
    requires r[b..p] == before + text && r[p..p1] == colon + [COLON] && r[p1..end] == element + [c]
    ensures r[b..end] == before + text + colon + [COLON] + element + [c]
  {
    Spliced(r, b, p, end);
    Spliced(r, p, p1, end);
  }

  // ------------------------------------------------------------- the language

  // Section 2: JSON-text = ws value ws, of UTF-8; with a value of its own that is an
  // array or an object, unless any will do.
  ghost predicate Derives(text: Bytes, e: Element, v: Json, env: Env, lf: LoadFlags) {
    && GoodElement(e) && text == ElementText(e) && Meaning(e.value, env, lf) == Some(v)
    && (lf.decodeAny || e.value.List? || e.value.Table?)
  }

  lemma DerivedLoads(text: Bytes, e: Element, v: Json, env: Env, lf: LoadFlags)
    requires Valid(text) && !env.bad && Derives(text, e, v, env, lf)
    ensures Load(text, lf, env.strtod) == Some(v)
  {
    var d := ValueText(text, e, v, env, lf);
    var p, at := |e.before|, |e.before| + |d|;
    Around(text, e.before, d, e.after);
    TreeReads(text, p, e.value, d, v, at, env, lf);
    GapSkipped(text, 0, e.before, p, env);
    R.ReadMoved(text, 0, p, v, at, env, lf);
    GapToEof(text, at, e.after, env);
    assert Opened(R.READ, 0);
    ReadsThenEndIsLoaded(text, v, at, env, lf);
  }

  lemma ValueText(text: Bytes, e: Element, v: Json, env: Env, lf: LoadFlags) returns (d: Bytes)
    requires Derives(text, e, v, env, lf)
    ensures TreeIs(e.value, d) && TreeMeans(e.value, v, env, lf) && text == e.before + d + e.after && Gap(e.before) && Gap(e.after)
    ensures v.Array? || v.Object? || lf.decodeAny
  {
    d := TreeText(e.value);
  }

  lemma Around(text: Bytes, before: Bytes, d: Bytes, after: Bytes)
    requires text == before + d + after && Gap(after)
    ensures var p, at := |before|, |before| + |d|;
            && R.At(text, 0, before) && R.At(text, p, d) && R.At(text, at, after) && at + |after| == |text| && R.EndsAt(text, at)
  {
    R.AtItself(text);
    R.AtConcat(text, 0, before + d, after);
    R.AtConcat(text, 0, before, d);
    if after != [] { R.AtIndex(text, |before| + |d|, after, 0); }
  }

  lemma GapToEof(text: Bytes, at: nat, after: Bytes, env: Env)
    requires Gap(after) && R.At(text, at, after) && at + |after| == |text| && !env.bad
    ensures Scan(text, at, env).0 == Eof
  {
    R.BlanksSkipped(text, at, after, env);
    AtEndIsEof(text, env);
  }

  lemma OnlyGapToEof(text: Bytes, at: nat, env: Env)
    requires at <= |text| && Scan(text, at, env).0 == Eof
    ensures Gap(text[at..]) && !env.bad
  {
    BlanksBefore(text, at);
    assert BlankEnd(text, at) == |text|;
    assert text[at..|text|] == text[at..];
  }

  lemma LoadedDerives(text: Bytes, v: Json, lf: LoadFlags, strtod: Bytes -> Option<Double>) returns (e: Element)
    requires !lf.disableEofCheck && Load(text, lf, strtod) == Some(v)
    ensures Valid(text) && Derives(text, e, v, Env(false, strtod), lf)
  {
    var r, env := Sound(text), Env(!Valid(text), strtod);
    var at := Value(r, Scan(r, 0, env).0, Scan(r, 0, env).1, env, lf).at;
    OnlyGapToEof(r, at, env);
    ValidIsSound(text);
    var gap, tree, d := TreeOf(r, 0, v, at, env, lf);
    assert Opened(TREE, 0);
    e := Element(gap, tree, text[at..]);
    assert text == text[0..at] + text[at..];
    if !lf.decodeAny { ContainerTree(text, tree, v, env, lf); }
  }

  // What starts with a bracket is a list or a table.
  lemma ContainerTree(r: Bytes, tree: Tree, v: Json, env: Env, lf: LoadFlags)
    requires GoodTree(tree) && Meaning(tree, env, lf) == Some(v)
    requires var (t, p) := Scan(r, 0, env); (t == LBRACKET || t == LBRACE) && Value(r, t, p, env, lf).Parsed? && Value(r, t, p, env, lf).value == v
    ensures tree.List? || tree.Table?
  {
    var (t, p) := Scan(r, 0, env);
    if t == LBRACKET {
      var s := ListShape(r, p, v, Value(r, t, p, env, lf).at, env, lf);
    } else {
      var s := TableShape(r, p, v, Value(r, t, p, env, lf).at, env, lf);
    }
  }

  // json_loads takes exactly the texts of the grammar that mean something, and what it
  // makes of one is what it means.
  lemma LoadIff(text: Bytes, v: Json, lf: LoadFlags, strtod: Bytes -> Option<Double>)
    requires !lf.disableEofCheck
    ensures Load(text, lf, strtod) == Some(v) <==> Valid(text) && exists e :: Derives(text, e, v, Env(false, strtod), lf)
  {
    if Load(text, lf, strtod) == Some(v) {
      var e := LoadedDerives(text, v, lf, strtod);
    }
    if Valid(text) && exists e :: Derives(text, e, v, Env(false, strtod), lf) {
      var e :| Derives(text, e, v, Env(false, strtod), lf);
      DerivedLoads(text, e, v, Env(false, strtod), lf);
    }
  }

  // So no text means two things, however it is derived.
  lemma OneMeaning(text: Bytes, e: Element, v: Json, f: Element, w: Json, lf: LoadFlags, strtod: Bytes -> Option<Double>)
    requires Valid(text) && Derives(text, e, v, Env(false, strtod), lf) && Derives(text, f, w, Env(false, strtod), lf)
    ensures v == w
  {
    DerivedLoads(text, e, v, Env(false, strtod), lf);
    DerivedLoads(text, f, w, Env(false, strtod), lf);
  }

  // Without the check for the end of the text: what starts it, up to a bracket.
  ghost predicate Starts(text: Bytes, e: Element, v: Json, strtod: Bytes -> Option<Double>, lf: LoadFlags) {
    && GoodElement(e) && e.after == [] && ElementText(e) <= text && Valid(ElementText(e))
    && (e.value.List? || e.value.Table?) && Meaning(e.value, Env(!Valid(text), strtod), lf) == Some(v)
  }

  lemma {:induction false} GoodReaches(a: Bytes, b: Bytes)
    requires Valid(a)
    ensures GoodLen(a + b) >= |a|
    decreases |a|
  {
    if a != [] {
      var n := CharLen(a);
      AcceptedIsEncoded(a);
      EncodedIsAccepted(CharValue(a), a[n..] + b);
      assert a + b == a[..n] + (a[n..] + b);
      assert (a + b)[n..] == a[n..] + b;
      GoodReaches(a[n..], b);
    }
  }

  lemma StartLoads(text: Bytes, e: Element, v: Json, lf: LoadFlags, strtod: Bytes -> Option<Double>)
    requires lf.disableEofCheck && Starts(text, e, v, strtod, lf)
    ensures Load(text, lf, strtod) == Some(v)
  {
    var r, env, x := Sound(text), Env(!Valid(text), strtod), ElementText(e);
    GoodReaches(x, text[|x|..]);
    assert text == x + text[|x|..];
    assert R.At(r, 0, x);
    StartReads(r, e, v, |x|, env, lf);
    ContainerToken(r, v, |x|, env, lf);
  }

  lemma StartReads(r: Bytes, e: Element, v: Json, at: nat, env: Env, lf: LoadFlags)
    requires GoodElement(e) && e.after == [] && (e.value.List? || e.value.Table?) && Meaning(e.value, env, lf) == Some(v)
    requires R.At(r, 0, ElementText(e)) && at == |ElementText(e)|
    ensures R.ReadsAsNow(r, 0, v, at, env, lf) && (v.Array? || v.Object?)
  {
    var p, d := |e.before|, TreeText(e.value);
    assert ElementText(e) == e.before + d;
    R.AtConcat(r, 0, e.before, d);
    TreeReads(r, p, e.value, d, v, at, env, lf);
    GapSkipped(r, 0, e.before, p, env);
    R.ReadMoved(r, 0, p, v, at, env, lf);
    assert Opened(R.READ, 0);
  }

  lemma ContainerToken(r: Bytes, v: Json, at: nat, env: Env, lf: LoadFlags)
    requires R.ReadsAsNow(r, 0, v, at, env, lf) && (v.Array? || v.Object?)
    ensures Scan(r, 0, env).0 == LBRACKET || Scan(r, 0, env).0 == LBRACE
  {
    ContainerOpens(r, Scan(r, 0, env).0, Scan(r, 0, env).1, env, lf);
  }

  lemma {:induction false} ListEnds(items: seq<Element>)
    requires items != []
    ensures ItemsText(items) != [] && ItemsText(items)[|ItemsText(items)| - 1] == 0x5D
  {
    if |items| > 1 { ListEnds(items[1..]); }
  }

  lemma {:induction false} TableEnds(members: seq<Member>)
    requires members != []
    ensures MembersText(members) != [] && MembersText(members)[|MembersText(members)| - 1] == 0x7D
  {
    if |members| > 1 { TableEnds(members[1..]); }
  }

  lemma BracketLast(tree: Tree)
    requires tree.List? || tree.Table?
    ensures TreeText(tree) != [] && TreeText(tree)[|TreeText(tree)| - 1] < 0x80
  {
    match tree
    case List(gap, items) => if items != [] { ListEnds(items); }
    case Table(gap, members) => if members != [] { TableEnds(members); }
  }

  lemma LoadedStarts(text: Bytes, v: Json, lf: LoadFlags, strtod: Bytes -> Option<Double>) returns (e: Element)
    requires !lf.decodeAny && Load(text, lf, strtod) == Some(v)
    ensures Starts(text, e, v, strtod, lf)
  {
    var r, env := Sound(text), Env(!Valid(text), strtod);
    var at := Value(r, Scan(r, 0, env).0, Scan(r, 0, env).1, env, lf).at;
    var gap, tree, d := ContainerOf(r, v, at, env, lf);
    SoundIsValid(text);
    CutValid(r, at);
    e := Element(gap, tree, []);
    assert ElementText(e) == gap + d == r[..at] == text[..at];
  }

  lemma ContainerOf(r: Bytes, v: Json, at: nat, env: Env, lf: LoadFlags) returns (gap: Bytes, tree: Tree, d: Bytes)
    requires R.ReadsAsNow(r, 0, v, at, env, lf) && (Scan(r, 0, env).0 == LBRACKET || Scan(r, 0, env).0 == LBRACE)
    ensures 0 < at <= |r| && Gap(gap) && GoodTree(tree) && (tree.List? || tree.Table?) && Meaning(tree, env, lf) == Some(v)
    ensures d == TreeText(tree) && r[..at] == gap + d && r[at - 1] < 0x80
  {
    gap, tree, d := TreeOf(r, 0, v, at, env, lf);
    assert Opened(TREE, 0);
    ContainerTree(r, tree, v, env, lf);
    BracketLast(tree);
    LastOf(r, at, gap, d);
  }

  lemma LastOf(r: Bytes, at: nat, gap: Bytes, d: Bytes)
    requires at <= |r| && r[0..at] == gap + d && d != []
    ensures 0 < at && r[at - 1] == d[|d| - 1] && r[..at] == gap + d
  {
    assert r[0..at][at - 1] == r[at - 1];
  }

  lemma CutValid(r: Bytes, at: nat)
    requires Valid(r) && 0 < at <= |r| && r[at - 1] < 0x80
    ensures Valid(r[..at])
  {
    ValidSplit(r, at - 1);
    OneIsValid(r[at - 1]);
    WithLast(r[..at - 1], r[at - 1], r[..at]);
  }

  lemma WithLast(a: Bytes, b: byte, s: Bytes)
    requires Valid(a) && Valid([b]) && s == a + [b]
    ensures Valid(s)
  {
    ValidConcat(a, [b]);
  }

  lemma LoadPrefixIff(text: Bytes, v: Json, lf: LoadFlags, strtod: Bytes -> Option<Double>)
    requires lf.disableEofCheck && !lf.decodeAny
    ensures Load(text, lf, strtod) == Some(v) <==> exists e :: Starts(text, e, v, strtod, lf)
  {
    if Load(text, lf, strtod) == Some(v) {
      var e := LoadedStarts(text, v, lf, strtod);
    }
    if exists e :: Starts(text, e, v, strtod, lf) {
      var e :| Starts(text, e, v, strtod, lf);
      StartLoads(text, e, v, lf, strtod);
    }
  }
}
