// The text json_dumps writes is the text of one tree of RFC 8259's grammar, laid out as
// the flags ask for: what stands in every gap, and what every leaf is.

module JsonLayout {
  import opened Closed
  import opened Octets
  import opened Wrappers
  import opened Utf8
  import opened JsonReal
  import opened JsonValue
  import opened JsonDump
  import opened JsonSyntax
  import opened JsonSpelling
  import C = JsonCanonical
  import G = JsonGrammar
  import R = JsonRoundTrip
  import T = JsonTheorems

  // ------------------------------------------------------------- the layout

  // A newline, and `n` spaces.
  predicate Line(b: Bytes, n: nat) {
    |b| == n + 1 && b[0] == 0x0A && forall i :: 0 < i <= n ==> b[i] == 0x20
  }

  // In front of an item or a member `depth` brackets deep: with an indent a line of its
  // own, else a space behind the comma, or nothing where the text is to be compact.
  predicate Ahead(b: Bytes, first: bool, flags: Flags, depth: nat) {
    if flags.indent > 0 then Line(b, flags.indent * depth)
    else b == if first || flags.compact then [] else [0x20]
  }

  // Behind it: with an indent the bracket has a line of its own.
  predicate Astern(b: Bytes, last: bool, flags: Flags, depth: nat) {
    if last && flags.indent > 0 then Line(b, flags.indent * depth) else b == []
  }

  predicate Laid(t: Tree, flags: Flags, depth: nat) {
    match t
    case List(gap, items) =>
      && gap == []
      && forall i :: 0 <= i < |items| ==> ElementLaid(items[i], i == 0, i == |items| - 1, flags, depth)
    case Table(gap, members) =>
      && gap == []
      && forall i :: 0 <= i < |members| ==> MemberLaid(members[i], i == 0, i == |members| - 1, flags, depth)
    case _ => true
  }

  predicate ElementLaid(e: Element, first: bool, last: bool, flags: Flags, depth: nat) {
    Ahead(e.before, first, flags, depth + 1) && Laid(e.value, flags, depth + 1) && Astern(e.after, last, flags, depth)
  }

  // Nothing in front of the colon, and a space behind it unless the text is compact.
  predicate MemberLaid(m: Member, first: bool, last: bool, flags: Flags, depth: nat) {
    && Ahead(m.before, first, flags, depth + 1) && m.after == [] && m.element.before == (if flags.compact then [] else [0x20])
    && Laid(m.element.value, flags, depth + 1) && Astern(m.element.after, last, flags, depth)
  }

  // ---------------------------------------------------- what the leaves are

  predicate TellsInteger(x: Num, i: int) {
    WholeNumber(x) == i && (x.negative <==> i < 0) && x.fraction == [] && x.exp.None?
  }

  predicate NoZeroAhead(d: Bytes) {
    d != [] && d[0] != 0x30
  }

  // The digits printf gives, ".0" where it gives neither a point nor an exponent, and an
  // exponent with no '+' and no zero in front.
  ghost predicate TellsReal(n: Num, x: Double) {
    && n.negative == x.negative && n.whole == x.whole
    && n.fraction == (if x.fraction == [] && x.exponent == [] then [0x30] else x.fraction)
    && (n.exp.Some? <==> x.exponent != [])
    && (n.exp.Some? ==>
          && n.exp.value.mark == 0x65 && n.exp.value.sign == (if x.small then [0x2D] else [])
          && NoZeroAhead(n.exp.value.digits) && DecimalOf(n.exp.value.digits) == DecimalOf(x.exponent))
  }

  // The order of two keys by their bytes: at the first that differ, or one ends there.
  predicate Smaller(a: Bytes, b: Bytes) {
    exists k :: 0 <= k <= |a| && k < |b| && a[..k] == b[..k] && (k == |a| || a[k] < b[k])
  }

  // Which pair of an object is written where.
  predicate Arranged(perm: seq<nat>, pairs: seq<Pair>, flags: Flags) {
    && |perm| == |pairs|
    && (forall i :: 0 <= i < |perm| ==> perm[i] < |pairs|)
    && (forall i, j :: 0 <= i < j < |perm| ==> perm[i] != perm[j])
    && (forall i, j :: 0 <= i < j < |perm| ==>
          if flags.sortKeys then Smaller(pairs[perm[i]].key, pairs[perm[j]].key)
          else if flags.preserveOrder then pairs[perm[i]].serial <= pairs[perm[j]].serial
          else perm[i] < perm[j])
  }

  ghost predicate Tells(t: Tree, n: Node, flags: Flags)
    decreases n
  {
    match n
    case NNull => t == Literal(NULL)
    case NTrue => t == Literal(TRUE)
    case NFalse => t == Literal(FALSE)
    case NInteger(i) => t.Numeral? && TellsInteger(t.num, i)
    case NReal(x) => t.Numeral? && TellsReal(t.num, x)
    case NString(s) => t.Text? && SpelledAs(t.chars, s, flags)
    case NArray(items) =>
      t.List? && |t.items| == |items| && forall i :: 0 <= i < |items| ==> Tells(t.items[i].value, items[i], flags)
    case NObject(pairs) =>
      && t.Table? && |t.members| == |pairs|
      && exists perm: seq<nat> :: Arranged(perm, pairs, flags) &&
           forall i :: 0 <= i < |perm| ==> SpelledAs(t.members[i].key, pairs[perm[i]].key, flags)
                                           && Tells(t.members[i].element.value, pairs[perm[i]].value, flags)
  }

  // ---------------------------------------------------------------- numbers

  lemma IntegerTold(i: int) returns (x: Num)
    ensures GoodNum(x) && NumText(x) == IntegerText(i) && TellsInteger(x, i)
  {
    var k := if i < 0 then -i else i;
    var d := DigitsTold(k);
    x := Num(i < 0, d, [], None);
    JustWhole(x);
  }

  // Zero is one digit.
  lemma DigitsTold(k: nat) returns (d: Bytes)
    ensures d == JsonDump.Digits(k) && d != [] && JsonSyntax.Digits(d) && (d[0] == 0x30 ==> |d| == 1) && DecimalOf(d) == k
  {
    d := JsonDump.Digits(k);
    R.DigitsRoundTrip(k);
    G.DecimalAgrees(d);
  }

  lemma JustWhole(x: Num)
    requires x.fraction == [] && x.exp.None?
    ensures NumText(x) == (if x.negative then [0x2D] else []) + x.whole
  {
    assert WholeText(x) + ([] + []) == WholeText(x);
  }

  lemma {:induction false} ZeroAhead(d: Bytes)
    ensures DecimalOf([0x30] + d) == DecimalOf(d)
  {
    var z := [0x30] + d;
    if d == [] {
      assert z[..0] == [];
    } else {
      ZeroAhead(d[..|d| - 1]);
      assert z[..|z| - 1] == [0x30] + d[..|d| - 1];
    }
  }

  lemma {:induction false} StrippedTells(d: Bytes)
    ensures DecimalOf(Stripped(d)) == DecimalOf(d) && (Stripped(d) != [] ==> Stripped(d)[0] != 0x30)
  {
    if d != [] && d[0] == ZERO {
      StrippedTells(d[1..]);
      ZeroAhead(d[1..]);
      assert d == [0x30] + d[1..];
    }
  }

  lemma RealTold(x: Double) returns (n: Num)
    ensures GoodNum(n) && NumText(n) == RealText(x) && TellsReal(n, x)
  {
    var text, whole, point, tail := R.RealParts(x);
    var e := Exp(0x65, if x.small then [0x2D] else [], Stripped(x.exponent));
    n := Num(x.negative, x.whole, R.PointPart(x), if x.exponent != [] then Some(e) else None);
    if x.exponent != [] {
      R.StrippedDigits(x.exponent);
      StrippedTells(x.exponent);
    }
    assert WholeText(n) == whole && FracText(n) == point && ExpText(n) == tail;
  }

  // --------------------------------------------------------------- the gaps

  lemma {:induction false} BlanksLine(depth: nat, width: nat)
    ensures |Blanks(depth, width)| == width * depth && forall i :: 0 <= i < width * depth ==> Blanks(depth, width)[i] == 0x20
  {
    if depth > 0 {
      BlanksLine(depth - 1, width);
      assert width * depth == width + width * (depth - 1);
    }
  }

  const GAPS: nat := 28

  // Such gaps, closed as Closed.dfy says.
  ghost predicate Opens(gap: Bytes, first: bool, flags: Flags, depth: nat) {
    forall u: int {:trigger Opened(GAPS, u)} :: Opened(GAPS, u) ==>
      gap == Indent(flags, depth, !first) && Ahead(gap, first, flags, depth) && Gap(gap)
  }

  ghost predicate Closes(gap: Bytes, last: bool, flags: Flags, depth: nat) {
    forall u: int {:trigger Opened(GAPS, u)} :: Opened(GAPS, u) ==>
      gap == (if last then Indent(flags, depth, false) else []) && Astern(gap, last, flags, depth) && Gap(gap)
  }

  lemma OpensWith(first: bool, flags: Flags, depth: nat) returns (gap: Bytes)
    ensures Opens(gap, first, flags, depth)
  {
    gap := Indent(flags, depth, !first);
    BlanksLine(depth, flags.indent);
  }

  lemma ClosesWith(last: bool, flags: Flags, depth: nat) returns (gap: Bytes)
    ensures Closes(gap, last, flags, depth)
  {
    gap := if last then Indent(flags, depth, false) else [];
    BlanksLine(depth, flags.indent);
  }

  lemma NoGap(flags: Flags, depth: nat) returns (gap: Bytes)
    ensures gap == [] && Closes(gap, false, flags, depth)
  {
    gap := ClosesWith(false, flags, depth);
    assert Opened(GAPS, 0);
  }

  // ----------------------------------------- trees, closed as Closed.dfy says

  const DRAWN: nat := 25
  const ITEMS: nat := 26
  const MEMBERS: nat := 27

  // `t` is a tree of `d`, the text of `n`, and is laid out and tells as it should.
  ghost predicate Drawn(t: Tree, d: Bytes, n: Node, flags: Flags, depth: nat) {
    forall u: int {:trigger Opened(DRAWN, u)} :: Opened(DRAWN, u) ==>
      Dump(n, flags, depth) == Some(d) && TreeText(t) == d && GoodTree(t) && Laid(t, flags, depth) && Tells(t, n, flags)
  }

  ghost predicate ItemDrawn(e: Element, n: Node, first: bool, last: bool, flags: Flags, depth: nat) {
    ElementLaid(e, first, last, flags, depth) && Tells(e.value, n, flags)
  }

  // The items of `n` from `i` on, and what is behind `gap` in their text.
  ghost predicate ItemsDrawn(items: seq<Element>, gap: Bytes, d: Bytes, n: Node, i: nat, flags: Flags, depth: nat) {
    forall u: int {:trigger Opened(ITEMS, u)} :: Opened(ITEMS, u) ==>
      && n.NArray? && items != [] && i + |items| == |n.items| && GoodItems(items)
      && DumpItems(n, i, flags, depth) == Some(d) && ItemsText(items) == gap + d + [0x5D]
      && forall j :: 0 <= j < |items| ==> ItemDrawn(items[j], n.items[i + j], i + j == 0, i + j == |n.items| - 1, flags, depth)
  }

  // The pieces of it.
  lemma Draw(t: Tree, d: Bytes, n: Node, flags: Flags, depth: nat)
    requires Dump(n, flags, depth) == Some(d) && TreeText(t) == d && GoodTree(t) && Laid(t, flags, depth) && Tells(t, n, flags)
    ensures Drawn(t, d, n, flags, depth)
  {
  }

  lemma LeafDrawn(n: Node, flags: Flags, depth: nat) returns (t: Tree, d: Bytes)
    requires R.Sound(n) && !n.NArray? && !n.NObject?
    ensures Drawn(t, d, n, flags, depth)
  {
    match n {
      case NNull => t := Literal(NULL);
      case NTrue => t := Literal(TRUE);
      case NFalse => t := Literal(FALSE);
      case NInteger(i) =>
        var x := IntegerTold(i);
        t := Numeral(x);
      case NReal(r) =>
        var x := RealTold(r);
        t := Numeral(x);
      case NString(s) =>
        var cs := StringSpelled(s, flags);
        t := Text(cs);
    }
    d := TreeText(t);
  }

  // ------------------------------------------------------------------ arrays

  // An item between its gaps, with its text.
  ghost predicate ItemIs(e: Element, x: Bytes, gap: Bytes, after: Bytes, n: Node, first: bool, last: bool, flags: Flags, depth: nat) {
    forall u: int {:trigger Opened(ITEM, u)} :: Opened(ITEM, u) ==>
      && ItemDrawn(e, n, first, last, flags, depth) && GoodElement(e) && ElementText(e) == gap + x + after
      && Dump(n, flags, depth + 1) == Some(x)
  }

  const ITEM: nat := 29

  lemma ItemElement(t: Tree, x: Bytes, n: Node, gap: Bytes, after: Bytes, first: bool, last: bool, flags: Flags, depth: nat) returns (e: Element)
    requires Drawn(t, x, n, flags, depth + 1) && Opens(gap, first, flags, depth + 1) && Closes(after, last, flags, depth)
    ensures ItemIs(e, x, gap, after, n, first, last, flags, depth)
  {
    e := Element(gap, t, after);
    ItemLaid(t, x, n, e, first, last, flags, depth);
    ItemWritten(t, x, n, e, first, last, flags, depth);
  }

  lemma ItemLaid(t: Tree, x: Bytes, n: Node, e: Element, first: bool, last: bool, flags: Flags, depth: nat)
    requires Drawn(t, x, n, flags, depth + 1) && e.value == t
    requires Opens(e.before, first, flags, depth + 1) && Closes(e.after, last, flags, depth)
    ensures ItemDrawn(e, n, first, last, flags, depth)
  {
    assert Opened(DRAWN, 0) && Opened(GAPS, 0);
  }

  lemma ItemWritten(t: Tree, x: Bytes, n: Node, e: Element, first: bool, last: bool, flags: Flags, depth: nat)
    requires Drawn(t, x, n, flags, depth + 1) && e.value == t
    requires Opens(e.before, first, flags, depth + 1) && Closes(e.after, last, flags, depth)
    ensures GoodElement(e) && ElementText(e) == e.before + x + e.after && Dump(n, flags, depth + 1) == Some(x)
  {
    assert Opened(DRAWN, 0) && Opened(GAPS, 0);
  }

  lemma LastItem(e: Element, x: Bytes, gap: Bytes, after: Bytes, n: Node, i: nat, flags: Flags, depth: nat) returns (items: seq<Element>, d: Bytes)
    requires n.NArray? && i + 1 == |n.items| && ItemIs(e, x, gap, after, n.items[i], i == 0, true, flags, depth)
    requires Closes(after, true, flags, depth)
    ensures ItemsDrawn(items, gap, d, n, i, flags, depth)
  {
    assert Opened(GAPS, 0) && Opened(ITEM, 0);
    items, d := [e], x + after;
    assert items[1..] == [] && GoodItems(items[1..]);
    EndText(gap, x, after, 0x5D);
  }

  lemma MoreItems(e: Element, x: Bytes, gap: Bytes, sep: Bytes, tail: seq<Element>, rest: Bytes, n: Node, i: nat, flags: Flags, depth: nat)
    returns (items: seq<Element>, d: Bytes)
    requires n.NArray? && i + 1 < |n.items| && ItemIs(e, x, gap, [], n.items[i], i == 0, false, flags, depth)
    requires Opens(sep, false, flags, depth + 1) && ItemsDrawn(tail, sep, rest, n, i + 1, flags, depth)
    ensures ItemsDrawn(items, gap, d, n, i, flags, depth)
  {
    assert Opened(ITEMS, 0) && Opened(GAPS, 0) && Opened(ITEM, 0);
    items, d := [e] + tail, x + [COMMA] + sep + rest;
    assert items[1..] == tail;
    CommaText(gap, x, sep, rest, 0x5D);
    forall j | 0 <= j < |items|
      ensures ItemDrawn(items[j], n.items[i + j], i + j == 0, i + j == |n.items| - 1, flags, depth)
    {
      if j > 0 { assert ItemDrawn(tail[j - 1], n.items[i + 1 + (j - 1)], false, i + 1 + (j - 1) == |n.items| - 1, flags, depth); }
    }
  }

  lemma EndText(gap: Bytes, x: Bytes, after: Bytes, c: byte)
    ensures gap + x + after + [c] == gap + (x + after) + [c]
  {
  }

  lemma CommaText(gap: Bytes, x: Bytes, sep: Bytes, rest: Bytes, c: byte)
    ensures gap + x + [] + ([0x2C] + (sep + rest + [c])) == gap + (x + [COMMA] + sep + rest) + [c]
  {
  }

  lemma {:induction false} ItemsTree(n: Node, i: nat, gap: Bytes, flags: Flags, depth: nat) returns (items: seq<Element>, d: Bytes)
    requires R.Sound(n) && n.NArray? && i < |n.items| && Opens(gap, i == 0, flags, depth + 1)
    ensures ItemsDrawn(items, gap, d, n, i, flags, depth)
    decreases n, 0, |n.items| - i
  {
    var t, x := TreeDrawn(n.items[i], flags, depth + 1);
    if i + 1 == |n.items| {
      var after := ClosesWith(true, flags, depth);
      var e := ItemElement(t, x, n.items[i], gap, after, i == 0, true, flags, depth);
      items, d := LastItem(e, x, gap, after, n, i, flags, depth);
    } else {
      var after := NoGap(flags, depth);
      var e := ItemElement(t, x, n.items[i], gap, after, i == 0, false, flags, depth);
      var sep := OpensWith(false, flags, depth + 1);
      var tail, rest := ItemsTree(n, i + 1, sep, flags, depth);
      items, d := MoreItems(e, x, gap, sep, tail, rest, n, i, flags, depth);
    }
  }

  lemma ListDrawn(n: Node, items: seq<Element>, gap: Bytes, body: Bytes, flags: Flags, depth: nat) returns (t: Tree, d: Bytes)
    requires n.NArray? && Opens(gap, true, flags, depth + 1)
    requires if n.items == [] then items == [] else ItemsDrawn(items, gap, body, n, 0, flags, depth)
    ensures Drawn(t, d, n, flags, depth)
  {
    t := List([], items);
    d := TreeText(t);
    if n.items != [] {
      assert Opened(ITEMS, 0) && Opened(GAPS, 0);
      assert forall i :: 0 <= i < |items| ==> ItemDrawn(items[i], n.items[i], i == 0, i == |items| - 1, flags, depth) by {
        forall i | 0 <= i < |items| ensures ItemDrawn(items[i], n.items[i], i == 0, i == |items| - 1, flags, depth) {
          assert ItemDrawn(items[i], n.items[0 + i], 0 + i == 0, 0 + i == |n.items| - 1, flags, depth);
        }
      }
      assert [0x5B] + (gap + body + [0x5D]) == Bracketed(0x5B, gap + body, 0x5D);
    } else {
      assert [0x5B] + ([] + [0x5D]) == Bracketed(0x5B, [], 0x5D);
    }
  }

  lemma {:induction false} TreeDrawn(n: Node, flags: Flags, depth: nat) returns (t: Tree, d: Bytes)
    requires R.Sound(n)
    ensures Drawn(t, d, n, flags, depth)
    decreases n, 1, 0
  {
    if n.NArray? {
      var gap := OpensWith(true, flags, depth + 1);
      var items, body := [], [];
      if n.items != [] { items, body := ItemsTree(n, 0, gap, flags, depth); }
      t, d := ListDrawn(n, items, gap, body, flags, depth);
    } else if n.NObject? {
      t, d := TableTree(n, flags, depth);
    } else {
      t, d := LeafDrawn(n, flags, depth);
    }
  }

  // ----------------------------------------------------------------- objects

  ghost predicate MemberDrawn(m: Member, key: Bytes, n: Node, first: bool, last: bool, flags: Flags, depth: nat) {
    MemberLaid(m, first, last, flags, depth) && SpelledAs(m.key, key, flags) && Tells(m.element.value, n, flags)
  }

  // The member of the `j`th key.
  ghost predicate MemberAt(members: seq<Member>, j: nat, n: Node, order: seq<ObjectKey>, first: bool, flags: Flags, depth: nat)
    requires n.NObject? && j < |members| == |order|
  {
    && HasKey(n.pairs, order[j].key)
    && MemberDrawn(members[j], order[j].key, Lookup(n.pairs, order[j].key), first && j == 0, j == |order| - 1, flags, depth)
  }

  // The members of `n` in that order, and what is behind `gap` in their text.
  ghost predicate MembersDrawn(members: seq<Member>, gap: Bytes, d: Bytes, n: Node, order: seq<ObjectKey>, first: bool, flags: Flags, depth: nat) {
    forall u: int {:trigger Opened(MEMBERS, u)} :: Opened(MEMBERS, u) ==>
      && n.NObject? && order != [] && |members| == |order| && (forall i :: 0 <= i < |order| ==> HasKey(n.pairs, order[i].key))
      && GoodMembers(members) && DumpMembers(n, order, flags, depth) == Some(d) && MembersText(members) == gap + d + [0x7D]
      && forall j :: 0 <= j < |members| ==> MemberAt(members, j, n, order, first, flags, depth)
  }

  lemma ColonIs(flags: Flags) returns (gap: Bytes)
    ensures gap == (if flags.compact then [] else [0x20]) && Gap(gap) && Separator(flags) == [0x3A] + gap
  {
    gap := if flags.compact then [] else [0x20];
  }

  // A member between its gaps, with its text.
  ghost predicate MemberIs(m: Member, x: Bytes, key: Bytes, gap: Bytes, after: Bytes, n: Node, first: bool, last: bool, flags: Flags, depth: nat) {
    forall u: int {:trigger Opened(MEMBER, u)} :: Opened(MEMBER, u) ==>
      && MemberDrawn(m, key, n, first, last, flags, depth) && GoodMember(m) && Dump(n, flags, depth + 1) == Some(x)
      && MemberText(m) == gap + (StringText(key, flags) + Separator(flags) + x) + after
  }

  const MEMBER: nat := 30

  lemma OneMember(key: Bytes, t: Tree, x: Bytes, n: Node, gap: Bytes, after: Bytes, first: bool, last: bool, flags: Flags, depth: nat)
    returns (m: Member)
    requires Drawn(t, x, n, flags, depth + 1) && Valid(key) && NulFree(key)
    requires Opens(gap, first, flags, depth + 1) && Closes(after, last, flags, depth)
    ensures MemberIs(m, x, key, gap, after, n, first, last, flags, depth)
  {
    assert Opened(DRAWN, 0) && Opened(GAPS, 0);
    var cs := StringSpelled(key, flags);
    var colon := ColonIs(flags);
    m := Member(gap, cs, [], Element(colon, t, after));
    assert GoodElement(m.element) && GoodChars(m.key);
    MemberWritten(m, x);
  }

  lemma MemberWritten(m: Member, x: Bytes)
    requires m.after == [] && TreeText(m.element.value) == x
    ensures MemberText(m) == m.before + (Quoted(m.key) + ([0x3A] + m.element.before) + x) + m.element.after
  {
    ColonText(m.before, Quoted(m.key), m.element.before, x, m.element.after);
  }

  lemma ColonText(gap: Bytes, key: Bytes, colon: Bytes, x: Bytes, after: Bytes)
    ensures gap + key + [] + [0x3A] + (colon + x + after) == gap + (key + ([0x3A] + colon) + x) + after
  {
  }

  lemma LastMember(m: Member, x: Bytes, gap: Bytes, after: Bytes, n: Node, order: seq<ObjectKey>, first: bool, flags: Flags, depth: nat)
    returns (members: seq<Member>, d: Bytes)
    requires n.NObject? && |order| == 1 && HasKey(n.pairs, order[0].key) && Closes(after, true, flags, depth)
    requires MemberIs(m, x, order[0].key, gap, after, Lookup(n.pairs, order[0].key), first, true, flags, depth)
    ensures MembersDrawn(members, gap, d, n, order, first, flags, depth)
  {
    var text := StringText(order[0].key, flags) + Separator(flags) + x;
    members, d := [m], text + after;
    LastWritten(m, x, text, gap, after, members, n, order, first, flags, depth);
    LastDrawn(m, x, gap, after, members, n, order, first, flags, depth);
  }

  lemma LastDrawn(m: Member, x: Bytes, gap: Bytes, after: Bytes, members: seq<Member>, n: Node, order: seq<ObjectKey>,
                  first: bool, flags: Flags, depth: nat)
    requires n.NObject? && |members| == |order| == 1 && members[0] == m && HasKey(n.pairs, order[0].key)
    requires MemberIs(m, x, order[0].key, gap, after, Lookup(n.pairs, order[0].key), first, true, flags, depth)
    ensures forall j :: 0 <= j < |members| ==> MemberAt(members, j, n, order, first, flags, depth)
  {
    assert Opened(MEMBER, 0);
  }

  lemma LastWritten(m: Member, x: Bytes, text: Bytes, gap: Bytes, after: Bytes, members: seq<Member>, n: Node, order: seq<ObjectKey>,
                    first: bool, flags: Flags, depth: nat)
    requires n.NObject? && |order| == 1 && HasKey(n.pairs, order[0].key) && Closes(after, true, flags, depth) && members == [m]
    requires MemberIs(m, x, order[0].key, gap, after, Lookup(n.pairs, order[0].key), first, true, flags, depth)
    requires text == StringText(order[0].key, flags) + Separator(flags) + x
    ensures GoodMembers(members) && MembersText(members) == gap + (text + after) + [0x7D]
    ensures DumpMembers(n, order, flags, depth) == Some(text + after)
  {
    assert Opened(GAPS, 0) && Opened(MEMBER, 0);
    assert members[1..] == [] && GoodMembers(members[1..]);
    EndText(gap, text, after, 0x7D);
  }

  lemma MoreMembers(m: Member, x: Bytes, gap: Bytes, sep: Bytes, tail: seq<Member>, rest: Bytes, n: Node, order: seq<ObjectKey>, first: bool,
                    flags: Flags, depth: nat) returns (members: seq<Member>, d: Bytes)
    requires n.NObject? && |order| > 1 && HasKey(n.pairs, order[0].key) && Opens(sep, false, flags, depth + 1)
    requires MemberIs(m, x, order[0].key, gap, [], Lookup(n.pairs, order[0].key), first, false, flags, depth)
    requires MembersDrawn(tail, sep, rest, n, order[1..], false, flags, depth)
    ensures MembersDrawn(members, gap, d, n, order, first, flags, depth)
  {
    var text := StringText(order[0].key, flags) + Separator(flags) + x;
    members, d := [m] + tail, text + [COMMA] + sep + rest;
    assert members[1..] == tail;
    MoreWritten(m, x, text, gap, sep, members, rest, n, order, first, flags, depth);
    MoreDrawn(m, x, gap, sep, members, rest, n, order, first, flags, depth);
  }

  lemma OrderHasKeys(n: Node, order: seq<ObjectKey>)
    requires n.NObject? && order != [] && HasKey(n.pairs, order[0].key) && forall i :: 0 <= i < |order[1..]| ==> HasKey(n.pairs, order[1..][i].key)
    ensures forall i :: 0 <= i < |order| ==> HasKey(n.pairs, order[i].key)
  {
    forall i | 0 <= i < |order| ensures HasKey(n.pairs, order[i].key) {
      if i > 0 { assert order[1..][i - 1] == order[i]; }
    }
  }

  // The text of one member and those behind it.
  lemma MoreWritten(m: Member, x: Bytes, text: Bytes, gap: Bytes, sep: Bytes, members: seq<Member>, rest: Bytes, n: Node, order: seq<ObjectKey>,
                    first: bool, flags: Flags, depth: nat)
    requires n.NObject? && |order| > 1 && HasKey(n.pairs, order[0].key) && Opens(sep, false, flags, depth + 1) && members != [] && members[0] == m
    requires MemberIs(m, x, order[0].key, gap, [], Lookup(n.pairs, order[0].key), first, false, flags, depth)
    requires text == StringText(order[0].key, flags) + Separator(flags) + x
    requires MembersDrawn(members[1..], sep, rest, n, order[1..], false, flags, depth)
    ensures |members| == |order| && GoodMembers(members) && MembersText(members) == gap + (text + [COMMA] + sep + rest) + [0x7D]
    ensures forall i :: 0 <= i < |order| ==> HasKey(n.pairs, order[i].key)
    ensures DumpMembers(n, order, flags, depth) == Some(text + [COMMA] + sep + rest)
  {
    assert Opened(MEMBERS, 0) && Opened(GAPS, 0) && Opened(MEMBER, 0);
    OrderHasKeys(n, order);
    CommaText(gap, text, sep, rest, 0x7D);
  }

  lemma MoreDrawn(m: Member, x: Bytes, gap: Bytes, sep: Bytes, members: seq<Member>, rest: Bytes, n: Node, order: seq<ObjectKey>,
                  first: bool, flags: Flags, depth: nat)
    requires n.NObject? && |members| == |order| > 1 && members[0] == m && HasKey(n.pairs, order[0].key)
    requires MemberIs(m, x, order[0].key, gap, [], Lookup(n.pairs, order[0].key), first, false, flags, depth)
    requires MembersDrawn(members[1..], sep, rest, n, order[1..], false, flags, depth)
    ensures forall j :: 0 <= j < |members| ==> MemberAt(members, j, n, order, first, flags, depth)
  {
    assert Opened(MEMBERS, 0) && Opened(MEMBER, 0);
    forall j | 0 <= j < |members| ensures MemberAt(members, j, n, order, first, flags, depth) {
      if j > 0 {
        assert order[1..][j - 1] == order[j] && members[1..][j - 1] == members[j];
        assert MemberAt(members[1..], j - 1, n, order[1..], false, flags, depth);
      }
    }
  }

  lemma {:induction false} MembersTree(n: Node, order: seq<ObjectKey>, first: bool, gap: Bytes, flags: Flags, depth: nat)
    returns (members: seq<Member>, d: Bytes)
    requires R.Sound(n) && n.NObject? && order != [] && forall i :: 0 <= i < |order| ==> HasKey(n.pairs, order[i].key)
    requires Opens(gap, first, flags, depth + 1)
    ensures MembersDrawn(members, gap, d, n, order, first, flags, depth)
    decreases n, 0, |order|
  {
    var key := order[0].key;
    R.KeyIsSound(n, key);
    var value := Lookup(n.pairs, key);
    var t, x := TreeDrawn(value, flags, depth + 1);
    if |order| == 1 {
      var after := ClosesWith(true, flags, depth);
      var m := OneMember(key, t, x, value, gap, after, first, true, flags, depth);
      members, d := LastMember(m, x, gap, after, n, order, first, flags, depth);
    } else {
      var after := NoGap(flags, depth);
      var m := OneMember(key, t, x, value, gap, after, first, false, flags, depth);
      var sep := OpensWith(false, flags, depth + 1);
      var tail, rest := MembersTree(n, order[1..], false, sep, flags, depth);
      members, d := MoreMembers(m, x, gap, sep, tail, rest, n, order, first, flags, depth);
    }
  }

  // --------------------------------------------------------------- the order

  lemma {:induction false} KeyLessIff(a: Bytes, b: Bytes)
    ensures KeyLess(a, b) <==> Smaller(a, b)
  {
    if a != [] && b != [] && a[0] == b[0] {
      KeyLessIff(a[1..], b[1..]);
      SmallerBehind(a, b);
    } else {
      SmallerAtOnce(a, b);
    }
  }

  lemma SmallerAtOnce(a: Bytes, b: Bytes)
    requires a == [] || b == [] || a[0] != b[0]
    ensures Smaller(a, b) <==> b != [] && (a == [] || a[0] < b[0])
  {
    if b != [] && (a == [] || a[0] < b[0]) {
      var k := 0;
      assert a[..k] == b[..k];
    }
    if k :| 0 <= k <= |a| && k < |b| && a[..k] == b[..k] && (k == |a| || a[k] < b[k]) {
      SameStart(a, b, k);
    }
  }

  lemma SameStart(a: Bytes, b: Bytes, k: nat)
    requires k <= |a| && k <= |b| && a[..k] == b[..k]
    ensures k == 0 || a[0] == b[0]
  {
    if k > 0 { assert a[0] == a[..k][0] == b[..k][0]; }
  }

  lemma SmallerBehind(a: Bytes, b: Bytes)
    requires a != [] && b != [] && a[0] == b[0]
    ensures Smaller(a, b) <==> Smaller(a[1..], b[1..])
  {
    var a', b' := a[1..], b[1..];
    if k :| 0 <= k <= |a| && k < |b| && a[..k] == b[..k] && (k == |a| || a[k] < b[k]) {
      assert k > 0;
      assert a'[..k - 1] == a[..k][1..] && b'[..k - 1] == b[..k][1..];
    }
    if k :| 0 <= k <= |a'| && k < |b'| && a'[..k] == b'[..k] && (k == |a'| || a'[k] < b'[k]) {
      assert a[..k + 1] == [a[0]] + a'[..k] && b[..k + 1] == [b[0]] + b'[..k];
    }
  }

  predicate SerialsRise(order: seq<ObjectKey>) {
    forall i, j :: 0 <= i < j < |order| ==> order[i].serial <= order[j].serial
  }

  lemma RisesCons(k: ObjectKey, order: seq<ObjectKey>)
    requires SerialsRise(order) && forall i :: 0 <= i < |order| ==> k.serial <= order[i].serial
    ensures SerialsRise([k] + order)
  {
  }

  lemma {:induction false} InsertedRises(k: ObjectKey, order: seq<ObjectKey>)
    requires SerialsRise(order)
    ensures SerialsRise(InsertKey(k, order, false))
  {
    if order == [] || k.serial < order[0].serial {
      RisesCons(k, order);
    } else {
      var rest := InsertKey(k, order[1..], false);
      InsertedRises(k, order[1..]);
      forall i | 0 <= i < |rest| ensures order[0].serial <= rest[i].serial {
        assert rest[i] in multiset(rest);
        assert rest[i] == k || rest[i] in order[1..];
      }
      RisesCons(order[0], rest);
    }
  }

  lemma {:induction false} SortedRises(keys: seq<ObjectKey>)
    ensures SerialsRise(SortedKeys(keys, false))
  {
    if keys != [] {
      SortedRises(keys[1..]);
      InsertedRises(keys[0], SortedKeys(keys[1..], false));
    }
  }

  // Where the keys of an order stand among the pairs.
  predicate Places(perm: seq<nat>, order: seq<ObjectKey>, pairs: seq<Pair>) {
    && |perm| == |order|
    && forall i :: 0 <= i < |perm| ==> perm[i] < |pairs| && order[i] == ObjectKey(pairs[perm[i]].serial, pairs[perm[i]].key)
  }

  lemma {:induction false} PlacesOf(order: seq<ObjectKey>, pairs: seq<Pair>) returns (perm: seq<nat>)
    requires forall i :: 0 <= i < |order| ==> order[i] in KeysOf(pairs)
    ensures Places(perm, order, pairs)
  {
    perm := [];
    if order != [] {
      var rest := PlacesOf(order[1..], pairs);
      var k :| 0 <= k < |KeysOf(pairs)| && KeysOf(pairs)[k] == order[0];
      perm := [k] + rest;
    }
  }

  lemma OrderedPlaces(pairs: seq<Pair>, flags: Flags) returns (perm: seq<nat>)
    requires Distinct(pairs)
    ensures Places(perm, KeyOrder(pairs, flags), pairs) && R.DistinctKeys(KeyOrder(pairs, flags))
  {
    var order := KeyOrder(pairs, flags);
    R.OrderKeys(pairs, flags);
    R.OrderIsDistinct(pairs, flags);
    forall i | 0 <= i < |order| ensures order[i] in KeysOf(pairs) {
      assert order[i] in multiset(order);
    }
    perm := PlacesOf(order, pairs);
  }

  lemma Arrangement(pairs: seq<Pair>, flags: Flags) returns (perm: seq<nat>)
    requires Distinct(pairs)
    ensures Arranged(perm, pairs, flags) && Places(perm, KeyOrder(pairs, flags), pairs)
  {
    var order := KeyOrder(pairs, flags);
    perm := OrderedPlaces(pairs, flags);
    if flags.sortKeys { C.KeyOrderAscends(pairs, flags); } else if flags.preserveOrder { SortedRises(KeysOf(pairs)); }
    forall i, j | 0 <= i < j < |perm|
      ensures perm[i] != perm[j]
      ensures if flags.sortKeys then Smaller(pairs[perm[i]].key, pairs[perm[j]].key)
              else if flags.preserveOrder then pairs[perm[i]].serial <= pairs[perm[j]].serial
              else perm[i] < perm[j]
    {
      assert order[i].key != order[j].key;
      KeyLessIff(order[i].key, order[j].key);
    }
  }

  lemma TableTold(n: Node, t: Tree, perm: seq<nat>, flags: Flags)
    requires n.NObject? && t.Table? && |t.members| == |n.pairs| && Arranged(perm, n.pairs, flags)
    requires forall i :: 0 <= i < |perm| ==>
      SpelledAs(t.members[i].key, n.pairs[perm[i]].key, flags) && Tells(t.members[i].element.value, n.pairs[perm[i]].value, flags)
    ensures Tells(t, n, flags)
  {
  }

  lemma MembersTold(n: Node, t: Tree, gap: Bytes, body: Bytes, perm: seq<nat>, flags: Flags, depth: nat)
    requires n.NObject? && Distinct(n.pairs) && t.Table? && MembersDrawn(t.members, gap, body, n, KeyOrder(n.pairs, flags), true, flags, depth)
    requires Arranged(perm, n.pairs, flags) && Places(perm, KeyOrder(n.pairs, flags), n.pairs)
    ensures Tells(t, n, flags)
  {
    assert Opened(MEMBERS, 0);
    var order := KeyOrder(n.pairs, flags);
    forall i | 0 <= i < |perm|
      ensures SpelledAs(t.members[i].key, n.pairs[perm[i]].key, flags) && Tells(t.members[i].element.value, n.pairs[perm[i]].value, flags)
    {
      assert MemberAt(t.members, i, n, order, true, flags, depth);
      LookupAt(n.pairs, perm[i]);
    }
    TableTold(n, t, perm, flags);
  }

  lemma MembersLaid(n: Node, t: Tree, gap: Bytes, body: Bytes, flags: Flags, depth: nat)
    requires n.NObject? && t.Table? && t.gap == [] && MembersDrawn(t.members, gap, body, n, KeyOrder(n.pairs, flags), true, flags, depth)
    ensures Laid(t, flags, depth)
  {
    assert Opened(MEMBERS, 0);
    var order := KeyOrder(n.pairs, flags);
    forall i | 0 <= i < |t.members| ensures MemberLaid(t.members[i], i == 0, i == |t.members| - 1, flags, depth) {
      assert MemberAt(t.members, i, n, order, true, flags, depth);
    }
  }

  lemma MembersWritten(n: Node, t: Tree, gap: Bytes, body: Bytes, flags: Flags, depth: nat)
    requires n.NObject? && n.pairs != [] && t.Table? && t.gap == [] && Opens(gap, true, flags, depth + 1)
    requires MembersDrawn(t.members, gap, body, n, KeyOrder(n.pairs, flags), true, flags, depth)
    ensures Dump(n, flags, depth) == Some(TreeText(t)) && GoodTree(t)
  {
    assert Opened(MEMBERS, 0) && Opened(GAPS, 0);
    assert t.members != [] && TreeText(t) == [0x7B] + MembersText(t.members);
    assert [0x7B] + (gap + body + [0x7D]) == Bracketed(0x7B, gap + body, 0x7D);
  }

  lemma TableDrawn(n: Node, members: seq<Member>, gap: Bytes, body: Bytes, perm: seq<nat>, flags: Flags, depth: nat) returns (t: Tree, d: Bytes)
    requires n.NObject? && Distinct(n.pairs) && n.pairs != [] && Opens(gap, true, flags, depth + 1)
    requires MembersDrawn(members, gap, body, n, KeyOrder(n.pairs, flags), true, flags, depth)
    requires Arranged(perm, n.pairs, flags) && Places(perm, KeyOrder(n.pairs, flags), n.pairs)
    ensures Drawn(t, d, n, flags, depth)
  {
    t := Table([], members);
    d := TreeText(t);
    MembersTold(n, t, gap, body, perm, flags, depth);
    MembersLaid(n, t, gap, body, flags, depth);
    MembersWritten(n, t, gap, body, flags, depth);
    Draw(t, d, n, flags, depth);
  }

  lemma EmptyTable(n: Node, members: seq<Member>, perm: seq<nat>, flags: Flags, depth: nat) returns (t: Tree, d: Bytes)
    requires n.NObject? && n.pairs == [] && members == [] && perm == []
    ensures Drawn(t, d, n, flags, depth)
  {
    t := Table([], members);
    d := TreeText(t);
    TableTold(n, t, perm, flags);
    EmptyWritten(n, t, flags, depth);
    Draw(t, d, n, flags, depth);
  }

  lemma EmptyWritten(n: Node, t: Tree, flags: Flags, depth: nat)
    requires n.NObject? && n.pairs == [] && t.Table? && t.members == [] && t.gap == []
    ensures Dump(n, flags, depth) == Some(TreeText(t)) && GoodTree(t) && Laid(t, flags, depth)
  {
    assert [0x7B] + ([] + [0x7D]) == Bracketed(0x7B, [], 0x7D);
  }

  lemma {:induction false} TableTree(n: Node, flags: Flags, depth: nat) returns (t: Tree, d: Bytes)
    requires R.Sound(n) && n.NObject?
    ensures Drawn(t, d, n, flags, depth)
    decreases n, 0, |n.pairs| + 1
  {
    if n.pairs == [] {
      t, d := EmptyTable(n, [], [], flags, depth);
    } else {
      var gap := OpensWith(true, flags, depth + 1);
      var members, body := MembersTree(n, KeyOrder(n.pairs, flags), true, gap, flags, depth);
      var perm := Arrangement(n.pairs, flags);
      t, d := TableDrawn(n, members, gap, body, perm, flags, depth);
    }
  }

  // ----------------------------------------------------------- the whole text

  // What json_dumps makes of a value whose strings are UTF-8: one text of the grammar,
  // laid out as asked, each leaf what the value has there.
  lemma DumpIsLaidOut(n: Node, flags: Flags) returns (t: Tree)
    requires Stored(n) && AllUtf8(n) && (flags.encodeAny || n.NArray? || n.NObject?)
    ensures DumpText(n, flags) == Some(TreeText(t)) && GoodTree(t) && Laid(t, flags, 0) && Tells(t, n, flags)
  {
    var d;
    t, d := TreeDrawn(n, flags, 0);
    assert Opened(DRAWN, 0);
  }

  // There is a text exactly where the value may stand alone, and its string values are UTF-8.
  lemma DumpsIff(n: Node, flags: Flags)
    requires Stored(n)
    ensures DumpText(n, flags).Some? <==> (flags.encodeAny || n.NArray? || n.NObject?) && ValuesUtf8(n)
  {
    T.DumpsIffValuesUtf8(n, flags, 0);
  }
}
