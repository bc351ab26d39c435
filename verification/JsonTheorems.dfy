// What the printer and the parser promise together, over whole texts.

module JsonTheorems {
  import opened Closed
  import opened Octets
  import opened Wrappers
  import opened Utf8
  import opened JsonValue
  import opened JsonDump
  import opened JsonLex
  import opened JsonParse
  import opened JsonReal
  import R = JsonRoundTrip

  // ------------------------------------------- a dumped text is sound text

  predicate Clean(d: Bytes) {
    Valid(d) && NulFree(d)
  }

  lemma CleanConcat(a: Bytes, b: Bytes)
    requires Clean(a) && Clean(b)
    ensures Clean(a + b)
  {
    ValidConcat(a, b);
  }

  lemma CleanAscii(d: Bytes)
    requires forall i :: 0 <= i < |d| ==> 1 <= d[i] < 0x80
    ensures Clean(d)
  {
    ValidAscii(d);
  }

  lemma EscapeIsClean(cp: int)
    requires IsScalar(cp) && cp != 0
    ensures Clean(Escape(cp))
  {
    CleanAscii(Escape(cp));
  }

  lemma EncodingIsClean(cp: int)
    requires IsScalar(cp) && cp != 0
    ensures Clean(Enc(cp))
  {
    EncodedIsAccepted(cp, []);
    assert Enc(cp) + [] == Enc(cp);
    assert Valid([]);
  }

  lemma {:induction false} BodyIsClean(s: Bytes, flags: Flags)
    requires Clean(s)
    ensures Clean(R.Body(s, flags))
    decreases |s|
  {
    if s != [] {
      var cp := CharValue(s);
      AcceptedIsEncoded(s);
      R.NonzeroValue(s);
      EscapeIsClean(cp);
      EncodingIsClean(cp);
      BodyIsClean(s[CharLen(s)..], flags);
      CleanConcat(R.Out(s, flags), R.Body(s[CharLen(s)..], flags));
    }
  }

  // No NUL, and UTF-8 where `v` asks for it.
  predicate Tidy(d: Bytes, v: bool) {
    NulFree(d) && (v ==> Valid(d))
  }

  lemma TidyConcat(a: Bytes, b: Bytes, v: bool)
    requires Tidy(a, v) && Tidy(b, v)
    ensures Tidy(a + b, v)
  {
    if v { ValidConcat(a, b); }
  }

  lemma {:induction false} EmittedIsNulFree(s: Bytes, held: Bytes, flags: Flags)
    requires NulFree(s) && NulFree(held)
    ensures NulFree(Emitted(s, held, flags))
    decreases |s|
  {
    var n := CharLen(s);
    if n > 0 {
      AcceptedIsEncoded(s);
      R.NonzeroValue(s);
      EscapeIsClean(CharValue(s));
      EmittedIsNulFree(s[n..], [], flags);
      EmittedIsNulFree(s[n..], held + s[..n], flags);
    }
  }

  lemma StringTextIsTidy(s: Bytes, flags: Flags, v: bool)
    requires Tidy(s, v)
    ensures Tidy(StringText(s, flags), v)
  {
    EmittedIsNulFree(s, [], flags);
    if v {
      R.StringTextShape(s, flags);
      BodyIsClean(s, flags);
      CleanAscii([QUOTE]);
      CleanConcat([QUOTE], R.Body(s, flags));
      CleanConcat([QUOTE] + R.Body(s, flags), [QUOTE]);
    }
  }

  lemma IntegerTextIsClean(i: int)
    ensures Clean(IntegerText(i))
  {
    R.DigitsRoundTrip(if i < 0 then -i else i);
    CleanAscii(IntegerText(i));
  }

  lemma RealTextIsClean(x: Double)
    ensures Clean(RealText(x))
  {
    if x.exponent != [] { R.StrippedDigits(x.exponent); }
    CleanAscii(RealText(x));
  }

  lemma IndentIsClean(flags: Flags, depth: nat, space: bool)
    ensures Clean(Indent(flags, depth, space))
  {
    R.IndentIsBlank(flags, depth, space);
    CleanAscii(Indent(flags, depth, space));
  }

  lemma TidyPieces(a: Bytes, b: Bytes, c: Bytes, v: bool)
    requires Tidy(a, v) && Tidy(b, v) && Tidy(c, v)
    ensures Tidy(a + [COMMA] + b + c, v) && Tidy(a + b, v) && Tidy(a + b + c, v)
  {
    CleanAscii([COMMA]);
    TidyConcat(a, [COMMA], v);
    TidyConcat(a + [COMMA], b, v);
    TidyConcat(a + [COMMA] + b, c, v);
    TidyConcat(a, b, v);
    TidyConcat(a + b, c, v);
  }

  lemma TidyBrackets(open: byte, inner: Bytes, close: byte, v: bool)
    requires Tidy(inner, v) && 1 <= open < 0x80 && 1 <= close < 0x80
    ensures Tidy(Bracketed(open, inner, close), v)
  {
    CleanAscii([open]);
    CleanAscii([close]);
    TidyConcat([open], inner, v);
    TidyConcat([open] + inner, [close], v);
  }

  // What json_dumps writes is a C string; and UTF-8 where every key is.
  lemma {:induction false} DumpIsTidy(n: Node, flags: Flags, depth: nat, v: bool)
    requires Stored(n) && (v ==> AllUtf8(n)) && Dump(n, flags, depth).Some?
    ensures Tidy(Dump(n, flags, depth).value, v)
    decreases n, 2
  {
    match n
    case NInteger(i) => IntegerTextIsClean(i);
    case NReal(x) => RealTextIsClean(x);
    case NString(s) => StringTextIsTidy(s, flags, v);
    case NArray(items) => ArrayIsTidy(n, flags, depth, v);
    case NObject(pairs) => ObjectIsTidy(n, flags, depth, v);
    case _ => CleanAscii(Dump(n, flags, depth).value);
  }

  lemma {:induction false} ArrayIsTidy(n: Node, flags: Flags, depth: nat, v: bool)
    requires n.NArray? && Stored(n) && (v ==> AllUtf8(n)) && Dump(n, flags, depth).Some?
    ensures Tidy(Dump(n, flags, depth).value, v)
    decreases n, 1
  {
    CleanAscii(Bracketed(0x5B, [], 0x5D));
    if n.items != [] {
      var indent := Indent(flags, depth + 1, false);
      var body := DumpItems(n, 0, flags, depth).value;
      ItemsAreTidy(n, 0, flags, depth, v);
      IndentIsClean(flags, depth + 1, false);
      TidyConcat(indent, body, v);
      TidyBrackets(0x5B, indent + body, 0x5D, v);
    }
  }

  lemma {:induction false} ObjectIsTidy(n: Node, flags: Flags, depth: nat, v: bool)
    requires n.NObject? && Stored(n) && (v ==> AllUtf8(n)) && Dump(n, flags, depth).Some?
    ensures Tidy(Dump(n, flags, depth).value, v)
    decreases n, 1
  {
    CleanAscii(Bracketed(0x7B, [], 0x7D));
    if n.pairs != [] {
      var indent := Indent(flags, depth + 1, false);
      var body := DumpMembers(n, KeyOrder(n.pairs, flags), flags, depth).value;
      MembersAreTidy(n, KeyOrder(n.pairs, flags), flags, depth, v);
      IndentIsClean(flags, depth + 1, false);
      TidyConcat(indent, body, v);
      TidyBrackets(0x7B, indent + body, 0x7D, v);
    }
  }

  lemma {:induction false} ItemsAreTidy(n: Node, i: nat, flags: Flags, depth: nat, v: bool)
    requires Stored(n) && (v ==> AllUtf8(n)) && n.NArray? && i < |n.items| && DumpItems(n, i, flags, depth).Some?
    ensures Tidy(DumpItems(n, i, flags, depth).value, v)
    decreases n, 0, |n.items| - i
  {
    var item := Dump(n.items[i], flags, depth + 1).value;
    DumpIsTidy(n.items[i], flags, depth + 1, v);
    IndentIsClean(flags, depth, false);
    IndentIsClean(flags, depth + 1, true);
    if i + 1 == |n.items| {
      TidyPieces(item, Indent(flags, depth, false), [], v);
    } else {
      ItemsAreTidy(n, i + 1, flags, depth, v);
      TidyPieces(item, Indent(flags, depth + 1, true), DumpItems(n, i + 1, flags, depth).value, v);
    }
  }

  lemma {:induction false} MembersAreTidy(n: Node, order: seq<ObjectKey>, flags: Flags, depth: nat, v: bool)
    requires Stored(n) && (v ==> AllUtf8(n)) && n.NObject? && order != []
    requires forall i :: 0 <= i < |order| ==> HasKey(n.pairs, order[i].key)
    requires DumpMembers(n, order, flags, depth).Some?
    ensures Tidy(DumpMembers(n, order, flags, depth).value, v)
    decreases n, 0, |order|
  {
    var key := order[0].key;
    assert HasKey(n.pairs, key);
    var value := Lookup(n.pairs, key);
    var item := Dump(value, flags, depth + 1).value;
    DumpIsTidy(value, flags, depth + 1, v);
    StringTextIsTidy(key, flags, v);
    CleanAscii(Separator(flags));
    TidyPieces(StringText(key, flags), Separator(flags), item, v);
    var member := StringText(key, flags) + Separator(flags) + item;
    IndentIsClean(flags, depth, false);
    IndentIsClean(flags, depth + 1, true);
    if |order| == 1 {
      TidyPieces(member, Indent(flags, depth, false), [], v);
    } else {
      MembersAreTidy(n, order[1..], flags, depth, v);
      TidyPieces(member, Indent(flags, depth + 1, true), DumpMembers(n, order[1..], flags, depth).value, v);
    }
  }

  // ------------------------------------------------- when there is a text

  // do_dump gives up at a string value that is not UTF-8 and at nothing else: a
  // env key does not stop it.
  lemma {:induction false} DumpsIffValuesUtf8(n: Node, flags: Flags, depth: nat)
    requires Stored(n)
    ensures Dump(n, flags, depth).Some? <==> ValuesUtf8(n)
    decreases n, 1, 0
  {
    match n
    case NArray(items) =>
      if items != [] { ItemsIffUtf8(n, 0, flags, depth); }
    case NObject(pairs) =>
      if pairs != [] {
        MembersIffUtf8(n, KeyOrder(pairs, flags), flags, depth);
        forall i | 0 <= i < |pairs|
          ensures R.Ordered(KeyOrder(pairs, flags), pairs[i].key) && Lookup(pairs, pairs[i].key) == pairs[i].value
        {
          assert HasKey(pairs, pairs[i].key);
          R.OrderCovers(pairs, flags, pairs[i].key);
          LookupAt(pairs, i);
        }
      }
    case _ =>
  }

  // One item of an array: it is dumped, and so are those behind it.
  lemma ItemDumps(n: Node, i: nat, flags: Flags, depth: nat)
    requires n.NArray? && i < |n.items|
    ensures DumpItems(n, i, flags, depth).Some? <==>
      && Dump(n.items[i], flags, depth + 1).Some?
      && (i + 1 < |n.items| ==> DumpItems(n, i + 1, flags, depth).Some?)
  {
  }

  lemma {:induction false} ItemsIffUtf8(n: Node, i: nat, flags: Flags, depth: nat)
    requires Stored(n) && n.NArray? && i < |n.items|
    ensures DumpItems(n, i, flags, depth).Some? <==> forall j :: i <= j < |n.items| ==> ValuesUtf8(n.items[j])
    decreases n, 0, |n.items| - i
  {
    ItemDumps(n, i, flags, depth);
    DumpsIffValuesUtf8(n.items[i], flags, depth + 1);
    if i + 1 < |n.items| { ItemsIffUtf8(n, i + 1, flags, depth); }
  }

  lemma {:induction false} MembersIffUtf8(n: Node, order: seq<ObjectKey>, flags: Flags, depth: nat)
    requires Stored(n) && n.NObject? && order != []
    requires forall i :: 0 <= i < |order| ==> HasKey(n.pairs, order[i].key)
    ensures DumpMembers(n, order, flags, depth).Some? <==>
      forall k :: R.Ordered(order, k) ==> HasKey(n.pairs, k) && ValuesUtf8(Lookup(n.pairs, k))
    decreases n, 0, |order|
  {
    var key := order[0].key;
    assert HasKey(n.pairs, key);
    var v := Lookup(n.pairs, key);
    DumpsIffValuesUtf8(v, flags, depth + 1);
    forall k ensures R.Ordered(order, k) <==> k == key || R.Ordered(order[1..], k) {
      if i :| 0 <= i < |order| && order[i].key == k {
        if i > 0 { assert order[1..][i - 1] == order[i]; }
      }
      if i :| 0 <= i < |order[1..]| && order[1..][i].key == k {
        assert order[i + 1].key == k;
      }
    }
    if |order| > 1 {
      MembersIffUtf8(n, order[1..], flags, depth);
    }
  }

  // ----------------------------------------- whatever is loaded is sound

  lemma LeadIsNotAscii(s: Bytes, k: nat)
    requires CharLen(s) > 0 && 0 < k < |s| && s[k] < 0x80
    ensures k >= CharLen(s)
  {
    if CharLen(s) > 1 { assert Full(s, CharLen(s)); }
  }

  lemma CutTwice(s: Bytes, n: nat, k: nat)
    requires n <= k < |s|
    ensures s[n..][k - n] == s[k] && s[n..][k - n..] == s[k..] && s[..n] + s[n..][..k - n] == s[..k]
  {
  }

  // An ASCII byte of a well-formed text stands between characters.
  lemma {:induction false} ValidSplit(s: Bytes, k: nat)
    requires Valid(s) && k < |s| && s[k] < 0x80
    ensures Valid(s[..k]) && Valid(s[k..])
    decreases |s|
  {
    if k == 0 {
      assert s[0..] == s;
    } else {
      var n := CharLen(s);
      LeadIsNotAscii(s, k);
      var rest := s[n..];
      CutTwice(s, n, k);
      ValidSplit(rest, k - n);
      HeadIsValid(s);
      ValidConcat(s[..n], rest[..k - n]);
    }
  }

  lemma SlicePieces(s: Bytes, p: nat, k: nat)
    requires p <= k < |s|
    ensures s[p..k + 1] == s[p..][..k - p] + [s[k]] && s[p..][k - p] == s[k]
  {
  }

  lemma ValidSlice(s: Bytes, p: nat, k: nat)
    requires Valid(s) && p <= k < |s| && s[p] < 0x80 && s[k] < 0x80
    ensures Valid(s[p..k + 1])
  {
    SlicePieces(s, p, k);
    ValidSplit(s, p);
    ValidSplit(s[p..], k - p);
    OneIsValid(s[k]);
    ValidConcat(s[p..][..k - p], [s[k]]);
  }

  lemma OneIsValid(b: byte)
    requires b < 0x80
    ensures Valid([b])
  {
    ValidAscii([b]);
  }

  lemma HeadIsValid(s: Bytes)
    requires CharLen(s) > 0
    ensures Valid(s[..CharLen(s)])
  {
    AcceptedIsEncoded(s);
    EncodedIsAccepted(CharValue(s), []);
    assert s[..CharLen(s)] + [] == s[..CharLen(s)];
    assert Valid([]);
  }

  lemma CleanThen(a: Bytes, rest: Option<Bytes>)
    requires Clean(a) && (rest.Some? ==> Clean(rest.value))
    ensures Then(a, rest).Some? ==> Clean(Then(a, rest).value)
  {
    if rest.Some? { CleanConcat(a, rest.value); }
  }

  // The escapes of a well-formed text make a well-formed string.
  lemma {:induction false} UnescapeIsClean(t: Bytes, q: nat, k: nat)
    requires NulFree(t) && q <= k < |t| && Valid(t[q..]) && CloseFrom(t, q) == Some(k)
    ensures Unescape(t, q, k).Some? ==> Clean(Unescape(t, q, k).value)
    decreases k - q, 2
  {
    if q == k {
    } else if t[q] >= 0x80 {
      MultiByteIsClean(t, q, k);
    } else {
      assert t[q..][1..] == t[q + 1..];
      if t[q] != BACKSLASH {
        UnescapeIsClean(t, q + 1, k);
        CleanAscii([t[q]]);
        CleanThen([t[q]], Unescape(t, q + 1, k));
      } else if t[q + 1] != 0x75 {
        assert t[q + 1..][1..] == t[q + 2..];
        UnescapeIsClean(t, q + 2, k);
        CleanAscii([ShortValue(t[q + 1])]);
        CleanThen([ShortValue(t[q + 1])], Unescape(t, q + 2, k));
      } else {
        UnicodeIsClean(t, q, k);
      }
    }
  }

  lemma SkipAscii(t: Bytes, q: nat, n: nat)
    requires q + n <= |t| && Valid(t[q..]) && forall i :: q <= i < q + n ==> t[i] < 0x80
    ensures Valid(t[q + n..])
    decreases n
  {
    if n > 0 {
      assert t[q..][1..] == t[q + 1..];
      SkipAscii(t, q + 1, n - 1);
    }
  }

  lemma {:induction false} UnicodeIsClean(t: Bytes, q: nat, k: nat)
    requires NulFree(t) && q < k < |t| && Valid(t[q..]) && CloseFrom(t, q) == Some(k)
    requires t[q] == BACKSLASH && t[q + 1] == 0x75
    ensures Unescape(t, q, k).Some? ==> Clean(Unescape(t, q, k).value)
    decreases k - q, 1
  {
    var v := Unit(t, q + 2);
    assert CloseFrom(t, q + 6) == Some(k);
    SkipAscii(t, q, 6);
    if 0xD800 <= v <= 0xDBFF {
      if t[q + 6] == BACKSLASH && t[q + 7] == 0x75 && 0xDC00 <= Unit(t, q + 8) <= 0xDFFF {
        PairIsClean(t, q, k);
      }
    } else if !(0xDC00 <= v <= 0xDFFF) && v != 0 {
      UnescapeIsClean(t, q + 6, k);
      EncodingIsClean(v);
      CleanThen(Enc(v), Unescape(t, q + 6, k));
    }
  }

  lemma {:induction false} PairIsClean(t: Bytes, q: nat, k: nat)
    requires NulFree(t) && q + 6 < k < |t| && Valid(t[q + 6..]) && CloseFrom(t, q) == Some(k) && CloseFrom(t, q + 6) == Some(k)
    requires t[q] == BACKSLASH && t[q + 1] == 0x75 && FourHex(t, q + 2) && 0xD800 <= Unit(t, q + 2) <= 0xDBFF
    requires t[q + 6] == BACKSLASH && t[q + 7] == 0x75 && FourHex(t, q + 8) && 0xDC00 <= Unit(t, q + 8) <= 0xDFFF
    ensures Unescape(t, q, k).Some? ==> Clean(Unescape(t, q, k).value)
    decreases k - q, 0
  {
    var cp := PairUnescapes(t, q, k);
    SkipAscii(t, q + 6, 6);
    UnescapeIsClean(t, q + 12, k);
    EncodingIsClean(cp);
    CleanThen(Enc(cp), Unescape(t, q + 12, k));
  }

  lemma PairUnescapes(t: Bytes, q: nat, k: nat) returns (cp: int)
    requires q + 6 < k < |t| && CloseFrom(t, q) == Some(k) && CloseFrom(t, q + 6) == Some(k)
    requires t[q] == BACKSLASH && t[q + 1] == 0x75 && FourHex(t, q + 2) && 0xD800 <= Unit(t, q + 2) <= 0xDBFF
    requires t[q + 6] == BACKSLASH && t[q + 7] == 0x75 && FourHex(t, q + 8) && 0xDC00 <= Unit(t, q + 8) <= 0xDFFF
    ensures 0x10000 <= cp < 0x110000
    ensures q + 12 <= k && CloseFrom(t, q + 12) == Some(k)
    ensures forall i :: q + 6 <= i < q + 12 ==> t[i] < 0x80
    ensures Unescape(t, q, k) == Then(Enc(cp), Unescape(t, q + 12, k))
  {
    cp := (Unit(t, q + 2) - 0xD800) * 0x400 + (Unit(t, q + 8) - 0xDC00) + 0x10000;
  }

  lemma {:induction false} MultiByteIsClean(t: Bytes, q: nat, k: nat)
    requires NulFree(t) && q < k < |t| && Valid(t[q..]) && CloseFrom(t, q) == Some(k) && t[q] >= 0x80
    ensures Unescape(t, q, k).Some? ==> Clean(Unescape(t, q, k).value)
    decreases k - q, 0
  {
    var s := t[q..];
    var n := CharLen(s);
    var d := s[..n];
    assert Full(s, n);
    assert forall i :: 0 <= i < n ==> s[i] == t[q + i];
    assert t[q..q + |d|] == d;
    R.PlainReads(t, q, d);
    assert Opened(0, k);
    assert R.ReadsAt(t, q, q + n, d, k);
    assert s[n..] == t[q + n..];
    HeadIsValid(s);
    UnescapeIsClean(t, q + n, k);
    CleanThen(d, Unescape(t, q + n, k));
  }

  predicate SoundToken(t: Token) {
    match t
    case TString(s) => Clean(s)
    case TInteger(text) => INT64_MIN <= IntegerOf(text) <= INT64_MAX
    case _ => true
  }

  lemma ScanIsSound(r: Bytes, p: nat, env: Env)
    requires Clean(r) && p <= |r|
    ensures SoundToken(Scan(r, p, env).0)
  {
    var q := BlankEnd(r, p);
    if q < |r| && r[q] == QUOTE && CloseFrom(r, q + 1).Some? {
      StringIsSound(r, q);
    }
  }

  // The text of a string token, quotes included.
  lemma TextIsClosed(r: Bytes, p: nat, k: nat)
    requires Clean(r) && p < |r| && r[p] == QUOTE && CloseFrom(r, p + 1) == Some(k)
    ensures Clean(r[p..k + 1]) && r[p..k + 1][0] == QUOTE && CloseFrom(r[p..k + 1], 1) == Some(k - p)
  {
    ValidSlice(r, p, k);
    CloseShift(r, p, r[p..k + 1], 1, k);
  }

  lemma StringIsSound(r: Bytes, p: nat)
    requires Clean(r) && p < |r| && r[p] == QUOTE
    ensures SoundToken(StringAt(r, p).0)
  {
    var close := CloseFrom(r, p + 1);
    if close.Some? {
      TextIsClosed(r, p, close.value);
      TextIsSound(r[p..close.value + 1], close.value - p);
    }
  }

  lemma TextIsSound(t: Bytes, k: nat)
    requires Clean(t) && 1 <= k < |t| && t[0] == QUOTE && CloseFrom(t, 1) == Some(k)
    ensures Unescape(t, 1, k).Some? ==> Clean(Unescape(t, 1, k).value)
  {
    assert t[0..] == t;
    SkipAscii(t, 0, 1);
    UnescapeIsClean(t, 1, k);
  }

  lemma {:induction false} ValueIsSound(r: Bytes, t: Token, p: nat, env: Env, flags: LoadFlags)
    requires Clean(r) && p <= |r| && SoundToken(t)
    ensures Value(r, t, p, env, flags).Parsed? ==> WellFormed(Value(r, t, p, env, flags).value)
    decreases |r| - p, 1
  {
    if t == LBRACE {
      ScanIsSound(r, p, env);
      var (first, q) := Scan(r, p, env);
      if first.TString? { MembersAreSound(r, first.s, q, map[], env, flags); }
    } else if t == LBRACKET {
      ScanIsSound(r, p, env);
      var (first, q) := Scan(r, p, env);
      if first != RBRACKET && !first.Eof? && !first.Invalid? { ItemsAreSound(r, first, q, [], env, flags); }
    }
  }

  lemma {:induction false} ItemsAreSound(r: Bytes, t: Token, p: nat, acc: seq<Json>, env: Env, flags: LoadFlags)
    requires Clean(r) && p <= |r| && SoundToken(t) && forall i :: 0 <= i < |acc| ==> WellFormed(acc[i])
    ensures Items(r, t, p, acc, env, flags).Parsed? ==> WellFormed(Items(r, t, p, acc, env, flags).value)
    decreases |r| - p, 2
  {
    ValueIsSound(r, t, p, env, flags);
    var item := Value(r, t, p, env, flags);
    if item.Parsed? {
      var (sep, q) := Scan(r, item.at, env);
      if sep == Punct(COMMA) {
        var (next, q2) := Scan(r, q, env);
        ScanIsSound(r, q, env);
        if !next.Eof? && !next.Invalid? { ItemsAreSound(r, next, q2, acc + [item.value], env, flags); }
      }
    }
  }

  lemma {:induction false} MembersAreSound(r: Bytes, key: Bytes, p: nat, acc: map<Bytes, Json>, env: Env, flags: LoadFlags)
    requires Clean(r) && p <= |r| && Clean(key) && WellFormed(Object(acc))
    ensures Members(r, key, p, acc, env, flags).Parsed? ==> WellFormed(Members(r, key, p, acc, env, flags).value)
    decreases |r| - p, 2
  {
    var (colon, q) := Scan(r, p, env);
    if colon == Punct(COLON) {
      var (first, q1) := Scan(r, q, env);
      ScanIsSound(r, q, env);
      ValueIsSound(r, first, q1, env, flags);
      var item := Value(r, first, q1, env, flags);
      if item.Parsed? {
        var acc' := acc[key := item.value];
        assert WellFormed(Object(acc'));
        var (sep, q2) := Scan(r, item.at, env);
        if sep == Punct(COMMA) {
          var (next, q3) := Scan(r, q2, env);
          ScanIsSound(r, q2, env);
          if next.TString? { MembersAreSound(r, next.s, q3, acc', env, flags); }
        }
      }
    }
  }

  lemma {:induction false} SoundIsValid(text: Bytes)
    ensures Valid(Sound(text))
    decreases |text|
  {
    var n := CharLen(text);
    if n > 0 {
      SoundIsValid(text[n..]);
      HeadIsValid(text);
      assert Sound(text) == text[..n] + Sound(text[n..]);
      ValidConcat(text[..n], Sound(text[n..]));
    }
  }

  // Every value json_loads returns is one that could have been built with the
  // library: strings and keys are UTF-8 without NUL, integers fit 64 bits.
  lemma LoadedIsWellFormed(text: Bytes, flags: LoadFlags, strtod: Bytes -> Option<Double>)
    requires NulFree(text)
    ensures Load(text, flags, strtod).Some? ==> WellFormed(Load(text, flags, strtod).value)
  {
    SoundIsValid(text);
    var r := Sound(text);
    var env := Env(!Valid(text), strtod);
    ScanIsSound(r, 0, env);
    ValueIsSound(r, Scan(r, 0, env).0, Scan(r, 0, env).1, env, flags);
  }

  // ------------------------------------------------------- the round trip

  predicate Container(n: Node) {
    n.NArray? || n.NObject?
  }

  // Every number is read back as itself: a real by strtod, an integer unless it is
  // decoded as a real.
  predicate ReadsSame(n: Node, lf: LoadFlags, strtod: Bytes -> Option<Double>) {
    match n
    case NInteger(i) => !lf.intAsReal
    case NReal(x) => strtod(RealText(x)) == Some(x)
    case NArray(items) => forall i :: 0 <= i < |items| ==> ReadsSame(items[i], lf, strtod)
    case NObject(pairs) => forall i :: 0 <= i < |pairs| ==> ReadsSame(pairs[i].value, lf, strtod)
    case _ => true
  }

  lemma {:induction false} SameIff(n: Node, env: Env, lf: LoadFlags)
    requires Stored(n)
    ensures ReadsSame(n, lf, env.strtod) <==> R.Readable(n, env, lf) && ValueOf(R.Reread(n, env, lf)) == ValueOf(n)
    decreases n
  {
    match n
    case NArray(items) =>
      forall i | 0 <= i < |items|
        ensures ReadsSame(items[i], lf, env.strtod) <==>
          R.Readable(items[i], env, lf) && ValueOf(R.Reread(items[i], env, lf)) == ValueOf(items[i])
      {
        SameIff(items[i], env, lf);
      }
      SameItemsIff(n, env, lf);
    case NObject(pairs) =>
      forall i | 0 <= i < |pairs|
        ensures ReadsSame(pairs[i].value, lf, env.strtod) <==>
          R.Readable(pairs[i].value, env, lf) && ValueOf(R.Reread(pairs[i].value, env, lf)) == ValueOf(pairs[i].value)
      {
        SameIff(pairs[i].value, env, lf);
      }
      SameMembersIff(n, env, lf);
    case _ =>
  }

  lemma SameItemsIff(n: Node, env: Env, lf: LoadFlags)
    requires n.NArray?
    ensures ValueOf(R.Reread(n, env, lf)) == ValueOf(n) <==>
      forall i :: 0 <= i < |n.items| ==> ValueOf(R.Reread(n.items[i], env, lf)) == ValueOf(n.items[i])
  {
    var m := R.Reread(n, env, lf);
    forall i | 0 <= i < |n.items|
      ensures ItemsOf(m.items)[i] == ValueOf(R.Reread(n.items[i], env, lf)) && ItemsOf(n.items)[i] == ValueOf(n.items[i])
    {
      ItemsOfAt(m.items, i);
      ItemsOfAt(n.items, i);
    }
  }

  lemma SameMembersIff(n: Node, env: Env, lf: LoadFlags)
    requires n.NObject? && Distinct(n.pairs)
    ensures ValueOf(R.Reread(n, env, lf)) == ValueOf(n) <==>
      forall i :: 0 <= i < |n.pairs| ==> ValueOf(R.Reread(n.pairs[i].value, env, lf)) == ValueOf(n.pairs[i].value)
  {
    var m := R.Reread(n, env, lf);
    forall i | 0 <= i < |n.pairs|
      ensures var k := n.pairs[i].key;
              && k in MembersOf(m.pairs) && MembersOf(m.pairs)[k] == ValueOf(R.Reread(n.pairs[i].value, env, lf))
              && k in MembersOf(n.pairs) && MembersOf(n.pairs)[k] == ValueOf(n.pairs[i].value)
    {
      MemberValueAt(n.pairs, i);
      MemberValueAt(m.pairs, i);
    }
    KeysAre(n.pairs);
    KeysAre(m.pairs);
    if forall i :: 0 <= i < |n.pairs| ==> ValueOf(R.Reread(n.pairs[i].value, env, lf)) == ValueOf(n.pairs[i].value) {
      SameMaps(MembersOf(m.pairs), MembersOf(n.pairs), n.pairs);
    }
  }

  lemma MemberValueAt(pairs: seq<Pair>, i: nat)
    requires Distinct(pairs) && i < |pairs|
    ensures pairs[i].key in MembersOf(pairs) && MembersOf(pairs)[pairs[i].key] == ValueOf(pairs[i].value)
  {
    MembersOfPairs(pairs);
    assert HasKey(pairs, pairs[i].key);
    LookupAt(pairs, i);
  }

  // The keys of the map are those of the pairs.
  ghost predicate KeyedBy(m: map<Bytes, Json>, pairs: seq<Pair>) {
    forall k :: k in m ==> HasKey(pairs, k)
  }

  lemma KeysAre(pairs: seq<Pair>)
    ensures KeyedBy(MembersOf(pairs), pairs)
  {
    MembersOfPairs(pairs);
  }

  lemma SameMaps(a: map<Bytes, Json>, b: map<Bytes, Json>, pairs: seq<Pair>)
    requires (forall k :: k in a ==> HasKey(pairs, k)) && (forall k :: k in b ==> HasKey(pairs, k))
    requires forall i :: 0 <= i < |pairs| ==> pairs[i].key in a && pairs[i].key in b && a[pairs[i].key] == b[pairs[i].key]
    ensures a == b
  {
    forall k | k in a || k in b ensures k in a && k in b && a[k] == b[k] {
      var i :| 0 <= i < |pairs| && pairs[i].key == k;
    }
  }

  // What loading makes of a text json_dumps wrote of UTF-8: the value with every
  // number as it is read, or nothing if strtod does not take one.
  lemma DumpedLoads(n: Node, flags: Flags, lf: LoadFlags, strtod: Bytes -> Option<Double>)
    requires Stored(n) && AllUtf8(n)
    requires Container(n) || (flags.encodeAny && lf.decodeAny)
    ensures var env := Env(false, strtod);
            DumpText(n, flags).Some? && Load(DumpText(n, flags).value, lf, strtod) ==
              if R.Readable(n, env, lf) then Some(ValueOf(R.Reread(n, env, lf))) else None
  {
    AllIsValues(n);
    DumpsIffValuesUtf8(n, flags, 0);
    DumpIsTidy(n, flags, 0, true);
    var text, env := DumpText(n, flags).value, Env(false, strtod);
    if R.Readable(n, env, lf) {
      DumpIsRead(n, flags, text, env, lf);
      ReadsAreLoaded(text, ValueOf(R.Reread(n, env, lf)), env, lf);
    } else {
      DumpIsUnread(n, flags, text, env, lf);
      FailsAreNone(text, env, lf);
    }
  }

  lemma ContainerOpens(r: Bytes, t: Token, p: nat, env: Env, flags: LoadFlags)
    requires p <= |r| && Value(r, t, p, env, flags).Parsed?
    requires Value(r, t, p, env, flags).value.Array? || Value(r, t, p, env, flags).value.Object?
    ensures t == LBRACKET || t == LBRACE
  {
  }

  lemma WholeIsSound(text: Bytes, env: Env)
    requires Valid(text) && !env.bad
    ensures Sound(text) == text && Scan(text, |text|, env).0 == Eof
  {
    ValidIsSound(text);
    AtEndIsEof(text, env);
  }

  lemma ValidIsSound(text: Bytes)
    requires Valid(text)
    ensures Sound(text) == text
  {
    ValidIsGood(text);
  }

  lemma AtEndIsEof(text: Bytes, env: Env)
    requires !env.bad
    ensures Scan(text, |text|, env).0 == Eof
  {
    assert BlankEnd(text, |text|) == |text|;
  }

  // A text whose value is read to its end is loaded.
  lemma ReadsAreLoaded(text: Bytes, v: Json, env: Env, lf: LoadFlags)
    requires Valid(text) && !env.bad && R.ReadsAsNow(text, 0, v, |text|, env, lf)
    requires v.Array? || v.Object? || lf.decodeAny
    ensures Load(text, lf, env.strtod) == Some(v)
  {
    AtEndIsEof(text, env);
    ReadsThenEndIsLoaded(text, v, |text|, env, lf);
  }

  lemma ReadsThenEndIsLoaded(text: Bytes, v: Json, at: nat, env: Env, lf: LoadFlags)
    requires Valid(text) && !env.bad && R.ReadsAsNow(text, 0, v, at, env, lf) && at <= |text| && Scan(text, at, env).0 == Eof
    requires v.Array? || v.Object? || lf.decodeAny
    ensures Load(text, lf, env.strtod) == Some(v)
  {
    ValidIsSound(text);
    var (t, p) := Scan(text, 0, env);
    if v.Array? || v.Object? { ContainerOpens(text, t, p, env, lf); }
  }

  lemma FailsAreNone(text: Bytes, env: Env, lf: LoadFlags)
    requires Valid(text) && !env.bad && Value(text, Scan(text, 0, env).0, Scan(text, 0, env).1, env, lf).Failed?
    ensures Load(text, lf, env.strtod) == None
  {
    WholeIsSound(text, env);
  }

  lemma DumpIsRead(n: Node, flags: Flags, text: Bytes, env: Env, lf: LoadFlags)
    requires Stored(n) && AllUtf8(n) && Dump(n, flags, 0) == Some(text) && R.Readable(n, env, lf)
    ensures R.ReadsAsNow(text, 0, ValueOf(R.Reread(n, env, lf)), |text|, env, lf)
  {
    R.AtItself(text);
    var read, v := R.ReadOrNot(n, env, lf);
    assert Opened(R.MEANT, 0);
    R.ValueReadBack(text, 0, n, text, v, |text|, flags, 0, env, lf);
    assert Opened(R.READ, 0);
  }

  lemma DumpIsUnread(n: Node, flags: Flags, text: Bytes, env: Env, lf: LoadFlags)
    requires Stored(n) && AllUtf8(n) && Dump(n, flags, 0) == Some(text) && !R.Readable(n, env, lf)
    ensures Value(text, Scan(text, 0, env).0, Scan(text, 0, env).1, env, lf).Failed?
  {
    R.AtItself(text);
    var read, _ := R.ReadOrNot(n, env, lf);
    assert Opened(R.MEANT, 0);
    R.ValueFails(text, 0, n, text, flags, 0, env, lf);
    assert Opened(R.READ, 0);
  }

  lemma {:induction false} AllIsValues(n: Node)
    requires AllUtf8(n)
    ensures ValuesUtf8(n)
    decreases n
  {
    match n
    case NArray(items) => forall i | 0 <= i < |items| ensures ValuesUtf8(items[i]) { AllIsValues(items[i]); }
    case NObject(pairs) => forall i | 0 <= i < |pairs| ensures ValuesUtf8(pairs[i].value) { AllIsValues(pairs[i].value); }
    case _ =>
  }

  // Loading what json_dumps wrote gives the value back, for every value, every
  // combination of flags on either side and every strtod, if and only if every string
  // and every key is UTF-8 and every number is read back as itself.
  lemma RoundTrip(n: Node, flags: Flags, lf: LoadFlags, strtod: Bytes -> Option<Double>)
    requires Stored(n)
    requires Container(n) || (flags.encodeAny && lf.decodeAny)
    ensures AllUtf8(n) && ReadsSame(n, lf, strtod) <==>
      DumpText(n, flags).Some? && Load(DumpText(n, flags).value, lf, strtod) == Some(ValueOf(n))
  {
    var env := Env(false, strtod);
    SameIff(n, env, lf);
    if AllUtf8(n) {
      DumpedLoads(n, flags, lf, strtod);
    } else if DumpText(n, flags).Some? && Load(DumpText(n, flags).value, lf, strtod) == Some(ValueOf(n)) {
      DumpIsTidy(n, flags, 0, false);
      LoadedIsWellFormed(DumpText(n, flags).value, lf, strtod);
      WellFormedIffUtf8(n);
    }
  }

  // A real that strtod does not take -- for one it reports as out of range without
  // making it zero, which some libraries do of the smallest -- is dumped and not loaded.
  lemma UnreadRealIsLost(x: Double, flags: Flags, lf: LoadFlags, strtod: Bytes -> Option<Double>)
    requires strtod(RealText(x)).None?
    ensures var n := NArray([NReal(x)]);
            Stored(n) && AllUtf8(n) && DumpText(n, flags).Some? && Load(DumpText(n, flags).value, lf, strtod) == None
  {
    var n := NArray([NReal(x)]);
    assert n.items[0] == NReal(x);
    assert !R.Readable(n.items[0], Env(false, strtod), lf);
    DumpedLoads(n, flags, lf, strtod);
  }
}
