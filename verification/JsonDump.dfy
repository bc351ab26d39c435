// compat/jansson/dump.c: a stored value to its text.

module JsonDump {
  import opened Octets
  import opened Wrappers
  import opened Utf8
  import opened JsonReal
  import opened JsonValue

  datatype Flags = Flags(
    indent: nat,          // JSON_INDENT, five bits of the flag word
    compact: bool,
    ensureAscii: bool,
    sortKeys: bool,
    preserveOrder: bool,
    encodeAny: bool,
    escapeSlash: bool)

  const QUOTE: byte := 0x22
  const BACKSLASH: byte := 0x5C
  const COMMA: byte := 0x2C
  const COLON: byte := 0x3A
  const SPACE: byte := 0x20
  const NEWLINE: byte := 0x0A

  // -------------------------------------------------------------- strings

  predicate MustEscape(cp: int, flags: Flags) {
    || cp == 0x5C || cp == 0x22 || cp < 0x20
    || (flags.escapeSlash && cp == 0x2F)
    || (flags.ensureAscii && cp > 0x7F)
  }

  function HexDigit(v: int): (d: byte)
    requires 0 <= v < 16
  {
    if v < 10 then 0x30 + v else 0x61 + v - 10
  }

  // "\uXXXX", as printf's %04x fills it in.
  function UnicodeEscape(v: int): (r: Bytes)
    requires 0 <= v < 0x10000
  {
    [BACKSLASH, 0x75, HexDigit(v / 0x1000), HexDigit(v / 0x100 % 0x10), HexDigit(v / 0x10 % 0x10), HexDigit(v % 0x10)]
  }

  // One escaped character: section 7 of RFC 8259.
  function Escape(cp: int): Bytes
    requires IsScalar(cp)
  {
    if cp == 0x5C then [BACKSLASH, 0x5C]
    else if cp == 0x22 then [BACKSLASH, 0x22]
    else if cp == 0x08 then [BACKSLASH, 0x62]
    else if cp == 0x0C then [BACKSLASH, 0x66]
    else if cp == 0x0A then [BACKSLASH, 0x6E]
    else if cp == 0x0D then [BACKSLASH, 0x72]
    else if cp == 0x09 then [BACKSLASH, 0x74]
    else if cp == 0x2F then [BACKSLASH, 0x2F]
    else if cp < 0x10000 then UnicodeEscape(cp)
    else UnicodeEscape(0xD800 + (cp - 0x10000) / 0x400) + UnicodeEscape(0xDC00 + (cp - 0x10000) % 0x400)
  }

  // What comes out for the string `s` once its opening quote has: characters
  // that need no escape are held in `held` until one that does, or the end, lets
  // them go -- so a string that turns out not to be UTF-8 loses the ones held.
  function Emitted(s: Bytes, held: Bytes, flags: Flags): Bytes
    decreases |s|
  {
    if s == [] then held + [QUOTE]
    else if CharLen(s) == 0 then []
    else
      var n := CharLen(s);
      AcceptedIsEncoded(s);
      if MustEscape(CharValue(s), flags) then held + Escape(CharValue(s)) + Emitted(s[n..], [], flags)
      else Emitted(s[n..], held + s[..n], flags)
  }

  function Bracketed(open: byte, inner: Bytes, close: byte): Bytes {
    [open] + inner + [close]
  }

  lemma Append2(before: Bytes, a: Bytes, b: Bytes)
    ensures before + a + b == before + (a + b)
  {
  }

  lemma Append3(before: Bytes, a: Bytes, b: Bytes, c: Bytes)
    ensures before + a + b + c == before + (a + b + c)
  {
  }

  lemma BracketedOut(before: Bytes, open: byte, indent: Bytes, body: Bytes, close: byte)
    ensures before + [open] + indent + body + [close] == before + Bracketed(open, indent + body, close)
  {
  }

  function StringText(s: Bytes, flags: Flags): Bytes {
    [QUOTE] + Emitted(s, [], flags)
  }

  // Where the text of a value goes: the buffer json_dumps collects it in.
  class Sink {
    var text: Bytes

    constructor ()
      ensures text == []
    {
      text := [];
    }

    method Put(b: Bytes)
      modifies this
      ensures text == old(text) + b
    {
      text := text + b;
    }
  }

  // The escape for one character, from its buffer of thirteen.
  method EscapeText(codepoint: int) returns (text: Bytes)
    requires IsScalar(codepoint)
    ensures text == Escape(codepoint)
  {
    if codepoint == 0x5C { text := [BACKSLASH, 0x5C]; }
    else if codepoint == 0x22 { text := [BACKSLASH, 0x22]; }
    else if codepoint == 0x08 { text := [BACKSLASH, 0x62]; }
    else if codepoint == 0x0C { text := [BACKSLASH, 0x66]; }
    else if codepoint == 0x0A { text := [BACKSLASH, 0x6E]; }
    else if codepoint == 0x0D { text := [BACKSLASH, 0x72]; }
    else if codepoint == 0x09 { text := [BACKSLASH, 0x74]; }
    else if codepoint == 0x2F { text := [BACKSLASH, 0x2F]; }
    else if codepoint < 0x10000 {
      text := UnicodeEscape(codepoint);
    } else {
      // The two halves have no bit in common with the base they are or-ed to.
      var offset := codepoint - 0x10000;
      Halves(offset);
      var first := 0xD800 + offset / 0x400 % 0x400;
      var last := 0xDC00 + offset % 0x400;
      text := UnicodeEscape(first) + UnicodeEscape(last);
    }
  }

  lemma Halves(offset: int)
    requires 0 <= offset < 0x100000
    ensures offset / 0x400 % 0x400 == offset / 0x400 < 0x400
  {
  }

  // Everything from `str` up to `pos` goes out as it is.
  ghost predicate Plain(s: Bytes, str: nat, pos: nat, flags: Flags)
    requires str <= pos <= |s|
  {
    && (Valid(s[str..]) <==> Valid(s[pos..]))
    && Emitted(s[str..], [], flags) == Emitted(s[pos..], s[str..pos], flags)
  }

  lemma PlainStep(s: Bytes, str: nat, pos: nat, flags: Flags)
    requires str <= pos < |s| && Plain(s, str, pos, flags) && CharLen(s[pos..]) > 0
    ensures var end := pos + CharLen(s[pos..]);
            var cp := CharValue(s[pos..]);
            && IsScalar(cp)
            && end <= |s|
            && (!MustEscape(cp, flags) ==> Plain(s, str, end, flags))
            && (MustEscape(cp, flags) ==>
                  && (Valid(s[str..]) <==> Valid(s[end..]))
                  && Emitted(s[str..], [], flags) == s[str..pos] + Escape(cp) + Emitted(s[end..], [], flags))
  {
    var n := CharLen(s[pos..]);
    AcceptedIsEncoded(s[pos..]);
    assert s[pos..][n..] == s[pos + n..];
    assert s[pos..][..n] == s[pos..pos + n];
    assert s[str..pos] + s[pos..pos + n] == s[str..pos + n];
  }

  lemma PlainEnds(s: Bytes, str: nat, pos: nat, flags: Flags)
    requires str <= pos <= |s| && Plain(s, str, pos, flags)
    ensures pos == |s| ==> Valid(s[str..]) && Emitted(s[str..], [], flags) == s[str..pos] + [QUOTE]
    ensures pos < |s| && CharLen(s[pos..]) == 0 ==> !Valid(s[str..]) && Emitted(s[str..], [], flags) == []
  {
  }

  // The inner scan of dump_string: from `str`, past every character that goes
  // out as it is. `end` stops behind the one that does not, or at `pos` where
  // the string is over.
  method ScanPlain(s: Bytes, str: nat, flags: Flags) returns (good: bool, pos: nat, end: nat, codepoint: int)
    requires str <= |s|
    ensures str <= pos <= |s| && Plain(s, str, pos, flags)
    ensures !good ==> pos < |s| && CharLen(s[pos..]) == 0
    ensures good ==> end == if pos == |s| then pos else pos + CharLen(s[pos..])
    ensures good && pos < |s| ==> CharLen(s[pos..]) > 0 && codepoint == CharValue(s[pos..]) && MustEscape(codepoint, flags)
  {
    pos, end, codepoint, good := str, str, 0, true;
    assert s[str..str] == [];
    while end < |s|
      invariant good && str <= pos == end <= |s|
      invariant Plain(s, str, pos, flags)
      decreases |s| - end
    {
      var next;
      good, next, codepoint := Iterate(s[pos..]);
      if !good {
        return;
      }
      PlainStep(s, str, pos, flags);
      end := pos + next;
      if codepoint == 0x5C || codepoint == 0x22 || codepoint < 0x20 {
        return;
      }
      if flags.escapeSlash && codepoint == 0x2F {
        return;
      }
      if flags.ensureAscii && codepoint > 0x7F {
        return;
      }
      pos := end;
    }
  }

  method DumpString(s: Bytes, out: Sink, flags: Flags) returns (ok: bool)
    modifies out
    ensures ok <==> Valid(s)
    ensures out.text == old(out.text) + StringText(s, flags)
  {
    out.Put([QUOTE]);
    ghost var done := out.text;
    Append2(old(out.text), [QUOTE], Emitted(s, [], flags));
    var str := 0;
    while true
      invariant str <= |s|
      invariant out.text + Emitted(s[str..], [], flags) == done + Emitted(s, [], flags)
      invariant Valid(s) <==> Valid(s[str..])
      decreases |s| - str
    {
      ghost var before := out.text;
      var good, pos, end, codepoint := ScanPlain(s, str, flags);
      PlainEnds(s, str, pos, flags);
      if !good {
        assert out.text + [] == out.text;
        return false;
      }
      if pos != str {
        out.Put(s[str..pos]);
      }
      assert out.text == before + s[str..pos];
      if end == pos {
        Append2(before, s[str..pos], [QUOTE]);
        break;
      }
      PlainStep(s, str, pos, flags);
      var text := EscapeText(codepoint);
      out.Put(text);
      Append3(before, s[str..pos], text, Emitted(s[end..], [], flags));
      str := end;
    }
    out.Put([QUOTE]);
    ok := true;
  }

  // ------------------------------------------------------------- integers

  // Decimal digits of a natural number, as printf writes them.
  function Digits(n: nat): (r: Bytes)
    ensures |r| >= 1
  {
    if n < 10 then [0x30 + n] else Digits(n / 10) + [0x30 + n % 10]
  }

  function IntegerText(i: int): Bytes {
    if i < 0 then [0x2D] + Digits(-i) else Digits(i)
  }

  // ------------------------------------------------------------ key order

  datatype ObjectKey = ObjectKey(serial: nat, key: Bytes)

  // strcmp(a, b) < 0
  predicate KeyLess(a: Bytes, b: Bytes) {
    if b == [] then false
    else if a == [] then true
    else a[0] < b[0] || (a[0] == b[0] && KeyLess(a[1..], b[1..]))
  }

  predicate Before(a: ObjectKey, b: ObjectKey, byKey: bool) {
    if byKey then KeyLess(a.key, b.key) else a.serial < b.serial
  }

  function InsertKey(k: ObjectKey, sorted: seq<ObjectKey>, byKey: bool): (r: seq<ObjectKey>)
    ensures multiset(r) == multiset{k} + multiset(sorted)
  {
    if sorted == [] || Before(k, sorted[0], byKey) then [k] + sorted
    else
      assert sorted == [sorted[0]] + sorted[1..];
      [sorted[0]] + InsertKey(k, sorted[1..], byKey)
  }

  // What qsort leaves, with either comparison.
  function SortedKeys(keys: seq<ObjectKey>, byKey: bool): (r: seq<ObjectKey>)
    ensures multiset(r) == multiset(keys)
  {
    if keys == [] then []
    else
      assert keys == [keys[0]] + keys[1..];
      InsertKey(keys[0], SortedKeys(keys[1..], byKey), byKey)
  }

  function KeysOf(pairs: seq<Pair>): (r: seq<ObjectKey>)
    ensures |r| == |pairs|
    ensures forall i :: 0 <= i < |pairs| ==> r[i] == ObjectKey(pairs[i].serial, pairs[i].key)
  {
    seq(|pairs|, i requires 0 <= i < |pairs| => ObjectKey(pairs[i].serial, pairs[i].key))
  }

  // The order an object's members are written in.
  function KeyOrder(pairs: seq<Pair>, flags: Flags): (r: seq<ObjectKey>)
    ensures |r| == |pairs|
    ensures forall i :: 0 <= i < |r| ==> HasKey(pairs, r[i].key)
  {
    var keys := KeysOf(pairs);
    if flags.sortKeys || flags.preserveOrder then
      var r := SortedKeys(keys, flags.sortKeys);
      assert |r| == |keys| by { assert |multiset(r)| == |multiset(keys)|; }
      assert forall i :: 0 <= i < |r| ==> HasKey(pairs, r[i].key) by {
        forall i | 0 <= i < |r| ensures HasKey(pairs, r[i].key) {
          assert r[i] in multiset(r);
          assert r[i] in keys;
        }
      }
      r
    else
      assert forall i :: 0 <= i < |keys| ==> HasKey(pairs, keys[i].key) by {
        forall i | 0 <= i < |keys| ensures HasKey(pairs, keys[i].key) {
          assert pairs[i].key == keys[i].key;
        }
      }
      keys
  }

  // --------------------------------------------------------------- values

  function Spaces(n: nat): (r: Bytes)
    ensures |r| == n
  {
    seq(n, _ => SPACE)
  }

  function Blanks(depth: nat, width: nat): Bytes {
    if depth == 0 then [] else Spaces(width) + Blanks(depth - 1, width)
  }

  function Indent(flags: Flags, depth: nat, space: bool): Bytes {
    if flags.indent > 0 then [NEWLINE] + Blanks(depth, flags.indent)
    else if space && !flags.compact then [SPACE]
    else []
  }

  function Separator(flags: Flags): Bytes {
    if flags.compact then [COLON] else [COLON, SPACE]
  }

  // The text of a value, or None where do_dump gives up: at a string value that
  // is not UTF-8. A key that is not goes out as far as it got.
  function Dump(n: Node, flags: Flags, depth: nat): Option<Bytes>
    decreases n, if n.NArray? then |n.items| + 1 else if n.NObject? then |n.pairs| + 1 else 0
  {
    match n
    case NNull => Some([0x6E, 0x75, 0x6C, 0x6C])
    case NTrue => Some([0x74, 0x72, 0x75, 0x65])
    case NFalse => Some([0x66, 0x61, 0x6C, 0x73, 0x65])
    case NInteger(i) => Some(IntegerText(i))
    case NReal(x) => Some(RealText(x))
    case NString(s) => if Valid(s) then Some(StringText(s, flags)) else None
    case NArray(items) =>
      if items == [] then Some(Bracketed(0x5B, [], 0x5D))
      else
        var body := DumpItems(n, 0, flags, depth);
        if body.None? then None
        else Some(Bracketed(0x5B, Indent(flags, depth + 1, false) + body.value, 0x5D))
    case NObject(pairs) =>
      if pairs == [] then Some(Bracketed(0x7B, [], 0x7D))
      else
        var body := DumpMembers(n, KeyOrder(pairs, flags), flags, depth);
        if body.None? then None
        else Some(Bracketed(0x7B, Indent(flags, depth + 1, false) + body.value, 0x7D))
  }

  function DumpItems(n: Node, i: nat, flags: Flags, depth: nat): Option<Bytes>
    requires n.NArray? && i < |n.items|
    decreases n, |n.items| - i
  {
    var item := Dump(n.items[i], flags, depth + 1);
    if item.None? then None
    else if i + 1 == |n.items| then Some(item.value + Indent(flags, depth, false))
    else
      var rest := DumpItems(n, i + 1, flags, depth);
      if rest.None? then None
      else Some(item.value + [COMMA] + Indent(flags, depth + 1, true) + rest.value)
  }

  function DumpMembers(n: Node, order: seq<ObjectKey>, flags: Flags, depth: nat): Option<Bytes>
    requires n.NObject? && order != []
    requires forall i :: 0 <= i < |order| ==> HasKey(n.pairs, order[i].key)
    decreases n, |order|
  {
    var key := order[0].key;
    assert HasKey(n.pairs, key);
    var item := Dump(Lookup(n.pairs, key), flags, depth + 1);
    if item.None? then None
    else
      var member := StringText(key, flags) + Separator(flags) + item.value;
      if |order| == 1 then Some(member + Indent(flags, depth, false))
      else
        var rest := DumpMembers(n, order[1..], flags, depth);
        if rest.None? then None
        else Some(member + [COMMA] + Indent(flags, depth + 1, true) + rest.value)
  }

  // json_dump_callback and json_dumps: only an array or an object is a text of
  // its own, unless the caller says any value is.
  function DumpText(n: Node, flags: Flags): Option<Bytes> {
    if !flags.encodeAny && !n.NArray? && !n.NObject? then None else Dump(n, flags, 0)
  }

  method DumpIndent(flags: Flags, depth: nat, space: bool, out: Sink)
    modifies out
    ensures out.text == old(out.text) + Indent(flags, depth, space)
  {
    if flags.indent > 0 {
      out.Put([NEWLINE]);
      var i := 0;
      while i < depth
        invariant 0 <= i <= depth
        invariant out.text + Blanks(depth - i, flags.indent) == old(out.text) + Indent(flags, depth, space)
      {
        out.Put(Spaces(flags.indent));
        i := i + 1;
      }
    } else if space && !flags.compact {
      out.Put([SPACE]);
    }
  }

  // qsort over an object's keys. The C library's; any sort gives what this one
  // does, the keys and serials of one object being distinct.
  method Qsort(keys: seq<ObjectKey>, byKey: bool) returns (sorted: seq<ObjectKey>)
    ensures sorted == SortedKeys(keys, byKey)
  {
    sorted := SortedKeys(keys, byKey);
  }

  method DumpInteger(i: int, out: Sink)
    modifies out
    ensures out.text == old(out.text) + IntegerText(i)
  {
    var digits := [];
    var left := if i < 0 then -i else i;
    ghost var whole := left;
    while left >= 10
      invariant left >= 0
      invariant Digits(whole) == Digits(left) + digits
    {
      digits := [0x30 + left % 10] + digits;
      left := left / 10;
    }
    digits := [0x30 + left] + digits;
    out.Put(if i < 0 then [0x2D] + digits else digits);
  }

  method DumpReal(x: Double, out: Sink)
    modifies out
    ensures out.text == old(out.text) + RealText(x)
  {
    var buffer := new byte[MAX_REAL_STR_LENGTH](_ => 0);
    var size := Dtostr(x, buffer);
    out.Put(buffer[..size]);
  }

  method DoDump(n: Node, flags: Flags, depth: nat, out: Sink) returns (ok: bool)
    requires Stored(n)
    modifies out
    ensures ok <==> Dump(n, flags, depth).Some?
    ensures ok ==> out.text == old(out.text) + Dump(n, flags, depth).value
    decreases n, 4
  {
    match n
    case NNull =>
      out.Put([0x6E, 0x75, 0x6C, 0x6C]);
      ok := true;
    case NTrue =>
      out.Put([0x74, 0x72, 0x75, 0x65]);
      ok := true;
    case NFalse =>
      out.Put([0x66, 0x61, 0x6C, 0x73, 0x65]);
      ok := true;
    case NInteger(i) =>
      DumpInteger(i, out);
      ok := true;
    case NReal(x) =>
      DumpReal(x, out);
      ok := true;
    case NString(s) =>
      ok := DumpString(s, out, flags);
    case NArray(items) =>
      ok := DumpArray(n, flags, depth, out);
    case NObject(pairs) =>
      ok := DumpObject(n, flags, depth, out);
  }

  // What is owed before item `i`: nothing once the last is out.
  ghost function ItemsFrom(n: Node, i: nat, flags: Flags, depth: nat): Option<Bytes>
    requires n.NArray? && i <= |n.items|
  {
    if i == |n.items| then Some([]) else DumpItems(n, i, flags, depth)
  }

  // One turn of the loop over an array's items.
  method DumpItem(n: Node, i: nat, flags: Flags, depth: nat, ghost whole: Option<Bytes>, ghost done: Bytes, out: Sink)
    returns (ok: bool)
    requires Stored(n) && n.NArray? && i < |n.items|
    requires Owed(whole, done, out.text, ItemsFrom(n, i, flags, depth))
    modifies out
    ensures ok <==> Dump(n.items[i], flags, depth + 1).Some?
    ensures !ok ==> whole.None?
    ensures ok ==> Owed(whole, done, out.text, ItemsFrom(n, i + 1, flags, depth))
    decreases n, 0
  {
    ghost var before := out.text;
    ghost var rest := ItemsFrom(n, i, flags, depth);
    ok := DoDump(n.items[i], flags, depth + 1, out);
    if !ok {
      return false;
    }
    ghost var text := Dump(n.items[i], flags, depth + 1).value;
    if i + 1 < |n.items| {
      out.Put([COMMA]);
      DumpIndent(flags, depth + 1, true, out);
      ghost var piece := text + [COMMA] + Indent(flags, depth + 1, true);
      Append3(before, text, [COMMA], Indent(flags, depth + 1, true));
      OwedStep(whole, done, before, rest, piece, ItemsFrom(n, i + 1, flags, depth));
    } else {
      DumpIndent(flags, depth, false, out);
      ghost var piece := text + Indent(flags, depth, false);
      Append2(before, text, Indent(flags, depth, false));
      assert piece == piece + [];
      OwedStep(whole, done, before, rest, piece, Some([]));
    }
  }

  method DumpArray(n: Node, flags: Flags, depth: nat, out: Sink) returns (ok: bool)
    requires Stored(n) && n.NArray?
    modifies out
    ensures ok <==> Dump(n, flags, depth).Some?
    ensures ok ==> out.text == old(out.text) + Dump(n, flags, depth).value
    decreases n, 1
  {
    var items := n.items;
    out.Put([0x5B]);
    if |items| == 0 {
      out.Put([0x5D]);
      return true;
    }
    DumpIndent(flags, depth + 1, false, out);
    ghost var done := out.text;
    ghost var whole := ItemsFrom(n, 0, flags, depth);
    var i := 0;
    while i < |items|
      invariant 0 <= i <= |items|
      invariant Owed(whole, done, out.text, ItemsFrom(n, i, flags, depth))
    {
      var item := DumpItem(n, i, flags, depth, whole, done, out);
      if !item {
        return false;
      }
      i := i + 1;
    }
    ghost var body := if whole.Some? then whole.value else [];
    assert out.text == done + body;
    BracketedOut(old(out.text), 0x5B, Indent(flags, depth + 1, false), body, 0x5D);
    out.Put([0x5D]);
    ok := true;
  }

  // `whole` went after `done`; `text` is out and `rest` is still owed.
  ghost predicate Owed(whole: Option<Bytes>, done: Bytes, text: Bytes, rest: Option<Bytes>) {
    && (whole.Some? <==> rest.Some?)
    && (whole.Some? ==> done + whole.value == text + rest.value)
  }

  lemma OwedStep(whole: Option<Bytes>, done: Bytes, text: Bytes, rest: Option<Bytes>, piece: Bytes, rest': Option<Bytes>)
    requires Owed(whole, done, text, rest)
    requires rest.Some? <==> rest'.Some?
    requires rest.Some? ==> rest.value == piece + rest'.value
    ensures Owed(whole, done, text + piece, rest')
  {
    if rest.Some? {
      assert text + (piece + rest'.value) == text + piece + rest'.value;
    }
  }

  // What is owed before member `i`: nothing once the last is out.
  ghost function MembersFrom(n: Node, order: seq<ObjectKey>, i: nat, flags: Flags, depth: nat): Option<Bytes>
    requires n.NObject? && i <= |order|
    requires forall i :: 0 <= i < |order| ==> HasKey(n.pairs, order[i].key)
  {
    if i == |order| then Some([]) else DumpMembers(n, order[i..], flags, depth)
  }

  // One turn of either loop over an object's members. dump_string's answer is
  // not looked at for a key: dump.c:339 and 376.
  method DumpMember(n: Node, ghost order: seq<ObjectKey>, i: nat, key: Bytes, value: Node, flags: Flags, depth: nat,
                    ghost whole: Option<Bytes>, ghost done: Bytes, out: Sink)
    returns (ok: bool)
    requires Stored(n) && n.NObject? && Stored(value) && value < n
    requires |order| == |n.pairs| && i < |order|
    requires forall i :: 0 <= i < |order| ==> HasKey(n.pairs, order[i].key)
    requires key == order[i].key && HasKey(n.pairs, key) && value == Lookup(n.pairs, key)
    requires Owed(whole, done, out.text, MembersFrom(n, order, i, flags, depth))
    modifies out
    ensures ok <==> Dump(value, flags, depth + 1).Some?
    ensures !ok ==> whole.None?
    ensures ok ==> Owed(whole, done, out.text, MembersFrom(n, order, i + 1, flags, depth))
    decreases n, 0
  {
    assert order[i..][1..] == order[i + 1..];
    ghost var before := out.text;
    ghost var rest := MembersFrom(n, order, i, flags, depth);
    var _ := DumpString(key, out, flags);
    out.Put(Separator(flags));
    ok := DoDump(value, flags, depth + 1, out);
    if !ok {
      return false;
    }
    ghost var member := StringText(key, flags) + Separator(flags) + Dump(value, flags, depth + 1).value;
    Append3(before, StringText(key, flags), Separator(flags), Dump(value, flags, depth + 1).value);
    if i + 1 < |n.pairs| {
      out.Put([COMMA]);
      DumpIndent(flags, depth + 1, true, out);
      ghost var piece := member + [COMMA] + Indent(flags, depth + 1, true);
      Append3(before, member, [COMMA], Indent(flags, depth + 1, true));
      OwedStep(whole, done, before, rest, piece, MembersFrom(n, order, i + 1, flags, depth));
    } else {
      DumpIndent(flags, depth, false, out);
      ghost var piece := member + Indent(flags, depth, false);
      Append2(before, member, Indent(flags, depth, false));
      assert piece == piece + [];
      OwedStep(whole, done, before, rest, piece, Some([]));
    }
  }

  // The members of an object that has some: sorted, or as they are iterated.
  method DumpMembersOut(n: Node, flags: Flags, depth: nat, ghost whole: Option<Bytes>, ghost done: Bytes, out: Sink)
    returns (ok: bool)
    requires Stored(n) && n.NObject? && n.pairs != []
    requires whole == DumpMembers(n, KeyOrder(n.pairs, flags), flags, depth) && out.text == done
    modifies out
    ensures ok <==> whole.Some?
    ensures ok ==> out.text == done + whole.value
    decreases n, 2
  {
    var pairs := n.pairs;
    if flags.sortKeys || flags.preserveOrder {
      var keys := [];
      var at := 0;
      while at < |pairs|
        invariant 0 <= at <= |pairs| && out.text == done
        invariant keys == KeysOf(pairs)[..at]
      {
        keys := keys + [ObjectKey(pairs[at].serial, pairs[at].key)];
        at := at + 1;
      }
      assert keys == KeysOf(pairs);
      keys := Qsort(keys, flags.sortKeys);
      ok := DumpInOrder(n, keys, flags, depth, whole, done, out);
    } else {
      ok := DumpAsIterated(n, flags, depth, whole, done, out);
    }
  }

  method DumpInOrder(n: Node, keys: seq<ObjectKey>, flags: Flags, depth: nat, ghost whole: Option<Bytes>, ghost done: Bytes, out: Sink)
    returns (ok: bool)
    requires Stored(n) && n.NObject? && n.pairs != []
    requires |keys| == |n.pairs| && forall i :: 0 <= i < |keys| ==> HasKey(n.pairs, keys[i].key)
    requires whole == DumpMembers(n, keys, flags, depth) && out.text == done
    modifies out
    ensures ok <==> whole.Some?
    ensures ok ==> out.text == done + whole.value
    decreases n, 1
  {
    assert keys[0..] == keys;
    var i := 0;
    while i < |keys|
      invariant 0 <= i <= |keys|
      invariant Owed(whole, done, out.text, MembersFrom(n, keys, i, flags, depth))
    {
      var key := keys[i].key;
      assert HasKey(n.pairs, key);
      var value := Lookup(n.pairs, key);
      ok := DumpMember(n, keys, i, key, value, flags, depth, whole, done, out);
      if !ok {
        return;
      }
      i := i + 1;
    }
    assert whole.Some? ==> out.text + [] == out.text;
    ok := true;
  }

  method DumpAsIterated(n: Node, flags: Flags, depth: nat, ghost whole: Option<Bytes>, ghost done: Bytes, out: Sink)
    returns (ok: bool)
    requires Stored(n) && n.NObject? && n.pairs != []
    requires !flags.sortKeys && !flags.preserveOrder
    requires whole == DumpMembers(n, KeyOrder(n.pairs, flags), flags, depth) && out.text == done
    modifies out
    ensures ok <==> whole.Some?
    ensures ok ==> out.text == done + whole.value
    decreases n, 1
  {
    ghost var order := KeyOrder(n.pairs, flags);
    assert order[0..] == order;
    var i := 0;
    while i < |n.pairs|
      invariant 0 <= i <= |n.pairs|
      invariant Owed(whole, done, out.text, MembersFrom(n, order, i, flags, depth))
    {
      LookupAt(n.pairs, i);
      ok := DumpMember(n, order, i, n.pairs[i].key, n.pairs[i].value, flags, depth, whole, done, out);
      if !ok {
        return;
      }
      i := i + 1;
    }
    assert whole.Some? ==> out.text + [] == out.text;
    ok := true;
  }

  method DumpObject(n: Node, flags: Flags, depth: nat, out: Sink) returns (ok: bool)
    requires Stored(n) && n.NObject?
    modifies out
    ensures ok <==> Dump(n, flags, depth).Some?
    ensures ok ==> out.text == old(out.text) + Dump(n, flags, depth).value
    decreases n, 3
  {
    var pairs := n.pairs;
    out.Put([0x7B]);
    if |pairs| == 0 {
      out.Put([0x7D]);
      return true;
    }
    DumpIndent(flags, depth + 1, false, out);
    ghost var done := out.text;
    ghost var whole := DumpMembers(n, KeyOrder(pairs, flags), flags, depth);
    var ok' := DumpMembersOut(n, flags, depth, whole, done, out);
    if !ok' {
      return false;
    }
    BracketedOut(old(out.text), 0x7B, Indent(flags, depth + 1, false), whole.value, 0x7D);
    out.Put([0x7D]);
    ok := true;
  }

  method Dumps(n: Node, flags: Flags) returns (text: Option<Bytes>)
    requires Stored(n)
    ensures text == DumpText(n, flags)
  {
    if !flags.encodeAny {
      if !n.NArray? && !n.NObject? {
        return None;
      }
    }
    var out := new Sink();
    var ok := DoDump(n, flags, 0, out);
    assert ok ==> out.text == [] + Dump(n, flags, 0).value == Dump(n, flags, 0).value;
    text := if ok then Some(out.text) else None;
  }
}
