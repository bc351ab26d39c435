// The grammatical half of compat/jansson/load.c: text to value.

module JsonParse {
  import opened Octets
  import opened Wrappers
  import opened Utf8
  import opened JsonValue
  import opened JsonDump
  import opened JsonLex
  import opened JsonReal

  datatype LoadFlags = LoadFlags(rejectDuplicates: bool, disableEofCheck: bool, decodeAny: bool, intAsReal: bool)

  // A value and where the text behind it starts.
  datatype Parsed = Failed | Parsed(value: Json, at: nat)

  const LBRACE := Punct(0x7B)
  const RBRACE := Punct(0x7D)
  const LBRACKET := Punct(0x5B)
  const RBRACKET := Punct(0x5D)

  // The value of an integer token, which JSON_DECODE_INT_AS_REAL makes a real.
  function IntegerValue(text: Bytes, env: Env, flags: LoadFlags): Option<Json> {
    if !flags.intAsReal then Some(Integer(IntegerOf(text)))
    else
      var x := env.strtod(text);
      if x.Some? then Some(Real(x.value)) else None
  }

  // parse_value: the value whose first token `t` has just been scanned, the
  // text behind that token starting at `p`.
  function Value(r: Bytes, t: Token, p: nat, env: Env, flags: LoadFlags): (v: Parsed)
    requires p <= |r|
    ensures v.Parsed? ==> p <= v.at <= |r|
    decreases |r| - p, 1
  {
    match t
    case TString(s) => Parsed(String(s), p)
    case TInteger(text) =>
      var v := IntegerValue(text, env, flags);
      if v.Some? then Parsed(v.value, p) else Failed
    case TReal(x) => Parsed(Real(x), p)
    case TTrue => Parsed(True, p)
    case TFalse => Parsed(False, p)
    case TNull => Parsed(Null, p)
    case Punct(c) =>
      if c == 0x7B then ObjectAt(r, p, env, flags)
      else if c == 0x5B then ArrayAt(r, p, env, flags)
      else Failed
    case Eof => Failed
    case Invalid => Failed
  }

  function ArrayAt(r: Bytes, p: nat, env: Env, flags: LoadFlags): (v: Parsed)
    requires p <= |r|
    ensures v.Parsed? ==> p <= v.at <= |r|
    decreases |r| - p, 0
  {
    var (t, q) := Scan(r, p, env);
    if t == RBRACKET then Parsed(Array([]), q)
    else if t.Eof? || t.Invalid? then Failed
    else Items(r, t, q, [], env, flags)
  }

  function Items(r: Bytes, t: Token, p: nat, acc: seq<Json>, env: Env, flags: LoadFlags): (v: Parsed)
    requires p <= |r|
    ensures v.Parsed? ==> p <= v.at <= |r|
    decreases |r| - p, 2
  {
    var item := Value(r, t, p, env, flags);
    if item.Failed? then Failed
    else
      var (sep, q) := Scan(r, item.at, env);
      if sep == RBRACKET then Parsed(Array(acc + [item.value]), q)
      else if sep != Punct(COMMA) then Failed
      else
        var (next, q2) := Scan(r, q, env);
        if next.Eof? || next.Invalid? then Failed
        else Items(r, next, q2, acc + [item.value], env, flags)
  }

  function ObjectAt(r: Bytes, p: nat, env: Env, flags: LoadFlags): (v: Parsed)
    requires p <= |r|
    ensures v.Parsed? ==> p <= v.at <= |r|
    decreases |r| - p, 0
  {
    var (t, q) := Scan(r, p, env);
    if t == RBRACE then Parsed(Object(map[]), q)
    else if !t.TString? then Failed
    else Members(r, t.s, q, map[], env, flags)
  }

  // The members from the one whose key has been scanned.
  function Members(r: Bytes, key: Bytes, p: nat, acc: map<Bytes, Json>, env: Env, flags: LoadFlags): (v: Parsed)
    requires p <= |r|
    ensures v.Parsed? ==> p <= v.at <= |r|
    decreases |r| - p, 2
  {
    if flags.rejectDuplicates && key in acc then Failed
    else
      var (colon, q) := Scan(r, p, env);
      if colon != Punct(COLON) then Failed
      else
        var (first, q1) := Scan(r, q, env);
        var item := Value(r, first, q1, env, flags);
        if item.Failed? then Failed
        else
          var (sep, q2) := Scan(r, item.at, env);
          if sep == RBRACE then Parsed(Object(acc[key := item.value]), q2)
          else if sep != Punct(COMMA) then Failed
          else
            var (next, q3) := Scan(r, q2, env);
            if !next.TString? then Failed
            else Members(r, next.s, q3, acc[key := item.value], env, flags)
  }

  // json_loads
  function Load(text: Bytes, flags: LoadFlags, strtod: Bytes -> Option<Double>): Option<Json> {
    var r := Sound(text);
    var env := Env(!Valid(text), strtod);
    var (t, p) := Scan(r, 0, env);
    if !flags.decodeAny && t != LBRACKET && t != LBRACE then None
    else
      var v := Value(r, t, p, env, flags);
      if v.Failed? then None
      else if !flags.disableEofCheck && Scan(r, v.at, env).0 != Eof then None
      else Some(v.value)
  }

  // What a parsing method leaves: the function's value, and the lexer behind it.
  ghost predicate Leaves(lex: Lexer, v: Option<Json>, spec: Parsed)
    reads lex, lex.buffer
  {
    && lex.Valid()
    && (v.Some? <==> spec.Parsed?)
    && (v.Some? ==> v.value == spec.value && lex.position == spec.at)
  }

  // How much a call has before it: nothing behind an invalid token.
  ghost function Left(lex: Lexer): int
    reads lex
  {
    if lex.token.Invalid? then 0 else |lex.sound| - lex.position + 1
  }

  method ParseObject(lex: Lexer, flags: LoadFlags) returns (v: Option<Json>)
    requires lex.Valid() && lex.token == LBRACE
    modifies lex, lex.buffer
    ensures Leaves(lex, v, ObjectAt(lex.sound, old(lex.position), lex.env, flags))
    decreases Left(lex), 0
  {
    var members: map<Bytes, Json> := map[];
    lex.LexScan();
    if lex.token == RBRACE {
      return Some(Object(members));
    }
    ghost var spec := ObjectAt(lex.sound, old(lex.position), lex.env, flags);
    while true
      invariant lex.Valid() && (lex.token.Invalid? || old(lex.position) <= lex.position)
      invariant lex.token.TString? ==>
        && old(lex.position) < lex.position
        && spec == Members(lex.sound, lex.token.s, lex.position, members, lex.env, flags)
      invariant !lex.token.TString? ==> spec.Failed?
      decreases Left(lex)
    {
      if !lex.token.TString? {
        return None;
      }
      var key := lex.token.s;
      if flags.rejectDuplicates {
        if key in members {
          return None;
        }
      }
      lex.LexScan();
      if lex.token != Punct(COLON) {
        return None;
      }
      lex.LexScan();
      var value := ParseValue(lex, flags);
      if value.None? {
        return None;
      }
      members := members[key := value.value];
      lex.LexScan();
      if lex.token != Punct(COMMA) {
        break;
      }
      lex.LexScan();
    }
    if lex.token != RBRACE {
      return None;
    }
    v := Some(Object(members));
  }

  method ParseArray(lex: Lexer, flags: LoadFlags) returns (v: Option<Json>)
    requires lex.Valid() && lex.token == LBRACKET
    modifies lex, lex.buffer
    ensures Leaves(lex, v, ArrayAt(lex.sound, old(lex.position), lex.env, flags))
    decreases Left(lex), 0
  {
    var items: seq<Json> := [];
    lex.LexScan();
    if lex.token == RBRACKET {
      return Some(Array(items));
    }
    ghost var spec := ArrayAt(lex.sound, old(lex.position), lex.env, flags);
    while lex.token != Eof
      invariant lex.Valid() && (lex.token.Invalid? || old(lex.position) <= lex.position)
      invariant !lex.token.Eof? && !lex.token.Invalid? ==>
        && old(lex.position) < lex.position
        && spec == Items(lex.sound, lex.token, lex.position, items, lex.env, flags)
      invariant lex.token.Eof? || lex.token.Invalid? ==> spec.Failed?
      decreases Left(lex)
    {
      var elem := ParseValue(lex, flags);
      if elem.None? {
        return None;
      }
      items := items + [elem.value];
      lex.LexScan();
      if lex.token != Punct(COMMA) {
        break;
      }
      lex.LexScan();
    }
    if lex.token != RBRACKET {
      return None;
    }
    v := Some(Array(items));
  }

  method ParseValue(lex: Lexer, flags: LoadFlags) returns (v: Option<Json>)
    requires lex.Valid()
    modifies lex, lex.buffer
    ensures Leaves(lex, v, Value(lex.sound, old(lex.token), old(lex.position), lex.env, flags))
    decreases Left(lex), 1
  {
    match lex.token
    case TString(s) => v := Some(String(s));
    case TInteger(text) =>
      if flags.intAsReal {
        var x := lex.StrToD(text);
        v := if x.Some? then Some(Real(x.value)) else None;
      } else {
        v := Some(Integer(IntegerOf(text)));
      }
    case TReal(x) => v := Some(Real(x));
    case TTrue => v := Some(True);
    case TFalse => v := Some(False);
    case TNull => v := Some(Null);
    case Punct(c) =>
      if c == 0x7B {
        v := ParseObject(lex, flags);
      } else if c == 0x5B {
        v := ParseArray(lex, flags);
      } else {
        v := None;
      }
    case Eof => v := None;
    case Invalid => v := None;
  }

  method Loads(text: Bytes, flags: LoadFlags, strtod: Bytes -> Option<Double>) returns (v: Option<Json>)
    requires NulFree(text)
    ensures v == Load(text, flags, strtod)
  {
    var lex := new Lexer(text, strtod);
    lex.LexScan();
    if !flags.decodeAny {
      if lex.token != LBRACKET && lex.token != LBRACE {
        return None;
      }
    }
    v := ParseValue(lex, flags);
    if v.None? {
      return None;
    }
    if !flags.disableEofCheck {
      lex.LexScan();
      if lex.token != Eof {
        return None;
      }
    }
  }
}
