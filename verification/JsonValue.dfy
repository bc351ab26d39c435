// JSON values twice over: as a program holds them -- objects being the pairs of
// a hash table, in whatever order it iterates them -- and as json_equal compares
// them, where an object is a finite map.

module JsonValue {
  import opened JsonReal
  import opened Octets
  import opened Utf8

  // A value up to json_equal.
  datatype Json =
    | Null
    | True
    | False
    | Integer(i: int)
    | Real(x: Double)
    | String(s: Bytes)
    | Array(items: seq<Json>)
    | Object(members: map<Bytes, Json>)

  // A value as it is stored. `serial` is the order the keys were added in.
  datatype Node =
    | NNull
    | NTrue
    | NFalse
    | NInteger(i: int)
    | NReal(x: Double)
    | NString(s: Bytes)
    | NArray(items: seq<Node>)
    | NObject(pairs: seq<Pair>)

  datatype Pair = Pair(key: Bytes, serial: nat, value: Node)

  function ValueOf(n: Node): Json {
    match n
    case NNull => Null
    case NTrue => True
    case NFalse => False
    case NInteger(i) => Integer(i)
    case NReal(x) => Real(x)
    case NString(s) => String(s)
    case NArray(items) => Array(ItemsOf(items))
    case NObject(pairs) => Object(MembersOf(pairs))
  }

  function ItemsOf(items: seq<Node>): (r: seq<Json>)
    ensures |r| == |items|
  {
    if items == [] then [] else [ValueOf(items[0])] + ItemsOf(items[1..])
  }

  function MembersOf(pairs: seq<Pair>): map<Bytes, Json> {
    if pairs == [] then map[]
    else MembersOf(pairs[1..])[pairs[0].key := ValueOf(pairs[0].value)]
  }

  predicate Distinct(pairs: seq<Pair>) {
    forall i, j :: 0 <= i < j < |pairs| ==> pairs[i].key != pairs[j].key
  }

  // What every string of C is: it ends at its first NUL.
  predicate NulFree(s: Bytes) {
    forall i :: 0 <= i < |s| ==> s[i] != 0
  }

  const INT64_MIN := -0x8000_0000_0000_0000
  const INT64_MAX := 0x7FFF_FFFF_FFFF_FFFF

  // What the data structures guarantee of a stored value: C strings, integers
  // of 64 bits, and no key twice in one object.
  predicate Stored(n: Node) {
    match n
    case NInteger(i) => INT64_MIN <= i <= INT64_MAX
    case NString(s) => NulFree(s)
    case NArray(items) => forall i :: 0 <= i < |items| ==> Stored(items[i])
    case NObject(pairs) =>
      && Distinct(pairs)
      && forall i :: 0 <= i < |pairs| ==> NulFree(pairs[i].key) && Stored(pairs[i].value)
    case _ => true
  }

  // Every string *value* is UTF-8; keys are not looked at.
  predicate ValuesUtf8(n: Node) {
    match n
    case NString(s) => Valid(s)
    case NArray(items) => forall i :: 0 <= i < |items| ==> ValuesUtf8(items[i])
    case NObject(pairs) => forall i :: 0 <= i < |pairs| ==> ValuesUtf8(pairs[i].value)
    case _ => true
  }

  // Every string is, keys included.
  predicate AllUtf8(n: Node) {
    match n
    case NString(s) => Valid(s)
    case NArray(items) => forall i :: 0 <= i < |items| ==> AllUtf8(items[i])
    case NObject(pairs) => forall i :: 0 <= i < |pairs| ==> Valid(pairs[i].key) && AllUtf8(pairs[i].value)
    case _ => true
  }

  // What a loaded value may consist of.
  predicate WellFormed(v: Json) {
    match v
    case Integer(i) => INT64_MIN <= i <= INT64_MAX
    case String(s) => NulFree(s) && Valid(s)
    case Array(items) => forall i :: 0 <= i < |items| ==> WellFormed(items[i])
    case Object(members) =>
      forall k :: k in members ==> NulFree(k) && Valid(k) && WellFormed(members[k])
    case _ => true
  }

  // json_object_get on the stored pairs.
  function Lookup(pairs: seq<Pair>, key: Bytes): (p: Node)
    requires exists i :: 0 <= i < |pairs| && pairs[i].key == key
    ensures exists i :: 0 <= i < |pairs| && pairs[i].key == key && pairs[i].value == p
  {
    if pairs[0].key == key then pairs[0].value
    else
      assert exists i :: 0 <= i < |pairs[1..]| && pairs[1..][i].key == key by {
        var i :| 0 <= i < |pairs| && pairs[i].key == key;
        assert pairs[1..][i - 1] == pairs[i];
      }
      Lookup(pairs[1..], key)
  }

  lemma LookupAt(pairs: seq<Pair>, i: nat)
    requires Distinct(pairs) && i < |pairs|
    ensures Lookup(pairs, pairs[i].key) == pairs[i].value
  {
  }

  predicate HasKey(pairs: seq<Pair>, key: Bytes) {
    exists i :: 0 <= i < |pairs| && pairs[i].key == key
  }

  lemma {:induction false} MembersOfPairs(pairs: seq<Pair>)
    ensures forall k :: k in MembersOf(pairs) <==> HasKey(pairs, k)
    ensures forall k :: k in MembersOf(pairs) ==> HasKey(pairs, k) && MembersOf(pairs)[k] == ValueOf(Lookup(pairs, k))
  {
    if pairs != [] {
      MembersOfPairs(pairs[1..]);
      forall k
        ensures HasKey(pairs, k) <==> k == pairs[0].key || HasKey(pairs[1..], k)
      {
        if i :| 0 <= i < |pairs| && pairs[i].key == k {
          if i > 0 { assert pairs[1..][i - 1] == pairs[i]; }
        }
        if i :| 0 <= i < |pairs[1..]| && pairs[1..][i].key == k {
          assert pairs[i + 1].key == k;
        }
      }
    }
  }

  lemma {:induction false} ItemsOfAt(items: seq<Node>, i: nat)
    requires i < |items|
    ensures ItemsOf(items)[i] == ValueOf(items[i])
  {
    if i > 0 { ItemsOfAt(items[1..], i - 1); }
  }

  // A stored value that could have been loaded is one whose strings are UTF-8.
  lemma {:induction false} WellFormedIffUtf8(n: Node)
    requires Stored(n)
    ensures WellFormed(ValueOf(n)) <==> AllUtf8(n)
    decreases n
  {
    match n
    case NArray(items) =>
      forall i | 0 <= i < |items|
        ensures WellFormed(ItemsOf(items)[i]) <==> AllUtf8(items[i])
      {
        ItemsOfAt(items, i);
        WellFormedIffUtf8(items[i]);
      }
    case NObject(pairs) =>
      MembersOfPairs(pairs);
      forall i | 0 <= i < |pairs|
        ensures pairs[i].key in MembersOf(pairs)
        ensures WellFormed(MembersOf(pairs)[pairs[i].key]) <==> AllUtf8(pairs[i].value)
      {
        assert HasKey(pairs, pairs[i].key);
        LookupAt(pairs, i);
        WellFormedIffUtf8(pairs[i].value);
      }
    case _ =>
  }
}
