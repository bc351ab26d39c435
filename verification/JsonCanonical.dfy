// JSON_SORT_KEYS makes the text of a value canonical, and what has been loaded
// once can be dumped and loaded for ever.

module JsonCanonical {
  import opened Octets
  import opened Wrappers
  import opened Utf8
  import opened JsonValue
  import opened JsonDump
  import opened JsonLex
  import opened JsonParse
  import opened JsonReal
  import opened JsonTheorems
  import R = JsonRoundTrip

  // --------------------------------------------- strcmp is a total order

  lemma {:induction false} KeyLessIsStrict(a: Bytes, b: Bytes)
    ensures !(KeyLess(a, b) && KeyLess(b, a))
  {
    if a != [] && b != [] { KeyLessIsStrict(a[1..], b[1..]); }
  }

  lemma {:induction false} KeyLessIsTotal(a: Bytes, b: Bytes)
    ensures KeyLess(a, b) || KeyLess(b, a) || a == b
  {
    if a != [] && b != [] && a[0] == b[0] {
      KeyLessIsTotal(a[1..], b[1..]);
      assert a == [a[0]] + a[1..] && b == [b[0]] + b[1..];
    }
  }

  lemma {:induction false} KeyLessIsTransitive(a: Bytes, b: Bytes, c: Bytes)
    requires KeyLess(a, b) && KeyLess(b, c)
    ensures KeyLess(a, c)
  {
    if a != [] && a[0] == b[0] == c[0] {
      KeyLessIsTransitive(a[1..], b[1..], c[1..]);
    }
  }

  // ------------------------------------------------------- what qsort leaves

  predicate Ascending(order: seq<ObjectKey>) {
    forall i, j :: 0 <= i < j < |order| ==> KeyLess(order[i].key, order[j].key)
  }

  predicate AllAbove(key: Bytes, order: seq<ObjectKey>) {
    forall i :: 0 <= i < |order| ==> KeyLess(key, order[i].key)
  }

  lemma AscendingCons(k: ObjectKey, order: seq<ObjectKey>)
    requires Ascending(order) && AllAbove(k.key, order)
    ensures Ascending([k] + order)
  {
  }

  lemma AboveOfHead(k: ObjectKey, order: seq<ObjectKey>)
    requires Ascending(order) && order != [] && KeyLess(k.key, order[0].key)
    ensures AllAbove(k.key, order)
  {
    forall i | 0 < i < |order| ensures KeyLess(k.key, order[i].key) {
      KeyLessIsTransitive(k.key, order[0].key, order[i].key);
    }
  }

  lemma AboveInserted(key: Bytes, k: ObjectKey, order: seq<ObjectKey>)
    requires AllAbove(key, order) && KeyLess(key, k.key)
    ensures AllAbove(key, InsertKey(k, order, true))
  {
    var r := InsertKey(k, order, true);
    forall i | 0 <= i < |r| ensures KeyLess(key, r[i].key) {
      assert r[i] in multiset(r);
      assert r[i] == k || r[i] in order;
    }
  }

  lemma {:induction false} InsertedAscends(k: ObjectKey, order: seq<ObjectKey>)
    requires Ascending(order) && !R.Ordered(order, k.key)
    ensures Ascending(InsertKey(k, order, true))
    decreases |order|
  {
    if order == [] {
    } else if KeyLess(k.key, order[0].key) {
      AboveOfHead(k, order);
      AscendingCons(k, order);
    } else {
      KeyLessIsTotal(k.key, order[0].key);
      assert order[0].key != k.key;
      assert forall i :: 0 <= i < |order[1..]| ==> order[1..][i] == order[i + 1];
      InsertedAscends(k, order[1..]);
      AboveInserted(order[0].key, k, order[1..]);
      AscendingCons(order[0], InsertKey(k, order[1..], true));
    }
  }

  lemma {:induction false} SortedAscends(keys: seq<ObjectKey>)
    requires R.DistinctKeys(keys)
    ensures Ascending(SortedKeys(keys, true))
  {
    if keys != [] {
      var sorted := SortedKeys(keys[1..], true);
      SortedAscends(keys[1..]);
      forall i | 0 <= i < |sorted| ensures sorted[i].key != keys[0].key {
        assert sorted[i] in multiset(sorted);
        assert sorted[i] in keys[1..];
      }
      InsertedAscends(keys[0], sorted);
    }
  }

  predicate SameKeys(a: seq<ObjectKey>, b: seq<ObjectKey>) {
    |a| == |b| && forall i :: 0 <= i < |a| ==> a[i].key == b[i].key
  }

  lemma HeadIsLeast(a: seq<ObjectKey>, b: seq<ObjectKey>)
    requires Ascending(a) && Ascending(b) && a != [] && b != []
    requires R.Ordered(b, a[0].key) && R.Ordered(a, b[0].key)
    ensures a[0].key == b[0].key
  {
    var i :| 0 <= i < |b| && b[i].key == a[0].key;
    var j :| 0 <= j < |a| && a[j].key == b[0].key;
    KeyLessIsStrict(a[0].key, b[0].key);
  }

  lemma TailKeys(a: seq<ObjectKey>, k: Bytes)
    requires Ascending(a) && a != []
    ensures R.Ordered(a[1..], k) <==> R.Ordered(a, k) && k != a[0].key
  {
    if i :| 0 <= i < |a| && a[i].key == k && k != a[0].key { assert a[1..][i - 1] == a[i]; }
    if i :| 0 <= i < |a[1..]| && a[1..][i].key == k {
      assert a[i + 1].key == k;
      KeyLessIsStrict(a[0].key, k);
    }
  }

  // One set of keys has one ascending order.
  lemma {:induction false} AscendingIsUnique(a: seq<ObjectKey>, b: seq<ObjectKey>)
    requires Ascending(a) && Ascending(b)
    requires forall k :: R.Ordered(a, k) <==> R.Ordered(b, k)
    ensures SameKeys(a, b)
  {
    if a == [] {
      if b != [] { assert R.Ordered(b, b[0].key); }
    } else {
      assert R.Ordered(a, a[0].key);
      assert b != [];
      assert R.Ordered(b, b[0].key);
      HeadIsLeast(a, b);
      forall k ensures R.Ordered(a[1..], k) <==> R.Ordered(b[1..], k) {
        TailKeys(a, k);
        TailKeys(b, k);
      }
      AscendingIsUnique(a[1..], b[1..]);
      assert forall i :: 0 < i < |a| ==> a[i] == a[1..][i - 1];
      assert forall i :: 0 < i < |b| ==> b[i] == b[1..][i - 1];
    }
  }

  lemma KeyOrderAscends(pairs: seq<Pair>, flags: Flags)
    requires Distinct(pairs) && flags.sortKeys
    ensures Ascending(KeyOrder(pairs, flags))
  {
    assert R.DistinctKeys(KeysOf(pairs));
    SortedAscends(KeysOf(pairs));
  }

  lemma EqualObjectsSameOrder(a: seq<Pair>, b: seq<Pair>, flags: Flags)
    requires Distinct(a) && Distinct(b) && flags.sortKeys && MembersOf(a) == MembersOf(b)
    ensures SameKeys(KeyOrder(a, flags), KeyOrder(b, flags))
  {
    KeyOrderAscends(a, flags);
    KeyOrderAscends(b, flags);
    MembersOfPairs(a);
    MembersOfPairs(b);
    forall k ensures R.Ordered(KeyOrder(a, flags), k) <==> R.Ordered(KeyOrder(b, flags), k) {
      R.OrderCovers(a, flags, k);
      R.OrderCovers(b, flags, k);
    }
    AscendingIsUnique(KeyOrder(a, flags), KeyOrder(b, flags));
  }

  // ------------------------------------------------------ the canonical text

  // With sorted keys, values that json_equal calls equal have one text: neither
  // the order of the hash table nor that of insertion shows.
  lemma {:induction false} SortedDumpIsCanonical(a: Node, b: Node, flags: Flags, depth: nat)
    requires Stored(a) && Stored(b) && flags.sortKeys && ValueOf(a) == ValueOf(b)
    ensures Dump(a, flags, depth) == Dump(b, flags, depth)
    decreases a, 1, 0
  {
    match a
    case NArray(items) =>
      assert |items| == |b.items| by { assert ItemsOf(items) == ItemsOf(b.items); }
      if items != [] { SameItems(a, b, 0, flags, depth); }
    case NObject(pairs) =>
      EqualObjectsSameOrder(pairs, b.pairs, flags);
      if pairs != [] {
        SameMembers(a, b, KeyOrder(pairs, flags), KeyOrder(b.pairs, flags), flags, depth);
      }
    case _ =>
  }

  lemma {:induction false} SameItems(a: Node, b: Node, i: nat, flags: Flags, depth: nat)
    requires Stored(a) && Stored(b) && flags.sortKeys && ValueOf(a) == ValueOf(b)
    requires a.NArray? && b.NArray? && i < |a.items| == |b.items|
    ensures DumpItems(a, i, flags, depth) == DumpItems(b, i, flags, depth)
    decreases a, 0, |a.items| - i
  {
    ItemsOfAt(a.items, i);
    ItemsOfAt(b.items, i);
    SortedDumpIsCanonical(a.items[i], b.items[i], flags, depth + 1);
    if i + 1 < |a.items| { SameItems(a, b, i + 1, flags, depth); }
  }

  lemma {:induction false} SameMembers(a: Node, b: Node, x: seq<ObjectKey>, y: seq<ObjectKey>, flags: Flags, depth: nat)
    requires Stored(a) && Stored(b) && flags.sortKeys && ValueOf(a) == ValueOf(b)
    requires a.NObject? && b.NObject? && x != [] && SameKeys(x, y)
    requires forall i :: 0 <= i < |x| ==> HasKey(a.pairs, x[i].key)
    requires forall i :: 0 <= i < |y| ==> HasKey(b.pairs, y[i].key)
    ensures DumpMembers(a, x, flags, depth) == DumpMembers(b, y, flags, depth)
    decreases a, 0, |x|
  {
    var key := x[0].key;
    assert key == y[0].key;
    MemberValues(a.pairs, b.pairs, key);
    SortedDumpIsCanonical(Lookup(a.pairs, key), Lookup(b.pairs, key), flags, depth + 1);
    if |x| > 1 {
      assert SameKeys(x[1..], y[1..]);
      SameMembers(a, b, x[1..], y[1..], flags, depth);
    }
  }

  lemma MemberValues(a: seq<Pair>, b: seq<Pair>, key: Bytes)
    requires HasKey(a, key) && HasKey(b, key) && MembersOf(a) == MembersOf(b)
    ensures ValueOf(Lookup(a, key)) == ValueOf(Lookup(b, key))
  {
    MembersOfPairs(a);
    MembersOfPairs(b);
  }

  // ----------------------------------------------------------------- fixpoint

  // Whatever json_loads made of a text, dumping it -- from any stored form of
  // it, under any flags -- and loading that changes nothing any more, if and only if
  // its numbers are read back as themselves.
  lemma LoadedIsStable(text: Bytes, first: LoadFlags, n: Node, flags: Flags, lf: LoadFlags, strtod: Bytes -> Option<Double>)
    requires NulFree(text) && Stored(n) && Load(text, first, strtod) == Some(ValueOf(n))
    requires Container(n) || (flags.encodeAny && lf.decodeAny)
    ensures DumpText(n, flags).Some?
    ensures Load(DumpText(n, flags).value, lf, strtod) == Some(ValueOf(n)) <==> ReadsSame(n, lf, strtod)
  {
    LoadedIsWellFormed(text, first, strtod);
    WellFormedIffUtf8(n);
    DumpedLoads(n, flags, lf, strtod);
    RoundTrip(n, flags, lf, strtod);
  }

  // An object whose one key is the byte 0xFF: json_dumps reports success, and
  // its text is not that object's. (dump_string's result goes unused for keys.)
  lemma BadKeyIsDumpedWrong(flags: Flags, lf: LoadFlags, strtod: Bytes -> Option<Double>)
    ensures var n := NObject([Pair([0xFF], 0, NNull)]);
            && Stored(n)
            && DumpText(n, flags).Some?
            && Load(DumpText(n, flags).value, lf, strtod) != Some(ValueOf(n))
  {
    var pair := Pair([0xFF], 0, NNull);
    var n := NObject([pair]);
    assert n.pairs[0] == pair;
    assert !Valid([0xFF]);
    assert !AllUtf8(n);
    DumpsIffValuesUtf8(n, flags, 0);
    RoundTrip(n, flags, lf, strtod);
  }
}
