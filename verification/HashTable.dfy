// compat/jansson/hashtable.c: the table behind an object. All of its pairs hang
// on one circular list, the pairs of a bucket side by side, and a bucket is no
// more than the two ends of its stretch.

module HashTable {
  import opened Closed
  import opened Octets
  import opened Wrappers
  import opened Utf8
  import opened JsonValue

  const PRIMES: seq<nat> := [
    5, 13, 23, 53, 97, 193, 389, 769, 1543, 3079, 6151, 12289, 24593,
    49157, 98317, 196613, 393241, 786433, 1572869, 3145739, 6291469,
    12582917, 25165843, 50331653, 100663319, 201326611, 402653189,
    805306457, 1610612741]

  // Each a larger one than the one before, by a factor of no more than three.
  lemma PrimesGrow(k: nat)
    requires k + 1 < |PRIMES|
    ensures PRIMES[k] < PRIMES[k + 1] <= 3 * PRIMES[k]
  {
  }

  const WORD := 0x1_0000_0000_0000_0000

  // A char widened to size_t, its sign with it.
  function Widened(b: byte): (c: nat)
    ensures c < WORD
  {
    if b < 0x80 then b else WORD - 0x100 + b
  }

  function HashFrom(seed: nat, s: Bytes): nat
    decreases |s|
  {
    if s == [] then seed else HashFrom((seed * 33 + Widened(s[0])) % WORD, s[1..])
  }

  function Hash(s: Bytes): nat {
    HashFrom(5381, s)
  }

  // hash_str
  method HashStr(key: Bytes) returns (hash: nat)
    ensures hash == Hash(key)
  {
    hash := 5381;
    var i := 0;
    while i < |key|
      invariant i <= |key| && HashFrom(hash, key[i..]) == Hash(key)
    {
      assert key[i..][1..] == key[i + 1..];
      hash := (hash * 33 + Widened(key[i])) % WORD;
      i := i + 1;
    }
  }

  // A list node with the pair it is part of; the head of the list has none.
  class Link {
    var prev: Link
    var next: Link
    const key: Bytes
    const hash: nat
    const serial: nat
    var value: Node

    // list_init
    constructor (key: Bytes, hash: nat, serial: nat, value: Node)
      ensures this.key == key && this.hash == hash && this.serial == serial && this.value == value
      ensures prev == next == this
    {
      this.key, this.hash, this.serial, this.value := key, hash, serial, value;
      prev, next := this, this;
    }
  }

  datatype Bucket = Bucket(first: Link, last: Link)

  datatype Entry = Entry(serial: nat, value: Node)

  // ----------------------------------------------------------- the one list

  ghost predicate AllDifferent(walk: seq<Link>) {
    forall i, j :: 0 <= i < j < |walk| - 1 ==> walk[i] != walk[j]
  }

  // `walk` goes once round the list: from its head along next, back to the head.
  ghost predicate Linked(walk: seq<Link>)
    reads walk`prev, walk`next
  {
    && |walk| >= 2 && walk[0] == walk[|walk| - 1] && AllDifferent(walk)
    && (forall i {:trigger walk[i].next} :: 0 <= i < |walk| - 1 ==> walk[i].next == walk[i + 1])
    && (forall i {:trigger walk[i].prev} :: 0 < i < |walk| ==> walk[i].prev == walk[i - 1])
  }

  function Inserted(walk: seq<Link>, p: nat, node: Link): seq<Link>
    requires p <= |walk|
  {
    walk[..p] + [node] + walk[p..]
  }

  function Removed(walk: seq<Link>, p: nat): seq<Link>
    requires p < |walk|
  {
    walk[..p] + walk[p + 1..]
  }

  // The pairs at the first `j - 1` nodes past the head.
  ghost function Before(walk: seq<Link>, j: nat): set<Link>
    requires j <= |walk|
  {
    set i | 1 <= i < j :: walk[i]
  }

  ghost function Pairs(walk: seq<Link>): set<Link>
    requires walk != []
  {
    Before(walk, |walk| - 1)
  }

  lemma InsertedAt(walk: seq<Link>, p: nat, node: Link)
    requires p <= |walk|
    ensures var r := Inserted(walk, p, node);
            && |r| == |walk| + 1
            && forall i :: 0 <= i < |r| ==> r[i] == if i < p then walk[i] else if i == p then node else walk[i - 1]
  {
  }

  lemma InsertedIn(walk: seq<Link>, p: nat, node: Link)
    requires p <= |walk|
    ensures forall i :: 0 <= i < |walk| + 1 ==> Inserted(walk, p, node)[i] == node || Inserted(walk, p, node)[i] in walk
  {
    InsertedAt(walk, p, node);
  }

  lemma InsertedPairs(walk: seq<Link>, p: nat, node: Link)
    requires 1 <= p < |walk|
    ensures Pairs(Inserted(walk, p, node)) == Pairs(walk) + {node}
  {
    var r := Inserted(walk, p, node);
    InsertedAt(walk, p, node);
    forall x | x in Pairs(walk) + {node} ensures x in Pairs(r) {
      if x == node {
        assert r[p] == node;
      } else {
        var i :| 1 <= i < |walk| - 1 && walk[i] == x;
        assert r[if i < p then i else i + 1] == x;
      }
    }
  }

  lemma RemovedAt(walk: seq<Link>, p: nat)
    requires p < |walk|
    ensures var r := Removed(walk, p);
            && |r| == |walk| - 1
            && forall i :: 0 <= i < |r| ==> r[i] == if i < p then walk[i] else walk[i + 1]
  {
  }

  lemma RemovedIn(walk: seq<Link>, p: nat)
    requires p < |walk|
    ensures forall i :: 0 <= i < |walk| - 1 ==> Removed(walk, p)[i] in walk
  {
    RemovedAt(walk, p);
  }

  lemma RemovedPairs(walk: seq<Link>, p: nat)
    requires 1 <= p < |walk| - 1 && AllDifferent(walk)
    ensures Pairs(Removed(walk, p)) == Pairs(walk) - {walk[p]}
  {
    var r := Removed(walk, p);
    RemovedAt(walk, p);
    forall x | x in Pairs(walk) - {walk[p]} ensures x in Pairs(r) {
      var i :| 1 <= i < |walk| - 1 && walk[i] == x;
      assert r[if i < p then i else i - 1] == x;
    }
  }

  lemma OneMoreBefore(was: seq<Link>, j: nat)
    requires 1 <= j < |was|
    ensures Before(was, j + 1) == Before(was, j) + {was[j]}
  {
  }

  // list_insert, before the node at `p`.
  method ListInsert(list: Link, node: Link, ghost walk: seq<Link>, ghost p: nat)
    requires Linked(walk) && 1 <= p < |walk| && node !in walk && list == walk[p]
    modifies node`prev, node`next, list`prev, list.prev`next
    ensures Linked(Inserted(walk, p, node))
  {
    assert list.prev == walk[p - 1];
    node.next := list;
    node.prev := list.prev;
    list.prev.next := node;
    list.prev := node;
    ghost var r := Inserted(walk, p, node);
    InsertedAt(walk, p, node);
    forall i | 0 <= i < |r| - 1 ensures r[i].next == r[i + 1] {
      assert i < p ==> old(walk[i].next) == walk[i + 1];
      assert i > p ==> old(walk[i - 1].next) == walk[i];
    }
    forall i | 0 < i < |r| ensures r[i].prev == r[i - 1] {
      assert i < p ==> old(walk[i].prev) == walk[i - 1];
      assert i > p + 1 ==> old(walk[i - 1].prev) == walk[i - 2];
    }
  }

  // list_remove
  method ListRemove(node: Link, ghost walk: seq<Link>, ghost p: nat)
    requires Linked(walk) && 1 <= p < |walk| - 1 && node == walk[p]
    modifies node.prev`next, node.next`prev
    ensures Linked(Removed(walk, p))
  {
    assert node.prev == walk[p - 1] && node.next == walk[p + 1];
    node.prev.next := node.next;
    node.next.prev := node.prev;
    ghost var r := Removed(walk, p);
    RemovedAt(walk, p);
    forall i | 0 <= i < |r| - 1 ensures r[i].next == r[i + 1] {
      assert i < p ==> old(walk[i].next) == walk[i + 1];
      assert i >= p ==> old(walk[i + 1].next) == walk[i + 2];
    }
    forall i | 0 < i < |r| ensures r[i].prev == r[i - 1] {
      assert i < p ==> old(walk[i].prev) == walk[i - 1];
      assert i > p ==> old(walk[i + 1].prev) == walk[i];
    }
  }

  // ------------------------------------------------------------- stretches

  function Home(x: Link, n: nat): (b: nat)
    requires n > 0
    ensures b < n
  {
    x.hash % n
  }

  // The pairs of bucket `b` are those from `lo` up to `hi`.
  ghost predicate Stretch(walk: seq<Link>, n: nat, b: nat, bucket: Bucket, lo: nat, hi: nat)
    requires n > 0
  {
    && 1 <= lo <= hi < |walk|
    && (forall i :: 1 <= i < |walk| - 1 ==> (Home(walk[i], n) == b <==> lo <= i < hi))
    && bucket == if lo == hi then Bucket(walk[0], walk[0]) else Bucket(walk[lo], walk[hi - 1])
  }

  ghost predicate Bucketed(walk: seq<Link>, n: nat, b: nat, bucket: Bucket)
    requires n > 0
  {
    exists lo: nat, hi: nat :: Stretch(walk, n, b, bucket, lo, hi)
  }

  // Every bucket is one stretch of the list.
  ghost predicate Grouped(walk: seq<Link>, buckets: seq<Bucket>) {
    forall b :: 0 <= b < |buckets| ==> Bucketed(walk, |buckets|, b, buckets[b])
  }

  lemma InsertOwn(walk: seq<Link>, n: nat, b: nat, bucket: Bucket, lo: nat, hi: nat, node: Link)
    requires n > 0 && Stretch(walk, n, b, bucket, lo, hi) && Home(node, n) == b
    ensures lo < hi ==> Bucketed(Inserted(walk, lo, node), n, b, Bucket(node, bucket.last))
    ensures lo == hi ==> Bucketed(Inserted(walk, |walk| - 1, node), n, b, Bucket(node, node))
  {
    if lo < hi {
      InsertedAt(walk, lo, node);
      assert Stretch(Inserted(walk, lo, node), n, b, Bucket(node, bucket.last), lo, hi + 1);
    } else {
      InsertedAt(walk, |walk| - 1, node);
      assert Stretch(Inserted(walk, |walk| - 1, node), n, b, Bucket(node, node), |walk| - 1, |walk|);
    }
  }

  lemma InsertOther(walk: seq<Link>, n: nat, c: nat, bucket: Bucket, p: nat, node: Link)
    requires n > 0 && 1 <= p < |walk| && Home(node, n) != c
    requires Bucketed(walk, n, c, bucket)
    requires p < |walk| - 1 ==> p == 1 || Home(walk[p - 1], n) != Home(walk[p], n)
    ensures Bucketed(Inserted(walk, p, node), n, c, bucket)
  {
    var lo: nat, hi: nat :| Stretch(walk, n, c, bucket, lo, hi);
    InsertedAt(walk, p, node);
    var r := Inserted(walk, p, node);
    if lo < hi {
      if p <= lo {
        assert Stretch(r, n, c, bucket, lo + 1, hi + 1);
      } else {
        assert Stretch(r, n, c, bucket, lo, hi);
      }
    } else {
      assert Stretch(r, n, c, bucket, 1, 1);
    }
  }

  // Where a pair of bucket `b` goes, and what that makes of the bucket.
  lemma InsertGroups(walk: seq<Link>, buckets: seq<Bucket>, b: nat, node: Link, lo: nat, hi: nat) returns (p: nat)
    requires b < |buckets| && Grouped(walk, buckets) && Home(node, |buckets|) == b
    requires Stretch(walk, |buckets|, b, buckets[b], lo, hi)
    ensures p == if lo < hi then lo else |walk| - 1
    ensures Grouped(Inserted(walk, p, node), buckets[b := Bucket(node, if lo < hi then buckets[b].last else node)])
  {
    var n := |buckets|;
    p := if lo < hi then lo else |walk| - 1;
    InsertOwn(walk, n, b, buckets[b], lo, hi, node);
    forall c | 0 <= c < n && c != b ensures Bucketed(Inserted(walk, p, node), n, c, buckets[c]) {
      InsertOther(walk, n, c, buckets[c], p, node);
    }
  }

  // What hashtable_do_del leaves of a bucket whose pair at `p` goes.
  function Shrunk(walk: seq<Link>, p: nat, bucket: Bucket): Bucket
    requires 1 <= p < |walk| - 1
  {
    if walk[p] == bucket.first && walk[p] == bucket.last then Bucket(walk[0], walk[0])
    else if walk[p] == bucket.first then Bucket(walk[p + 1], bucket.last)
    else if walk[p] == bucket.last then Bucket(bucket.first, walk[p - 1])
    else bucket
  }

  lemma RemoveOwn(walk: seq<Link>, n: nat, b: nat, bucket: Bucket, p: nat)
    requires n > 0 && 1 <= p < |walk| - 1 && Home(walk[p], n) == b && Bucketed(walk, n, b, bucket)
    requires AllDifferent(walk)
    ensures Bucketed(Removed(walk, p), n, b, Shrunk(walk, p, bucket))
  {
    var lo: nat, hi: nat :| Stretch(walk, n, b, bucket, lo, hi);
    RemovedAt(walk, p);
    assert Stretch(Removed(walk, p), n, b, Shrunk(walk, p, bucket), lo, hi - 1);
  }

  lemma RemoveGroups(walk: seq<Link>, buckets: seq<Bucket>, p: nat)
    requires 1 <= p < |walk| - 1 && buckets != [] && Grouped(walk, buckets) && AllDifferent(walk)
    ensures var b := Home(walk[p], |buckets|);
            Grouped(Removed(walk, p), buckets[b := Shrunk(walk, p, buckets[b])])
  {
    var n := |buckets|;
    var b := Home(walk[p], n);
    RemoveOwn(walk, n, b, buckets[b], p);
    forall c | 0 <= c < n && c != b ensures Bucketed(Removed(walk, p), n, c, buckets[c]) {
      RemoveOther(walk, n, c, buckets[c], p);
    }
  }

  lemma RemoveOther(walk: seq<Link>, n: nat, c: nat, bucket: Bucket, p: nat)
    requires n > 0 && 1 <= p < |walk| - 1 && Home(walk[p], n) != c && Bucketed(walk, n, c, bucket)
    ensures Bucketed(Removed(walk, p), n, c, bucket)
  {
    var lo: nat, hi: nat :| Stretch(walk, n, c, bucket, lo, hi);
    RemovedAt(walk, p);
    var r := Removed(walk, p);
    if lo == hi {
      assert Stretch(r, n, c, bucket, 1, 1);
    } else if p < lo {
      assert Stretch(r, n, c, bucket, lo - 1, hi - 1);
    } else {
      assert Stretch(r, n, c, bucket, lo, hi);
    }
  }

  lemma EmptyGroups(walk: seq<Link>, buckets: seq<Bucket>)
    requires |walk| == 2 && forall b :: 0 <= b < |buckets| ==> buckets[b] == Bucket(walk[0], walk[0])
    ensures Grouped(walk, buckets)
  {
    forall b | 0 <= b < |buckets| ensures Bucketed(walk, |buckets|, b, buckets[b]) {
      assert Stretch(walk, |buckets|, b, buckets[b], 1, 1);
    }
  }

  // -------------------------------------------------------------- the table

  // The pairs are one a key, and `index` knows which.
  ghost predicate Named(index: map<Bytes, Link>, pairs: set<Link>) {
    && (forall k :: k in index ==> index[k] in pairs && index[k].key == k)
    && (forall x :: x in pairs ==> x.key in index && index[x.key] == x)
  }

  // The map the table stands for is what the pairs say.
  ghost predicate Tied(index: map<Bytes, Link>, pairs: set<Link>, contents: map<Bytes, Entry>)
    reads pairs`value
  {
    && index.Keys == contents.Keys
    && forall k :: k in index ==> index[k] in pairs && contents[k] == Entry(index[k].serial, index[k].value)
  }

  lemma NameAdded(index: map<Bytes, Link>, pairs: set<Link>, x: Link)
    requires Named(index, pairs) && x.key !in index
    ensures Named(index[x.key := x], pairs + {x}) && |index[x.key := x]| == |index| + 1
  {
  }

  lemma NameRemoved(index: map<Bytes, Link>, pairs: set<Link>, key: Bytes)
    requires Named(index, pairs) && key in index
    ensures Named(index - {key}, pairs - {index[key]}) && |index - {key}| == |index| - 1
  {
    assert (index - {key}).Keys == index.Keys - {key};
    assert index == (index - {key})[key := index[key]];
  }

  lemma TieAdded(index: map<Bytes, Link>, pairs: set<Link>, contents: map<Bytes, Entry>, x: Link)
    requires Tied(index, pairs, contents) && Named(index, pairs) && x.key !in index
    ensures Tied(index[x.key := x], pairs + {x}, contents[x.key := Entry(x.serial, x.value)])
  {
  }

  lemma TieRemoved(index: map<Bytes, Link>, pairs: set<Link>, contents: map<Bytes, Entry>, key: Bytes)
    requires Tied(index, pairs, contents) && Named(index, pairs) && key in index
    ensures Tied(index - {key}, pairs - {index[key]}, contents - {key})
  {
  }

  class Table {
    var size: nat
    var order: nat               // which prime: the table's num_buckets
    var buckets: array<Bucket>
    const list: Link             // the head
    ghost var walk: seq<Link>
    ghost var index: map<Bytes, Link>
    ghost var contents: map<Bytes, Entry>   // the map the table stands for

    ghost predicate Shape()
      reads this`order, this`buckets, this`walk, buckets, walk`prev, walk`next
    {
      && order < |PRIMES| && buckets.Length == PRIMES[order] > 0
      && Linked(walk) && walk[0] == list
      && (forall i :: 1 <= i < |walk| - 1 ==> walk[i].hash == Hash(walk[i].key))
      && Grouped(walk, buckets[..])
    }

    ghost predicate Sound()
      reads this`order, this`buckets, this`walk, buckets, walk`prev, walk`next
    {
      && order < |PRIMES| && buckets.Length == PRIMES[order] > 0 && |walk| >= 2
      && (forall u: int {:trigger Opened(0, u)} :: Opened(0, u) ==> Shape())
    }

    // The map, of the pairs on the list.
    ghost predicate Index(pairs: set<Link>)
      reads this`index, this`contents, pairs`value
    {
      Named(index, pairs) && Tied(index, pairs, contents)
    }

    ghost predicate Indexed(pairs: set<Link>)
      reads this`index, this`contents, pairs`value
    {
      forall u: int {:trigger Opened(1, u)} :: Opened(1, u) ==> Index(pairs)
    }

    ghost predicate Valid()
      reads this, buckets, walk
    {
      Sound() && size == |index| == |walk| - 2 && Indexed(Pairs(walk))
    }

    constructor ()
      ensures Valid() && fresh(buckets) && fresh(walk) && contents == map[]
      ensures size == 0 && buckets.Length == 5
    {
      var head := new Link([], 0, 0, NNull);
      list := head;
      size := 0;
      order := 0;
      buckets := new Bucket[PRIMES[0]](_ => Bucket(head, head));
      walk := [head, head];
      index := map[];
      contents := map[];
      new;
      EmptyGroups(walk, buckets[..]);
      assert Opened(0, 0) && Opened(1, 0);
    }

    // bucket_is_empty
    method IsEmpty(b: nat, ghost lo: nat, ghost hi: nat) returns (empty: bool)
      requires Shape() && b < buckets.Length && Stretch(walk, buckets.Length, b, buckets[b], lo, hi)
      ensures empty <==> lo == hi
    {
      return buckets[b].first == list && buckets[b].first == buckets[b].last;
    }

    // insert_to_bucket
    method InsertToBucket(b: nat, node: Link)
      requires Sound() && b < buckets.Length && node !in walk
      requires Home(node, buckets.Length) == b && node.hash == Hash(node.key)
      modifies this`walk, buckets, node`prev, node`next, walk`prev, walk`next
      ensures Sound() && |walk| == |old(walk)| + 1 && Pairs(walk) == old(Pairs(walk)) + {node}
      ensures forall i :: 0 <= i < |walk| ==> walk[i] == node || walk[i] in old(walk)
    {
      assert Opened(0, 0);
      ghost var was, before := walk, buckets[..];
      assert Bucketed(walk, buckets.Length, b, before[b]);
      ghost var lo: nat, hi: nat :| Stretch(walk, buckets.Length, b, before[b], lo, hi);
      ghost var p := InsertGroups(walk, before, b, node, lo, hi);
      PutInFront(b, node, lo, hi, p);
      walk := Inserted(was, p, node);
      Spliced(was, p, node);
    }

    method PutInFront(b: nat, node: Link, ghost lo: nat, ghost hi: nat, ghost p: nat)
      requires Shape() && b < buckets.Length && node !in walk && Stretch(walk, buckets.Length, b, buckets[b], lo, hi)
      requires p == if lo < hi then lo else |walk| - 1
      modifies buckets, node`prev, node`next, walk`prev, walk`next
      ensures Linked(Inserted(walk, p, node))
      ensures buckets[..] == old(buckets[..])[b := Bucket(node, if lo < hi then old(buckets[b]).last else node)]
    {
      var empty := IsEmpty(b, lo, hi);
      if empty {
        ListInsert(list, node, walk, p);
        buckets[b] := Bucket(node, node);
      } else {
        ListInsert(buckets[b].first, node, walk, p);
        buckets[b] := Bucket(node, buckets[b].last);
      }
    }

    lemma Spliced(was: seq<Link>, p: nat, node: Link)
      requires order < |PRIMES| && buckets.Length == PRIMES[order] > 0
      requires 1 <= p < |was| && was[0] == list && walk == Inserted(was, p, node) && Linked(walk)
      requires node.hash == Hash(node.key) && forall i :: 1 <= i < |was| - 1 ==> was[i].hash == Hash(was[i].key)
      requires Grouped(walk, buckets[..])
      ensures Sound() && |walk| == |was| + 1 && Pairs(walk) == Pairs(was) + {node}
      ensures forall i :: 0 <= i < |walk| ==> walk[i] == node || walk[i] in was
    {
      InsertedAt(was, p, node);
      forall i | 1 <= i < |walk| - 1 ensures walk[i].hash == Hash(walk[i].key) {
      }
      InsertedIn(was, p, node);
      InsertedPairs(was, p, node);
      assert Opened(0, 0);
    }

    // hashtable_find_pair
    method FindPair(b: nat, key: Bytes, hash: nat) returns (pair: Link?)
      requires Valid() && hash == Hash(key) && b == hash % buckets.Length
      ensures pair == null <==> key !in contents
      ensures pair != null ==> pair in Pairs(walk) && pair.key == key && pair.hash == hash
      ensures pair != null ==> contents[key] == Entry(pair.serial, pair.value)
    {
      pair := Search(b, key, hash);
      assert Opened(1, 0);
    }

    method Search(b: nat, key: Bytes, hash: nat) returns (pair: Link?)
      requires Sound() && hash == Hash(key) && b == hash % buckets.Length
      ensures pair == null ==> forall x :: x in Pairs(walk) ==> x.key != key
      ensures pair != null ==> pair in Pairs(walk) && pair.key == key && pair.hash == hash
    {
      assert Opened(0, 0);
      assert Bucketed(walk, buckets.Length, b, buckets[..][b]);
      ghost var lo: nat, hi: nat :| Stretch(walk, buckets.Length, b, buckets[b], lo, hi);
      var empty := IsEmpty(b, lo, hi);
      if empty {
        return null;
      }
      var link := buckets[b].first;
      ghost var i := lo;
      while true
        invariant lo <= i < hi && link == walk[i]
        invariant forall j :: lo <= j < i ==> walk[j].key != key
        decreases hi - i
      {
        if link.hash == hash && link.key == key {
          return link;
        }
        if link == buckets[b].last {
          return null;
        }
        link := link.next;
        i := i + 1;
      }
    }

    // The first `j - 1` pairs of the old list are on the new one; the others
    // still follow each other.
    ghost predicate Refiled(was: seq<Link>, j: nat)
      reads this`order, this`buckets, this`walk, buckets, walk`prev, walk`next, was`next
    {
      && 1 <= j < |was| && was[0] == was[|was| - 1] == list && AllDifferent(was)
      && Sound() && |walk| == j + 1 && Pairs(walk) == Before(was, j)
      && (forall i :: 0 <= i < |walk| ==> walk[i] in was[..j])
      && (forall i :: 1 <= i < |was| - 1 ==> was[i].hash == Hash(was[i].key))
      && (forall i {:trigger was[i].next} :: j <= i < |was| - 1 ==> was[i].next == was[i + 1])
    }

    method Refile(link: Link, ghost was: seq<Link>, ghost j: nat)
      requires Refiled(was, j) && link == was[j] != list
      modifies this`walk, buckets, link`prev, link`next, walk`prev, walk`next
      ensures Refiled(was, j + 1)
    {
      forall i | j <= i < |was| - 1 ensures was[i] !in walk && (i > j ==> was[i] != link) {
        assert was[i] !in was[..j];
      }
      ghost var before := walk;
      InsertToBucket(link.hash % buckets.Length, link);
      OneMoreBefore(was, j);
      assert was[..j + 1] == was[..j] + [link];
    }

    // The new buckets, and nothing in them.
    method StartOver() returns (link: Link)
      requires Shape() && order + 1 < |PRIMES|
      modifies this`order, this`buckets, this`walk, list`prev, list`next
      ensures Refiled(old(walk), 1) && link == old(walk)[1]
      ensures fresh(buckets) && order == old(order) + 1
    {
      var head := list;
      order := order + 1;
      buckets := new Bucket[PRIMES[order]](_ => Bucket(head, head));
      link := list.next;
      list.prev, list.next := list, list;
      walk := [list, list];
      EmptyGroups(walk, buckets[..]);
      assert Opened(0, 0);
    }

    // hashtable_do_rehash: the old list is followed along while its nodes are
    // taken into the new one.
    method Rehash()
      requires Sound() && order + 1 < |PRIMES|
      modifies this`order, this`buckets, this`walk, walk`prev, walk`next
      ensures Sound() && order == old(order) + 1 && fresh(buckets)
      ensures |walk| == |old(walk)| && Pairs(walk) == old(Pairs(walk))
      ensures forall i :: 0 <= i < |walk| ==> walk[i] in old(walk)
    {
      assert Opened(0, 0);
      ghost var was := walk;
      var link := StartOver();
      ghost var j := 1;
      while link != list
        invariant Refiled(was, j) && link == was[j]
        invariant fresh(buckets) && order == old(order) + 1
        decreases |was| - j
      {
        var next := link.next;
        Refile(link, was, j);
        link := next;
        j := j + 1;
      }
    }

    // What the map is told of a pair that comes, and of one that goes.
    ghost method Enter(pair: Link, pairs: set<Link>)
      requires Indexed(pairs) && pair.key !in contents
      modifies this`index, this`contents
      ensures Indexed(pairs + {pair}) && |index| == old(|index|) + 1
      ensures contents == old(contents)[pair.key := Entry(pair.serial, pair.value)]
    {
      assert Opened(1, 0);
      NameAdded(index, pairs, pair);
      TieAdded(index, pairs, contents, pair);
      index, contents := index[pair.key := pair], contents[pair.key := Entry(pair.serial, pair.value)];
    }

    ghost method Forget(pair: Link, pairs: set<Link>)
      requires Indexed(pairs) && pair in pairs
      modifies this`index, this`contents
      ensures Indexed(pairs - {pair}) && |index| == old(|index|) - 1 && contents == old(contents) - {pair.key}
    {
      assert Opened(1, 0);
      NameRemoved(index, pairs, pair.key);
      TieRemoved(index, pairs, contents, pair.key);
      index, contents := index - {pair.key}, contents - {pair.key};
    }

    method Revalue(pair: Link, value: Node, ghost pairs: set<Link>)
      requires Indexed(pairs) && pair in pairs
      modifies pair`value, this`contents
      ensures Indexed(pairs) && contents == old(contents)[pair.key := Entry(pair.serial, value)]
    {
      assert Opened(1, 0);
      pair.value := value;
      contents := contents[pair.key := Entry(pair.serial, value)];
    }

    ghost method ForgetAll()
      modifies this`index, this`contents
      ensures Indexed({}) && index == map[] && contents == map[]
    {
      index, contents := map[], map[];
    }

    // The tail of hashtable_set, for a key the table has not.
    method Add(pair: Link)
      requires Valid() && pair !in walk && pair.key !in contents && pair.hash == Hash(pair.key)
      modifies this`size, this`walk, this`index, this`contents, buckets, pair`prev, pair`next, walk`prev, walk`next
      ensures size == old(size) + 1
      ensures Valid() && contents == old(contents)[pair.key := Entry(pair.serial, pair.value)]
      ensures forall i :: 0 <= i < |walk| ==> walk[i] in old(walk) || walk[i] == pair
    {
      ghost var pairs := Pairs(walk);
      InsertToBucket(pair.hash % buckets.Length, pair);
      size := size + 1;
      Enter(pair, pairs);
    }

    // The head of hashtable_set.
    method Grow()
      requires Valid() && size < PRIMES[|PRIMES| - 1]
      modifies this`order, this`buckets, this`walk, walk`prev, walk`next
      ensures Valid()
      ensures buckets == old(buckets) || fresh(buckets)
      ensures order == old(order) + if size >= old(buckets.Length) then 1 else 0
      ensures size <= old(buckets.Length) ==> size < buckets.Length
      ensures forall i :: 0 <= i < |walk| ==> walk[i] in old(walk)
    {
      if size >= PRIMES[order] {
        PrimesGrow(order);
        Rehash();
      }
    }

    // The tail for a key it has.
    method Replace(pair: Link, value: Node)
      requires Valid() && pair in Pairs(walk)
      modifies pair`value, this`contents
      ensures Valid() && contents == old(contents)[pair.key := Entry(pair.serial, value)]
    {
      Revalue(pair, value, Pairs(walk));
    }

    method Put(key: Bytes, serial: nat, value: Node)
      requires Valid()
      modifies this, buckets, walk
      ensures Valid() && buckets == old(buckets) && order == old(order)
      ensures size == old(size) + if key in old(contents) then 0 else 1
      ensures contents == old(contents)[key := Entry(if key in old(contents) then old(contents)[key].serial else serial, value)]
      ensures forall i :: 0 <= i < |walk| ==> walk[i] in old(walk) || fresh(walk[i])
    {
      var hash := HashStr(key);
      var pair := FindPair(hash % buckets.Length, key, hash);
      if pair != null {
        Replace(pair, value);
      } else {
        pair := new Link(key, hash, serial, value);
        Add(pair);
      }
    }

    // hashtable_set: a pair that is there keeps its serial. There are more buckets as
    // soon as there are as many pairs, so that there are never more pairs.
    method Set(key: Bytes, serial: nat, value: Node)
      requires Valid() && size < PRIMES[|PRIMES| - 1]
      modifies this, buckets, walk
      ensures Valid()
      ensures contents == old(contents)[key := Entry(if key in old(contents) then old(contents)[key].serial else serial, value)]
      ensures buckets == old(buckets) || fresh(buckets)
      ensures order == old(order) + if old(size) >= old(buckets.Length) then 1 else 0
      ensures old(size) <= old(buckets.Length) ==> size <= buckets.Length
      ensures forall i :: 0 <= i < |walk| ==> walk[i] in old(walk) || fresh(walk[i])
    {
      Grow();
      Put(key, serial, value);
    }

    // hashtable_get
    method Get(key: Bytes) returns (value: Option<Node>)
      requires Valid()
      ensures value == if key in contents then Some(contents[key].value) else None
    {
      var hash := HashStr(key);
      var pair := FindPair(hash % buckets.Length, key, hash);
      if pair == null {
        return None;
      }
      return Some(pair.value);
    }

    // The unlinking half of hashtable_do_del.
    method Unlink(b: nat, pair: Link, ghost p: nat)
      requires Sound() && 1 <= p < |walk| - 1 && pair == walk[p] && b == Home(pair, buckets.Length)
      modifies this`walk, buckets, walk`prev, walk`next
      ensures Sound() && |walk| == |old(walk)| - 1 && Pairs(walk) == old(Pairs(walk)) - {pair}
      ensures forall i :: 0 <= i < |walk| ==> walk[i] in old(walk)
    {
      assert Opened(0, 0);
      ghost var was, before := walk, buckets[..];
      RemoveGroups(walk, before, p);
      if pair == buckets[b].first && pair == buckets[b].last {
        buckets[b] := Bucket(list, list);
      } else if pair == buckets[b].first {
        buckets[b] := Bucket(pair.next, buckets[b].last);
      } else if pair == buckets[b].last {
        buckets[b] := Bucket(buckets[b].first, pair.prev);
      }
      assert buckets[..] == before[b := Shrunk(was, p, before[b])];
      ListRemove(pair, walk, p);
      walk := Removed(was, p);
      Unlinked(was, p);
    }

    lemma Unlinked(was: seq<Link>, p: nat)
      requires order < |PRIMES| && buckets.Length == PRIMES[order] > 0
      requires 1 <= p < |was| - 1 && was[0] == list && walk == Removed(was, p) && Linked(walk) && AllDifferent(was)
      requires forall i :: 1 <= i < |was| - 1 ==> was[i].hash == Hash(was[i].key)
      requires Grouped(walk, buckets[..])
      ensures Sound() && |walk| == |was| - 1 && Pairs(walk) == Pairs(was) - {was[p]}
      ensures forall i :: 0 <= i < |walk| ==> walk[i] in was
    {
      RemovedAt(was, p);
      RemovedIn(was, p);
      RemovedPairs(was, p);
      assert Opened(0, 0);
    }

    // hashtable_do_del, once the pair is found.
    method Drop(b: nat, pair: Link)
      requires Valid() && pair in Pairs(walk) && b == Home(pair, buckets.Length)
      modifies this`size, this`walk, this`index, this`contents, buckets, walk`prev, walk`next
      ensures Valid() && contents == old(contents) - {pair.key}
      ensures forall i :: 0 <= i < |walk| ==> walk[i] in old(walk)
    {
      ghost var pairs := Pairs(walk);
      ghost var p: nat :| 1 <= p < |walk| - 1 && walk[p] == pair;
      Unlink(b, pair, p);
      size := size - 1;
      Forget(pair, pairs);
    }

    // hashtable_del
    method Del(key: Bytes) returns (found: bool)
      requires Valid()
      modifies this`size, this`walk, this`index, this`contents, buckets, walk`prev, walk`next
      ensures Valid()
      ensures found <==> key in old(contents)
      ensures contents == old(contents) - {key}
      ensures forall i :: 0 <= i < |walk| ==> walk[i] in old(walk)
    {
      var hash := HashStr(key);
      var b := hash % buckets.Length;
      var pair := FindPair(b, key, hash);
      if pair == null {
        return false;
      }
      Drop(b, pair);
      return true;
    }

    // hashtable_iter
    method Iter() returns (iter: Link?)
      requires Sound()
      ensures iter == if |walk| == 2 then null else walk[1]
    {
      assert Opened(0, 0);
      iter := IterNext(list, 0);
    }

    // hashtable_iter_next, from the node at `i`.
    method IterNext(iter: Link, ghost i: nat) returns (next: Link?)
      requires Sound() && i < |walk| - 1 && iter == walk[i]
      ensures next == if i == |walk| - 2 then null else walk[i + 1]
    {
      assert Opened(0, 0);
      if iter.next == list {
        return null;
      }
      return iter.next;
    }

    // json_object_foreach: every pair, once, in the order of the list.
    method Each() returns (each: seq<Pair>)
      requires Valid()
      ensures |each| == size == |walk| - 2
      ensures forall i :: 0 <= i < |each| ==> each[i] == Pair(walk[i + 1].key, walk[i + 1].serial, walk[i + 1].value)
    {
      each := [];
      var iter := Iter();
      while iter != null
        invariant |each| <= |walk| - 2
        invariant iter == if |each| == |walk| - 2 then null else walk[|each| + 1]
        invariant forall i :: 0 <= i < |each| ==> each[i] == Pair(walk[i + 1].key, walk[i + 1].serial, walk[i + 1].value)
        decreases |walk| - |each|
      {
        each := each + [Pair(iter.key, iter.serial, iter.value)];
        iter := IterNext(iter, |each|);
      }
    }

    // Those are the members of the map, no key twice and none left out.
    lemma EachIsContents(each: seq<Pair>)
      requires Valid() && |each| == |walk| - 2
      requires forall i :: 0 <= i < |each| ==> each[i] == Pair(walk[i + 1].key, walk[i + 1].serial, walk[i + 1].value)
      ensures Distinct(each)
      ensures forall k :: k in contents <==> HasKey(each, k)
      ensures forall i :: 0 <= i < |each| ==> each[i].key in contents && contents[each[i].key] == Entry(each[i].serial, each[i].value)
    {
      assert Opened(0, 0) && Opened(1, 0);
      forall i | 0 <= i < |each|
        ensures walk[i + 1] in Pairs(walk) && index[each[i].key] == walk[i + 1]
      {
      }
      forall k | k in contents ensures HasKey(each, k) {
        var p :| 1 <= p < |walk| - 1 && walk[p] == index[k];
        assert each[p - 1].key == k;
      }
    }

    method ClearBuckets()
      modifies buckets
      ensures forall b :: 0 <= b < buckets.Length ==> buckets[b] == Bucket(list, list)
    {
      var i := 0;
      while i < buckets.Length
        invariant i <= buckets.Length
        invariant forall b :: 0 <= b < i ==> buckets[b] == Bucket(list, list)
      {
        buckets[i] := Bucket(list, list);
        i := i + 1;
      }
    }

    method ClearList()
      requires order < |PRIMES| && buckets.Length == PRIMES[order] > 0
      requires forall b :: 0 <= b < buckets.Length ==> buckets[b] == Bucket(list, list)
      modifies this`walk, list`prev, list`next
      ensures Sound() && walk == [list, list]
    {
      list.prev, list.next := list, list;
      walk := [list, list];
      EmptyGroups(walk, buckets[..]);
      assert Opened(0, 0);
    }

    // hashtable_clear
    method Clear()
      requires Valid()
      modifies this`size, this`walk, this`index, this`contents, buckets, list`prev, list`next
      ensures Valid() && contents == map[] && size == 0 && walk == [list, list]
    {
      ClearBuckets();
      ClearList();
      size := 0;
      ForgetAll();
      assert Pairs(walk) == {};
    }
  }
}
