/** The C++ std::map<int, V> containers of measMosaic (WcsDic, CcdSet, ...):
    entries kept in strictly increasing key order, so that keys() and
    values() iterate in key order, and assignment `d[k] = v` inserts or
    replaces. */
module OrderedMap {
  import opened Common

  datatype Entry<V> = Entry(key: int, val: V)

  predicate Sorted<V>(d: seq<Entry<V>>) {
    forall i, j :: 0 <= i < j < |d| ==> d[i].key < d[j].key
  }

  /** d.keys(), in iteration order. */
  function Keys<V>(d: seq<Entry<V>>): (ks: seq<int>)
    ensures |ks| == |d|
    ensures forall i :: 0 <= i < |d| ==> ks[i] == d[i].key
  {
    seq(|d|, i requires 0 <= i < |d| => d[i].key)
  }

  function Lookup<V>(d: seq<Entry<V>>, k: int): (r: Option<V>)
    ensures r.Some? <==> k in Keys(d)
    ensures r.Some? ==> Entry(k, r.value) in d
  {
    if |d| == 0 then None
    else if d[0].key == k then Some(d[0].val)
    else
      assert Keys(d) == [d[0].key] + Keys(d[1..]);
      Lookup(d[1..], k)
  }

  /** d[k] = v: the entry for k becomes v, every other entry stays. */
  function Insert<V>(d: seq<Entry<V>>, k: int, v: V): (r: seq<Entry<V>>)
    requires Sorted(d)
    ensures Sorted(r)
    ensures Entry(k, v) in r
    ensures forall e :: e in r ==> e == Entry(k, v) || (e in d && e.key != k)
    ensures forall e :: e in d && e.key != k ==> e in r
  {
    PutFacts(d, k, v);
    Put(d, k, v)
  }

  /** The insertion walk: skip the smaller keys, then place k. */
  function Put<V>(d: seq<Entry<V>>, k: int, v: V): seq<Entry<V>> {
    if |d| == 0 then [Entry(k, v)]
    else if k < d[0].key then [Entry(k, v)] + d
    else if k == d[0].key then [Entry(k, v)] + d[1..]
    else [d[0]] + Put(d[1..], k, v)
  }

  /** The walk keeps a sorted map sorted and replaces exactly the entry of k. */
  lemma PutFacts<V>(d: seq<Entry<V>>, k: int, v: V)
    requires Sorted(d)
    ensures Sorted(Put(d, k, v))
    ensures Entry(k, v) in Put(d, k, v)
    ensures forall e :: e in Put(d, k, v) ==> e == Entry(k, v) || (e in d && e.key != k)
    ensures forall e :: e in d && e.key != k ==> e in Put(d, k, v)
  {
    PutSorted(d, k, v);
    PutHasEntry(d, k, v);
    PutOnly(d, k, v);
    PutKeeps(d, k, v);
  }

  /** The tail of a sorted map is sorted and lies above its first key. */
  lemma TailAbove<V>(d: seq<Entry<V>>)
    requires Sorted(d) && |d| > 0
    ensures Sorted(d[1..])
    ensures forall e :: e in d[1..] ==> e in d && d[0].key < e.key
  {
    forall e | e in d[1..] ensures e in d && d[0].key < e.key {
      var i :| 0 <= i < |d[1..]| && d[1..][i] == e;
      assert d[i + 1] == e;
    }
  }

  lemma {:induction false} PutHasEntry<V>(d: seq<Entry<V>>, k: int, v: V)
    ensures Entry(k, v) in Put(d, k, v)
    decreases |d|
  {
    if |d| > 0 && k > d[0].key {
      PutHasEntry(d[1..], k, v);
    }
  }

  lemma {:induction false} PutOnly<V>(d: seq<Entry<V>>, k: int, v: V)
    requires Sorted(d)
    ensures forall e :: e in Put(d, k, v) ==> e == Entry(k, v) || (e in d && e.key != k)
    decreases |d|
  {
    if |d| > 0 {
      TailAbove(d);
      if k > d[0].key {
        PutOnly(d[1..], k, v);
      }
    }
  }

  lemma {:induction false} PutKeeps<V>(d: seq<Entry<V>>, k: int, v: V)
    requires Sorted(d)
    ensures forall e :: e in d && e.key != k ==> e in Put(d, k, v)
    decreases |d|
  {
    if |d| > 0 {
      TailAbove(d);
      assert d == [d[0]] + d[1..];
      if k > d[0].key {
        PutKeeps(d[1..], k, v);
      }
    }
  }

  lemma {:induction false} PutSorted<V>(d: seq<Entry<V>>, k: int, v: V)
    requires Sorted(d)
    ensures Sorted(Put(d, k, v))
    decreases |d|
  {
    if |d| > 0 {
      TailAbove(d);
      if k > d[0].key {
        var rest := Put(d[1..], k, v);
        PutSorted(d[1..], k, v);
        PutOnly(d[1..], k, v);
        forall j | 0 < j <= |rest| ensures d[0].key < ([d[0]] + rest)[j].key {
          assert ([d[0]] + rest)[j] == rest[j - 1];
          assert rest[j - 1] in rest;
        }
      } else if k == d[0].key {
        forall j | 0 < j < |d| ensures k < ([Entry(k, v)] + d[1..])[j].key {
          assert ([Entry(k, v)] + d[1..])[j] == d[j];
        }
      }
    }
  }

  /** Inserting a key above every present key appends it: this is what makes
      a map filled in increasing key order iterate in insertion order. */
  lemma InsertAbove<V>(d: seq<Entry<V>>, k: int, v: V)
    requires Sorted(d)
    requires forall i :: 0 <= i < |d| ==> d[i].key < k
    ensures Insert(d, k, v) == d + [Entry(k, v)]
  {
    PutAbove(d, k, v);
  }

  /** The walk past keys all below k ends at the end. */
  lemma {:induction false} PutAbove<V>(d: seq<Entry<V>>, k: int, v: V)
    requires forall i :: 0 <= i < |d| ==> d[i].key < k
    ensures Put(d, k, v) == d + [Entry(k, v)]
    decreases |d|
  {
    if |d| > 0 {
      PutAbove(d[1..], k, v);
      assert d == [d[0]] + d[1..];
    }
  }

  /** In a sorted map the entry of a present key is the one Lookup finds. */
  lemma {:induction false} SortedLookup<V>(d: seq<Entry<V>>, i: int)
    requires Sorted(d)
    requires 0 <= i < |d|
    ensures Lookup(d, d[i].key) == Some(d[i].val)
    decreases i
  {
    if i > 0 {
      SortedLookup(d[1..], i - 1);
    }
  }

  /** Keeping some entries of a sorted map, in order, leaves it sorted. */
  lemma {:induction false} SubseqSorted<V>(a: seq<Entry<V>>, b: seq<Entry<V>>)
    requires IsSubseq(a, b)
    requires Sorted(b)
    ensures Sorted(a)
    ensures forall e :: e in a ==> e in b
    decreases |b|
  {
    if |a| > 0 {
      if a[0] == b[0] && IsSubseq(a[1..], b[1..]) {
        SubseqSorted(a[1..], b[1..]);
        forall j | 0 < j < |a|
          ensures a[0].key < a[j].key
        {
          assert a[j] == a[1..][j - 1];
          assert a[j] in b[1..];
        }
        forall e | e in a
          ensures e in b
        {
          if e != a[0] {
            assert a == [a[0]] + a[1..];
            assert e in a[1..];
            assert e in b[1..];
          }
        }
      } else {
        SubseqSorted(a, b[1..]);
      }
    }
  }

  /** Insert adds exactly its key to the key set. */
  lemma InsertKeys<V>(d: seq<Entry<V>>, k: int, v: V)
    requires Sorted(d)
    ensures forall x :: x in Keys(Insert(d, k, v)) <==> x in Keys(d) || x == k
  {
    var r := Insert(d, k, v);
    forall x
      ensures x in Keys(r) <==> x in Keys(d) || x == k
    {
      if x in Keys(d) && x != k {
        var i :| 0 <= i < |d| && d[i].key == x;
        assert d[i] in r;
      }
      if x == k {
        assert Entry(k, v) in r;
      }
      if x in Keys(r) {
        var i :| 0 <= i < |r| && r[i].key == x;
        assert r[i] in r;
      }
    }
  }
}
