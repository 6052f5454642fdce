/**
 `std::map<int, T>` as the sequence of its entries in key order, which is also the order in
 which the readout code iterates and erases.
 */
module OrderedMap {

  datatype Entry<+T> = Entry(key: int, value: T)

  predicate Ordered<T>(m: seq<Entry<T>>) {
    forall i, j :: 0 <= i < j < |m| ==> m[i].key < m[j].key
  }

  predicate Has<T>(m: seq<Entry<T>>, k: int) {
    exists i :: 0 <= i < |m| && m[i].key == k
  }

  /** All keys of `m` lie below `k`. */
  predicate Below<T>(m: seq<Entry<T>>, k: int) {
    forall i :: 0 <= i < |m| ==> m[i].key < k
  }

  function Get<T>(m: seq<Entry<T>>, k: int, default: T): T {
    if m == [] then default
    else if m[0].key == k then m[0].value
    else Get(m[1..], k, default)
  }

  /** `m[k] = v`. */
  function Put<T>(m: seq<Entry<T>>, k: int, v: T): seq<Entry<T>> {
    if m == [] then [Entry(k, v)]
    else if k < m[0].key then [Entry(k, v)] + m
    else if k == m[0].key then [Entry(k, v)] + m[1..]
    else [m[0]] + Put(m[1..], k, v)
  }

  lemma {:induction false} PutMeaning<T>(m: seq<Entry<T>>, k: int, v: T)
    ensures Has(Put(m, k, v), k)
    ensures forall k' :: Has(Put(m, k, v), k') <==> k' == k || Has(m, k')
    ensures Ordered(m) ==> Ordered(Put(m, k, v))
  {
    var r := Put(m, k, v);
    if m == [] {
      assert r[0].key == k;
    } else if k < m[0].key {
      PutKeys(m, k, v, r);
      if Ordered(m) {
        forall i, j | 0 <= i < j < |r| ensures r[i].key < r[j].key {
          assert j > 0 && r[j] == m[j - 1];
          if i > 0 { assert r[i] == m[i - 1]; }
        }
      }
    } else if k == m[0].key {
      assert forall i :: 0 <= i < |m| ==> r[i].key == m[i].key;
      assert forall k' :: Has(r, k') <==> Has(m, k');
      assert Has(m, k);
    } else {
      PutMeaning(m[1..], k, v);
      PutTail(m, k, Put(m[1..], k, v), r);
    }
  }

  lemma PutKeys<T>(m: seq<Entry<T>>, k: int, v: T, r: seq<Entry<T>>)
    requires r == [Entry(k, v)] + m
    ensures Has(r, k) && forall k' :: Has(r, k') <==> k' == k || Has(m, k')
  {
    assert r[0].key == k;
    forall k' | Has(m, k') ensures Has(r, k') {
      var i :| 0 <= i < |m| && m[i].key == k';
      assert r[i + 1].key == k';
    }
    forall k' | Has(r, k') && k' != k ensures Has(m, k') {
      var i :| 0 <= i < |r| && r[i].key == k';
      assert m[i - 1].key == k';
    }
  }

  lemma HasTail<T>(m: seq<Entry<T>>)
    requires m != []
    ensures forall k :: Has(m, k) <==> k == m[0].key || Has(m[1..], k)
    ensures Ordered(m) ==> Ordered(m[1..]) && forall k :: Has(m[1..], k) ==> m[0].key < k
  {
    forall k | Has(m[1..], k) ensures Has(m, k) {
      var i :| 0 <= i < |m[1..]| && m[1..][i].key == k;
      assert m[i + 1].key == k;
    }
    forall k | Has(m, k) && k != m[0].key ensures Has(m[1..], k) {
      var i :| 0 <= i < |m| && m[i].key == k;
      assert m[1..][i - 1].key == k;
    }
  }

  lemma PutTail<T>(m: seq<Entry<T>>, k: int, rest: seq<Entry<T>>, r: seq<Entry<T>>)
    requires m != [] && r == [m[0]] + rest && m[0].key < k
    requires forall k' :: Has(rest, k') <==> k' == k || Has(m[1..], k')
    requires Ordered(m[1..]) ==> Ordered(rest)
    ensures forall k' :: Has(r, k') <==> k' == k || Has(m, k')
    ensures Ordered(m) ==> Ordered(r)
  {
    HasTail(m);
    HasTail(r);
    assert r[1..] == rest;
    if Ordered(m) {
      forall i, j | 0 <= i < j < |r| ensures r[i].key < r[j].key {
        assert r[j] == rest[j - 1];
        if i > 0 {
          assert r[i] == rest[i - 1];
        } else {
          assert Has(rest, rest[j - 1].key);
        }
      }
    }
  }

  lemma {:induction false} GetPut<T>(m: seq<Entry<T>>, k: int, v: T, k': int, default: T)
    ensures Get(Put(m, k, v), k', default) == if k == k' then v else Get(m, k', default)
  {
    if m == [] {
    } else if k < m[0].key {
      assert ([Entry(k, v)] + m)[1..] == m;
    } else if k == m[0].key {
      assert ([Entry(k, v)] + m[1..])[1..] == m[1..];
    } else {
      GetPut(m[1..], k, v, k', default);
      assert ([m[0]] + Put(m[1..], k, v))[1..] == Put(m[1..], k, v);
    }
  }

  lemma {:induction false} PutPut<T>(m: seq<Entry<T>>, k: int, v: T, w: T)
    ensures Put(Put(m, k, v), k, w) == Put(m, k, w)
  {
    if m != [] && k > m[0].key {
      PutPut(m[1..], k, v, w);
    }
  }

  lemma {:induction false} GetMissing<T>(m: seq<Entry<T>>, k: int, default: T)
    requires !Has(m, k)
    ensures Get(m, k, default) == default
  {
    if m != [] {
      HasTail(m);
      assert m[0].key != k by { assert Has(m, m[0].key); }
      GetMissing(m[1..], k, default);
    }
  }

  lemma {:induction false} GetAt<T>(m: seq<Entry<T>>, i: nat, default: T)
    requires Ordered(m) && i < |m|
    ensures Get(m, m[i].key, default) == m[i].value
  {
    if i > 0 {
      GetAt(m[1..], i - 1, default);
    }
  }

  /** Storing and looking up behind a front of smaller keys does not touch the front. */
  lemma {:induction false} BehindFront<T>(a: seq<Entry<T>>, b: seq<Entry<T>>, k: int, v: T, default: T)
    requires Below(a, k)
    ensures Put(a + b, k, v) == a + Put(b, k, v)
    ensures Get(a + b, k, default) == Get(b, k, default)
  {
    if a == [] {
      assert a + b == b;
      assert a + Put(b, k, v) == Put(b, k, v);
    } else {
      assert (a + b)[1..] == a[1..] + b;
      BehindFront(a[1..], b, k, v, default);
      assert [a[0]] + (a[1..] + Put(b, k, v)) == a + Put(b, k, v);
    }
  }

  lemma OrderedParts<T>(a: seq<Entry<T>>, b: seq<Entry<T>>)
    requires Ordered(a + b)
    ensures Ordered(a) && Ordered(b)
    ensures forall i, j :: 0 <= i < |a| && 0 <= j < |b| ==> a[i].key < b[j].key
  {
    var c := a + b;
    forall i, j | 0 <= i < j < |b| ensures b[i].key < b[j].key {
      assert c[|a| + i].key < c[|a| + j].key;
    }
    forall i, j | 0 <= i < j < |a| ensures a[i].key < a[j].key {
      assert c[i].key < c[j].key;
    }
    forall i, j | 0 <= i < |a| && 0 <= j < |b| ensures a[i].key < b[j].key {
      assert c[i].key < c[|a| + j].key;
    }
  }

  /** `map.erase(key)`. */
  function Erase<T>(m: seq<Entry<T>>, k: int): seq<Entry<T>> {
    if m == [] then []
    else if m[0].key == k then Erase(m[1..], k)
    else [m[0]] + Erase(m[1..], k)
  }

  lemma {:induction false} EraseMeaning<T>(m: seq<Entry<T>>, k: int)
    ensures forall k' :: Has(Erase(m, k), k') <==> k' != k && Has(m, k')
    ensures Ordered(m) ==> Ordered(Erase(m, k))
    ensures |Erase(m, k)| <= |m| && (Has(m, k) ==> |Erase(m, k)| < |m|)
  {
    if m != [] {
      var rest := Erase(m[1..], k);
      EraseMeaning(m[1..], k);
      HasTail(m);
      if m[0].key != k {
        var r := [m[0]] + rest;
        HasTail(r);
        assert r[1..] == rest;
        if Ordered(m) {
          forall i, j | 0 <= i < j < |r| ensures r[i].key < r[j].key {
            assert r[j] == rest[j - 1] && Has(rest, rest[j - 1].key);
          }
        }
      }
    }
  }

  lemma {:induction false} EraseMissing<T>(m: seq<Entry<T>>, k: int)
    requires !Has(m, k)
    ensures Erase(m, k) == m
  {
    if m != [] {
      HasTail(m);
      EraseMissing(m[1..], k);
    }
  }

  lemma {:induction false} GetErase<T>(m: seq<Entry<T>>, k: int, k': int, default: T)
    requires k != k'
    ensures Get(Erase(m, k), k', default) == Get(m, k', default)
  {
    if m != [] {
      GetErase(m[1..], k, k', default);
      assert ([m[0]] + Erase(m[1..], k))[1..] == Erase(m[1..], k);
    }
  }

  // ---------- Grouping ----------

  /** `m[k]` extended by `bs`, the entry being created when missing. */
  function Append<B>(m: seq<Entry<seq<B>>>, k: int, bs: seq<B>): seq<Entry<seq<B>>> {
    Put(m, k, Get(m, k, []) + bs)
  }

  function AppendAll<B>(m: seq<Entry<seq<B>>>, items: seq<Entry<seq<B>>>): seq<Entry<seq<B>>>
    decreases |items|
  {
    if items == [] then m else AppendAll(Append(m, items[0].key, items[0].value), items[1..])
  }

  /** The items collected by key, keys in increasing order. */
  function Group<B>(items: seq<Entry<seq<B>>>): seq<Entry<seq<B>>> {
    AppendAll([], items)
  }

  /** Everything filed under `k`, in arrival order. */
  function Filed<B>(items: seq<Entry<seq<B>>>, k: int): seq<B> {
    if items == [] then []
    else (if items[0].key == k then items[0].value else []) + Filed(items[1..], k)
  }

  lemma {:induction false} AppendAllConcat<B>(m: seq<Entry<seq<B>>>, a: seq<Entry<seq<B>>>, b: seq<Entry<seq<B>>>)
    ensures AppendAll(m, a + b) == AppendAll(AppendAll(m, a), b)
    decreases |a|
  {
    if a == [] {
      assert a + b == b;
    } else {
      assert (a + b)[1..] == a[1..] + b;
      AppendAllConcat(Append(m, a[0].key, a[0].value), a[1..], b);
    }
  }

  lemma AppendMeaning<B>(m: seq<Entry<seq<B>>>, k0: int, bs: seq<B>, k: int)
    ensures Has(Append(m, k0, bs), k) <==> Has(m, k) || k == k0
    ensures Get(Append(m, k0, bs), k, []) == Get(m, k, []) + (if k == k0 then bs else [])
    ensures Ordered(m) ==> Ordered(Append(m, k0, bs))
  {
    GetPut(m, k0, Get(m, k0, []) + bs, k, []);
    PutMeaning(m, k0, Get(m, k0, []) + bs);
    assert Get(m, k, []) + [] == Get(m, k, []);
  }

  lemma {:induction false} AppendAllMeaning<B>(m: seq<Entry<seq<B>>>, items: seq<Entry<seq<B>>>, k: int)
    requires Ordered(m)
    ensures Ordered(AppendAll(m, items))
    ensures Has(AppendAll(m, items), k) <==> Has(m, k) || Has(items, k)
    ensures Get(AppendAll(m, items), k, []) == Get(m, k, []) + Filed(items, k)
    decreases |items|
  {
    if items == [] {
      assert Get(m, k, []) + Filed(items, k) == Get(m, k, []);
    } else {
      var k0, bs := items[0].key, items[0].value;
      AppendMeaning(m, k0, bs, k);
      AppendAllMeaning(Append(m, k0, bs), items[1..], k);
      HasTail(items);
      var here := if k0 == k then bs else [];
      assert Get(m, k, []) + here + Filed(items[1..], k) == Get(m, k, []) + (here + Filed(items[1..], k));
    }
  }

  /** Grouping is a sorted table with one entry per key that occurs, and each entry holds
      everything filed under its key in arrival order. */
  lemma GroupMeaning<B>(items: seq<Entry<seq<B>>>)
    ensures Ordered(Group(items))
    ensures forall k :: Has(Group(items), k) <==> Has(items, k)
    ensures forall i :: 0 <= i < |Group(items)| ==> Group(items)[i].value == Filed(items, Group(items)[i].key)
  {
    var g := Group(items);
    forall k ensures Has(g, k) <==> Has(items, k) {
      AppendAllMeaning<B>([], items, k);
    }
    AppendAllMeaning<B>([], items, 0);
    forall i | 0 <= i < |g| ensures g[i].value == Filed(items, g[i].key) {
      AppendAllMeaning<B>([], items, g[i].key);
      GetAt(g, i, []);
      assert [] + Filed(items, g[i].key) == Filed(items, g[i].key);
    }
  }
}
