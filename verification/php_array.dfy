/**
 * PHP arrays with string keys: an ordered map that remembers the order in
 * which keys were first inserted. Assigning to an existing key keeps its
 * position; assigning to a new key appends it. Only non-numeric string keys
 * are modelled, so PHP's renumbering of integer keys never applies.
 */
module PhpArray {
  import opened Wrappers

  type Key = string

  /** The entries of a PHP array, in iteration order. */
  type Arr<V> = seq<(Key, V)>

  /** No key occurs twice: every array PHP itself builds has this shape. */
  ghost predicate Distinct<V>(a: Arr<V>)
  {
    forall i, j :: 0 <= i < j < |a| ==> a[i].0 != a[j].0
  }

  /** `array_keys($a)`: the keys in iteration order. */
  function KeyList<V>(a: Arr<V>): (ks: seq<Key>)
    ensures |ks| == |a|
    ensures forall i :: 0 <= i < |a| ==> ks[i] == a[i].0
  {
    if a == [] then [] else [a[0].0] + KeyList(a[1..])
  }

  /** The keys as a set, for statements that do not care about order. */
  function KeySet<V>(a: Arr<V>): (ks: set<Key>)
    ensures forall k :: k in ks <==> k in KeyList(a)
  {
    set k | k in KeyList(a)
  }

  /** `$a[$k]` read with `isset`: the value under `k`, if any. */
  function Get<V>(a: Arr<V>, k: Key): (r: Option<V>)
    ensures r.Some? <==> k in KeyList(a)
  {
    if a == [] then None
    else if a[0].0 == k then Some(a[0].1)
    else Get(a[1..], k)
  }

  /** `$a[$k] = $v`: overwrite in place, or append a new key at the end. */
  function Put<V>(a: Arr<V>, k: Key, v: V): (r: Arr<V>)
    ensures Get(r, k) == Some(v)
    ensures forall j :: j != k ==> Get(r, j) == Get(a, j)
    ensures KeyList(r) == if k in KeyList(a) then KeyList(a) else KeyList(a) + [k]
  {
    AssignReads(a, k, v);
    AssignKeys(a, k, v);
    Assign(a, k, v)
  }

  /** The assignment itself, walking the entries. */
  function Assign<V>(a: Arr<V>, k: Key, v: V): Arr<V>
  {
    if a == [] then [(k, v)]
    else if a[0].0 == k then [(k, v)] + a[1..]
    else [a[0]] + Assign(a[1..], k, v)
  }

  lemma {:induction false} AssignReads<V>(a: Arr<V>, k: Key, v: V)
    ensures forall j :: Get(Assign(a, k, v), j) == if j == k then Some(v) else Get(a, j)
    decreases |a|
  {
    if a != [] {
      ConsTail(a[0], a[1..]);
      if a[0].0 == k {
        ConsTail((k, v), a[1..]);
      } else {
        AssignReads(a[1..], k, v);
        ConsTail(a[0], Assign(a[1..], k, v));
      }
    }
  }

  lemma {:induction false} AssignKeys<V>(a: Arr<V>, k: Key, v: V)
    ensures KeyList(Assign(a, k, v)) == if k in KeyList(a) then KeyList(a) else KeyList(a) + [k]
    decreases |a|
  {
    if a != [] {
      ConsTail(a[0], a[1..]);
      if a[0].0 == k {
        ConsTail((k, v), a[1..]);
      } else {
        AssignKeys(a[1..], k, v);
        ConsTail(a[0], Assign(a[1..], k, v));
        var t := KeyList(a[1..]);
        assert a == [a[0]] + a[1..];
        assert KeyList(a) == [a[0].0] + t;
        assert k in KeyList(a) <==> k in t;
        if k !in t {
          assert [a[0].0] + (t + [k]) == ([a[0].0] + t) + [k];
        }
      }
    }
  }

  /** Reading and listing an array that starts with `x`. */
  lemma ConsTail<V>(x: (Key, V), a: Arr<V>)
    ensures KeyList([x] + a) == [x.0] + KeyList(a)
    ensures forall j :: Get([x] + a, j) == if x.0 == j then Some(x.1) else Get(a, j)
  {
    assert ([x] + a)[1..] == a;
  }

  /** Every entry of `$a` after `$a[$k] = $v` is the new one or was there before. */
  lemma {:induction false} PutEntries<V>(a: Arr<V>, k: Key, v: V)
    ensures forall i :: 0 <= i < |Put(a, k, v)| ==> Put(a, k, v)[i] == (k, v) || Put(a, k, v)[i] in a
    decreases |a|
  {
    if a != [] && a[0].0 != k {
      PutEntries(a[1..], k, v);
      assert Put(a, k, v) == [a[0]] + Put(a[1..], k, v);
      forall i | 0 < i < |Put(a, k, v)| ensures Put(a, k, v)[i] == (k, v) || Put(a, k, v)[i] in a {
        assert Put(a, k, v)[i] == Put(a[1..], k, v)[i - 1];
      }
    }
  }

  /** A value read from `$a` is the value of one of its entries. */
  lemma {:induction false} GetEntry<V>(a: Arr<V>, k: Key)
    ensures Get(a, k).Some? ==> (k, Get(a, k).value) in a
    decreases |a|
  {
    if a != [] && a[0].0 != k {
      GetEntry(a[1..], k);
    }
  }

  /**
   * The key order after assigning the keys `more`, one by one, to an array
   * whose keys are `ks`: a new key goes to the end, a key already present
   * keeps its place.
   */
  function AppendFresh(ks: seq<Key>, more: seq<Key>): seq<Key>
    decreases |more|
  {
    if more == [] then ks
    else AppendFresh(if more[0] in ks then ks else ks + [more[0]], more[1..])
  }

  /** Assigning two runs of keys is assigning their concatenation. */
  lemma {:induction false} AppendFreshConcat(ks: seq<Key>, a: seq<Key>, b: seq<Key>)
    ensures AppendFresh(AppendFresh(ks, a), b) == AppendFresh(ks, a + b)
    decreases |a|
  {
    if a == [] {
      assert a + b == b;
    } else {
      assert (a + b)[0] == a[0];
      assert (a + b)[1..] == a[1..] + b;
      AppendFreshConcat(if a[0] in ks then ks else ks + [a[0]], a[1..], b);
    }
  }

  /** The keys present afterwards are the old ones and the assigned ones. */
  lemma {:induction false} AppendFreshMembers(ks: seq<Key>, more: seq<Key>, k: Key)
    ensures k in AppendFresh(ks, more) <==> k in ks || k in more
    decreases |more|
  {
    if more != [] {
      AppendFreshMembers(if more[0] in ks then ks else ks + [more[0]], more[1..], k);
      assert more == [more[0]] + more[1..];
    }
  }

  /** No key is listed twice. */
  ghost predicate NoDup(ks: seq<Key>)
  {
    forall i, j :: 0 <= i < j < |ks| ==> ks[i] != ks[j]
  }

  /** When every assigned key is new and none repeats, the keys are simply appended in order. */
  lemma {:induction false} AppendFreshAllNew(ks: seq<Key>, more: seq<Key>)
    requires NoDup(more)
    requires forall k :: k in more ==> k !in ks
    ensures AppendFresh(ks, more) == ks + more
    decreases |more|
  {
    if more != [] {
      var ks' := ks + [more[0]];
      forall k | k in more[1..] ensures k !in ks' {
        var j :| 0 <= j < |more[1..]| && more[1..][j] == k;
        assert more[j + 1] == k;
      }
      assert NoDup(more[1..]) by {
        forall i, j | 0 <= i < j < |more[1..]| ensures more[1..][i] != more[1..][j] {
          assert more[1..][i] == more[i + 1] && more[1..][j] == more[j + 1];
        }
      }
      AppendFreshAllNew(ks', more[1..]);
      assert ks' + more[1..] == ks + more;
    }
  }

  lemma PutDistinct<V>(a: Arr<V>, k: Key, v: V)
    requires Distinct(a)
    ensures Distinct(Put(a, k, v))
  {
    var r := Put(a, k, v);
    var ks := KeyList(r);
    forall i, j | 0 <= i < j < |r| ensures r[i].0 != r[j].0 {
      assert r[i].0 == ks[i] && r[j].0 == ks[j];
      assert ks[i] == a[i].0;
      if j < |a| {
        assert ks[j] == a[j].0;
      } else {
        assert ks[i] in KeyList(a);
      }
    }
  }

  /** Dropping the first entry of an array without repeated keys leaves one, without that entry's key. */
  lemma DistinctCons<V>(a: Arr<V>)
    requires Distinct(a) && a != []
    ensures Distinct(a[1..]) && a[0].0 !in KeyList(a[1..])
  {
    forall i, j | 0 <= i < j < |a[1..]| ensures a[1..][i].0 != a[1..][j].0 {
      assert a[1..][i] == a[i + 1] && a[1..][j] == a[j + 1];
    }
    forall i | 0 <= i < |a[1..]| ensures KeyList(a[1..])[i] != a[0].0 {
      assert a[1..][i] == a[i + 1];
    }
  }

  /**
   * `array_merge($a, $b)` for string keys: the entries of `b`, in order,
   * assigned over `a`. A key of `b` replaces `a`'s value (it is not combined
   * with it) and keeps `a`'s position.
   */
  function Merge<V>(a: Arr<V>, b: Arr<V>): (r: Arr<V>)
    ensures forall k :: k in KeyList(r) <==> k in KeyList(a) || k in KeyList(b)
    decreases |b|
  {
    if b == [] then a else Merge(Put(a, b[0].0, b[0].1), b[1..])
  }

  /** What `array_merge` promises: the later array wins on every shared key. */
  lemma {:induction false} MergeGet<V>(a: Arr<V>, b: Arr<V>, k: Key)
    requires Distinct(b)
    ensures Get(Merge(a, b), k) == if k in KeyList(b) then Get(b, k) else Get(a, k)
    decreases |b|
  {
    if b != [] {
      MergeGet(Put(a, b[0].0, b[0].1), b[1..], k);
      if b[0].0 != k && k in KeyList(b) {
        assert k in KeyList(b[1..]);
      }
      if b[0].0 == k {
        assert k !in KeyList(b[1..]) by {
          forall i | 0 <= i < |b[1..]| ensures KeyList(b[1..])[i] != k {
            assert b[1..][i].0 == b[i + 1].0;
          }
        }
      }
    }
  }

  lemma {:induction false} MergeDistinct<V>(a: Arr<V>, b: Arr<V>)
    requires Distinct(a)
    ensures Distinct(Merge(a, b))
    decreases |b|
  {
    if b != [] {
      PutDistinct(a, b[0].0, b[0].1);
      MergeDistinct(Put(a, b[0].0, b[0].1), b[1..]);
    }
  }

  // ----- Runs of assignments -----
  // `foreach ($es as $k => $v) { $a[$k] = $v; }` is the same walk as
  // `array_merge($a, $es)`, so `Merge` also stands for a run of assignments.

  lemma {:induction false} MergeConcat<V>(a: Arr<V>, x: Arr<V>, y: Arr<V>)
    ensures Merge(Merge(a, x), y) == Merge(a, x + y)
    decreases |x|
  {
    if x == [] {
      assert x + y == y;
    } else {
      assert (x + y)[0] == x[0];
      assert (x + y)[1..] == x[1..] + y;
      MergeConcat(Put(a, x[0].0, x[0].1), x[1..], y);
    }
  }

  /** The keys after a run of assignments: a new key is appended, an existing one keeps its place. */
  lemma {:induction false} MergeKeys<V>(a: Arr<V>, b: Arr<V>)
    ensures KeyList(Merge(a, b)) == AppendFresh(KeyList(a), KeyList(b))
    decreases |b|
  {
    if b != [] {
      MergeKeys(Put(a, b[0].0, b[0].1), b[1..]);
      assert KeyList(b)[1..] == KeyList(b[1..]);
    }
  }

  /** Assigning a key the array does not have appends the entry. */
  lemma PutFresh<V>(a: Arr<V>, k: Key, v: V)
    requires k !in KeyList(a)
    ensures Put(a, k, v) == a + [(k, v)]
  {
    AssignFresh(a, k, v);
  }

  lemma {:induction false} AssignFresh<V>(a: Arr<V>, k: Key, v: V)
    requires k !in KeyList(a)
    ensures Assign(a, k, v) == a + [(k, v)]
    decreases |a|
  {
    if a != [] {
      var t := a[1..];
      assert KeyList(a) == [a[0].0] + KeyList(t);
      AssignFresh(t, k, v);
      calc {
        Assign(a, k, v);
        [a[0]] + Assign(t, k, v);
        [a[0]] + (t + [(k, v)]);
        ([a[0]] + t) + [(k, v)];
        { assert [a[0]] + t == a; }
        a + [(k, v)];
      }
    }
  }

  /** When the assigned keys are new and none repeats, the entries are appended as they come. */
  lemma {:induction false} MergeFresh<V>(a: Arr<V>, b: Arr<V>)
    requires NoDup(KeyList(b))
    requires forall k :: k in KeyList(b) ==> k !in KeyList(a)
    ensures Merge(a, b) == a + b
    decreases |b|
  {
    if b != [] {
      var a' := a + [b[0]];
      FreshStep(a, b);
      assert Merge(a, b) == Merge(a', b[1..]);
      MergeFresh(a', b[1..]);
      SnocRest(a, b);
    }
  }

  /** Moving the head of `b` onto the end of `a` keeps the concatenation. */
  lemma SnocRest<V>(a: Arr<V>, b: Arr<V>)
    requires b != []
    ensures (a + [b[0]]) + b[1..] == a + b
  {
    assert b == [b[0]] + b[1..];
  }

  /** One step of `MergeFresh`: the first entry is appended and the rest stays new and unrepeated. */
  lemma FreshStep<V>(a: Arr<V>, b: Arr<V>)
    requires b != [] && NoDup(KeyList(b))
    requires forall k :: k in KeyList(b) ==> k !in KeyList(a)
    ensures Put(a, b[0].0, b[0].1) == a + [b[0]]
    ensures NoDup(KeyList(b[1..]))
    ensures forall k :: k in KeyList(b[1..]) ==> k !in KeyList(a + [b[0]])
  {
    var ks := KeyList(b);
    var rest := KeyList(b[1..]);
    assert ks == [b[0].0] + rest;
    NoDupTail(ks);
    assert b[0].0 in ks;
    PutFresh(a, b[0].0, b[0].1);
    assert KeyList(a + [b[0]]) == KeyList(a) + [b[0].0];
    forall k | k in rest ensures k !in KeyList(a + [b[0]]) {
      assert k in ks;
    }
  }

  /** A key list without repeats stays so without its head, and the head does not come back. */
  lemma NoDupTail(ks: seq<Key>)
    requires NoDup(ks) && ks != []
    ensures NoDup(ks[1..]) && ks[0] !in ks[1..]
  {
    forall i, j | 0 <= i < j < |ks[1..]| ensures ks[1..][i] != ks[1..][j] {
      assert ks[1..][i] == ks[i + 1] && ks[1..][j] == ks[j + 1];
    }
    forall i | 0 <= i < |ks[1..]| ensures ks[1..][i] != ks[0] {
      assert ks[1..][i] == ks[i + 1];
    }
  }

  /** Reference: the value of the last entry with key `k`, the one a run of assignments leaves behind. */
  function LastGet<V>(b: Arr<V>, k: Key): Option<V>
    decreases |b|
  {
    if b == [] then None
    else if LastGet(b[1..], k).Some? then LastGet(b[1..], k)
    else if b[0].0 == k then Some(b[0].1)
    else None
  }

  /** After a run of assignments a key holds its last assigned value, or its old one if it was not assigned. */
  lemma {:induction false} MergeLast<V>(a: Arr<V>, b: Arr<V>, k: Key)
    ensures Get(Merge(a, b), k) == if LastGet(b, k).Some? then LastGet(b, k) else Get(a, k)
    decreases |b|
  {
    if b != [] {
      MergeLast(Put(a, b[0].0, b[0].1), b[1..], k);
    }
  }

  /**
   * `array_diff_key($a, array_flip($remove))`: the entries of `a` whose key
   * is not among the values of `remove`, in `a`'s order.
   */
  function DiffKey<V>(a: Arr<V>, remove: seq<Key>): (r: Arr<V>)
    ensures forall i :: 0 <= i < |r| ==> r[i] in a && r[i].0 !in remove
    ensures forall k :: k in KeyList(r) <==> k in KeyList(a) && k !in remove
    ensures forall k :: Get(r, k) == if k in remove then None else Get(a, k)
    ensures Subsequence(r, a)
    decreases |a|
  {
    if a == [] then []
    else if a[0].0 in remove then DiffKey(a[1..], remove)
    else [a[0]] + DiffKey(a[1..], remove)
  }

  /** `r` is `a` with some entries dropped and the rest in their original order. */
  ghost predicate Subsequence<V>(r: Arr<V>, a: Arr<V>)
    decreases |a|
  {
    if r == [] then true
    else if a == [] then false
    else (r[0] == a[0] && Subsequence(r[1..], a[1..])) || Subsequence(r, a[1..])
  }

  /** Only the listed keys that `a` actually has make a difference to `DiffKey`. */
  lemma {:induction false} DiffKeyOnlyPresentKeys<V>(a: Arr<V>, remove: seq<Key>, remove': seq<Key>)
    requires forall k :: k in KeyList(a) ==> (k in remove <==> k in remove')
    ensures DiffKey(a, remove) == DiffKey(a, remove')
    decreases |a|
  {
    if a != [] {
      assert a[0].0 in KeyList(a);
      forall k | k in KeyList(a[1..]) ensures k in KeyList(a) {
        var i :| 0 <= i < |a[1..]| && KeyList(a[1..])[i] == k;
        assert KeyList(a)[i + 1] == k;
      }
      DiffKeyOnlyPresentKeys(a[1..], remove, remove');
    }
  }

  /** Removing nothing that `a` has leaves `a` as it is. */
  lemma {:induction false} DiffKeyNothing<V>(a: Arr<V>, remove: seq<Key>)
    requires forall k :: k in remove ==> k !in KeyList(a)
    ensures DiffKey(a, remove) == a
    decreases |a|
  {
    if a != [] {
      assert a[0].0 in KeyList(a);
      DiffKeyNothing(a[1..], remove);
      assert a == [a[0]] + a[1..];
    }
  }
}
