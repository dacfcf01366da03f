// JavaScript objects and Maps as the program observes them: entries in insertion order,
// where writing an existing key keeps its position and reading returns the stored value.
module Records {
  import opened Results

  type Record<V> = seq<(string, V)>

  function Keys<V>(r: Record<V>): (ks: seq<string>)
    ensures |ks| == |r|
    ensures forall i :: 0 <= i < |r| ==> ks[i] == r[i].0
  {
    seq(|r|, i requires 0 <= i < |r| => r[i].0)
  }

  predicate HasKey<V>(r: Record<V>, k: string)
  {
    exists i :: 0 <= i < |r| && r[i].0 == k
  }

  predicate UniqueKeys<V>(r: Record<V>)
  {
    forall i, j :: 0 <= i < j < |r| ==> r[i].0 != r[j].0
  }

  /** `r[k]` / `m.get(k)`: the value of the first entry with key `k`. */
  function Get<V>(r: Record<V>, k: string): (v: Option<V>)
    ensures v.Some? <==> HasKey(r, k)
  {
    if r == [] then None else if r[0].0 == k then Some(r[0].1) else Get(r[1..], k)
  }

  /** `r[k] = v` / `m.set(k, v)`: overwrites in place, or appends a new entry. */
  function Put<V>(r: Record<V>, k: string, v: V): Record<V>
  {
    if r == [] then [(k, v)]
    else if r[0].0 == k then [(k, v)] + r[1..]
    else [r[0]] + Put(r[1..], k, v)
  }

  /** `delete r[k]` / `m.delete(k)`. */
  function Delete<V>(r: Record<V>, k: string): Record<V>
  {
    if r == [] then [] else (if r[0].0 == k then [] else [r[0]]) + Delete(r[1..], k)
  }

  /** `Object.assign(r, src)`: writes the entries of `src` one after another. */
  function PutAll<V>(r: Record<V>, src: Record<V>): Record<V>
    decreases |src|
  {
    if src == [] then r else PutAll(Put(r, src[0].0, src[0].1), src[1..])
  }

  /** `Object.fromEntries(es)` / `new Map(es)`: a later entry with the same key wins. */
  function FromEntries<V>(es: Record<V>): Record<V>
  {
    PutAll([], es)
  }

  /** The value of the last entry with key `k`. */
  function LastGet<V>(r: Record<V>, k: string): (v: Option<V>)
    ensures v.Some? <==> HasKey(r, k)
    decreases |r|
  {
    if r == [] then None
    else if r[|r| - 1].0 == k then Some(r[|r| - 1].1)
    else
      var v := LastGet(r[..|r| - 1], k);
      assert HasKey(r, k) ==> HasKey(r[..|r| - 1], k) by {
        if HasKey(r, k) {
          var i :| 0 <= i < |r| && r[i].0 == k;
          assert r[..|r| - 1][i].0 == k;
        }
      }
      v
  }

  lemma {:induction false} GetPut<V>(r: Record<V>, k: string, v: V, k': string)
    ensures Get(Put(r, k, v), k') == if k' == k then Some(v) else Get(r, k')
  {
    if r != [] && r[0].0 != k {
      GetPut(r[1..], k, v, k');
    }
  }

  /** Writing a key keeps the order of the keys, appending the key only if it is new. */
  lemma {:induction false} KeysPut<V>(r: Record<V>, k: string, v: V)
    ensures Keys(Put(r, k, v)) == if HasKey(r, k) then Keys(r) else Keys(r) + [k]
  {
    if r != [] && r[0].0 != k {
      KeysPut(r[1..], k, v);
      assert HasKey(r, k) <==> HasKey(r[1..], k) by {
        if HasKey(r, k) {
          var i :| 0 <= i < |r| && r[i].0 == k;
          assert r[1..][i - 1].0 == k;
        }
      }
    }
  }

  lemma {:induction false} PutUnique<V>(r: Record<V>, k: string, v: V)
    requires UniqueKeys(r)
    ensures UniqueKeys(Put(r, k, v))
  {
    KeysPut(r, k, v);
    var p := Put(r, k, v);
    assert Keys(p) == if HasKey(r, k) then Keys(r) else Keys(r) + [k];
    forall i, j | 0 <= i < j < |p|
      ensures p[i].0 != p[j].0
    {
      assert p[i].0 == Keys(p)[i] && p[j].0 == Keys(p)[j];
    }
  }

  lemma {:induction false} GetDelete<V>(r: Record<V>, k: string, k': string)
    ensures Get(Delete(r, k), k') == if k' == k then None else Get(r, k')
  {
    if r != [] {
      GetDelete(r[1..], k, k');
      var rest := Delete(r[1..], k);
      if r[0].0 != k {
        assert Delete(r, k) == [r[0]] + rest;
        assert ([r[0]] + rest)[1..] == rest;
      } else {
        assert Delete(r, k) == rest;
      }
    }
  }

  lemma {:induction false} DeleteUnique<V>(r: Record<V>, k: string)
    requires UniqueKeys(r)
    ensures UniqueKeys(Delete(r, k))
    ensures forall x :: x in Delete(r, k) ==> x in r
  {
    if r != [] {
      DeleteUnique(r[1..], k);
      var rest := Delete(r[1..], k);
      forall x | x in rest ensures x.0 != r[0].0 {
        var j :| 0 <= j < |r[1..]| && r[1..][j] == x;
        assert r[j + 1] == x;
      }
    }
  }

  /** After `Object.assign(r, src)` a key reads as its last value in `src`, or as before. */
  lemma {:induction false} GetPutAll<V>(r: Record<V>, src: Record<V>, k: string)
    ensures Get(PutAll(r, src), k) == if HasKey(src, k) then LastGet(src, k) else Get(r, k)
    decreases |src|
  {
    if src != [] {
      var r' := Put(r, src[0].0, src[0].1);
      GetPutAll(r', src[1..], k);
      GetPut(r, src[0].0, src[0].1, k);
      LastGetTail(src, k);
    }
  }

  /** Writing `a` and then `b` is writing `a + b`. */
  lemma {:induction false} PutAllConcat<V>(r: Record<V>, a: Record<V>, b: Record<V>)
    ensures PutAll(r, a + b) == PutAll(PutAll(r, a), b)
    decreases |a|
  {
    if a != [] {
      assert (a + b)[0] == a[0];
      assert (a + b)[1..] == a[1..] + b;
      PutAllConcat(Put(r, a[0].0, a[0].1), a[1..], b);
    } else {
      assert a + b == b;
    }
  }

  /** The last value of `k` in `src` is found in its tail unless the tail lacks `k`. */
  lemma {:induction false} LastGetTail<V>(src: Record<V>, k: string)
    requires src != []
    ensures LastGet(src, k) == if HasKey(src[1..], k) then LastGet(src[1..], k)
                               else if src[0].0 == k then Some(src[0].1) else None
    ensures HasKey(src, k) <==> HasKey(src[1..], k) || src[0].0 == k
    decreases |src|
  {
    assert HasKey(src, k) ==> HasKey(src[1..], k) || src[0].0 == k by {
      if HasKey(src, k) {
        var i :| 0 <= i < |src| && src[i].0 == k;
        if i > 0 { assert src[1..][i - 1].0 == k; }
      }
    }
    assert HasKey(src[1..], k) ==> HasKey(src, k) by {
      if HasKey(src[1..], k) {
        var i :| 0 <= i < |src[1..]| && src[1..][i].0 == k;
        assert src[i + 1].0 == k;
      }
    }
    if |src| > 1 && src[|src| - 1].0 != k {
      LastGetTail(src[..|src| - 1], k);
      assert src[..|src| - 1][1..] == src[1..][..|src[1..]| - 1];
    }
  }

  lemma {:induction false} PutAllUnique<V>(r: Record<V>, src: Record<V>)
    requires UniqueKeys(r)
    ensures UniqueKeys(PutAll(r, src))
    decreases |src|
  {
    if src != [] {
      PutUnique(r, src[0].0, src[0].1);
      PutAllUnique(Put(r, src[0].0, src[0].1), src[1..]);
    }
  }

  /** Writing a key the record does not have appends one entry. */
  lemma {:induction false} PutFresh<V>(r: Record<V>, k: string, v: V)
    requires !HasKey(r, k)
    ensures Put(r, k, v) == r + [(k, v)]
  {
    if r != [] {
      forall i | 0 <= i < |r[1..]| ensures r[1..][i].0 != k {
        assert r[1..][i] == r[i + 1];
      }
      assert r[0].0 != k;
      PutFresh(r[1..], k, v);
      assert r == [r[0]] + r[1..];
    }
  }

  /** Entries with keys new to the target and to each other are appended as they are. */
  lemma {:induction false} PutAllFresh<V>(r: Record<V>, src: Record<V>)
    requires UniqueKeys(r + src)
    ensures PutAll(r, src) == r + src
    decreases |src|
  {
    if src != [] {
      var k := src[0].0;
      forall i | 0 <= i < |r| ensures r[i].0 != k {
        assert (r + src)[i] == r[i] && (r + src)[|r|] == src[0];
      }
      PutFresh(r, k, src[0].1);
      assert r + [src[0]] + src[1..] == r + src;
      PutAllFresh(r + [src[0]], src[1..]);
    }
  }

  /** `Object.fromEntries` of entries with distinct keys is those entries, in order. */
  lemma FromEntriesUnique<V>(es: Record<V>)
    requires UniqueKeys(es)
    ensures FromEntries(es) == es
  {
    assert [] + es == es;
    PutAllFresh([], es);
  }

  /** `Object.assign` keeps every key of the target and adds those of the source. */
  lemma {:induction false} HasKeyPutAll<V>(r: Record<V>, src: Record<V>, k: string)
    ensures HasKey(PutAll(r, src), k) <==> HasKey(r, k) || HasKey(src, k)
  {
    GetPutAll(r, src, k);
  }

  /** The record with each value replaced by `f` of its entry, keys and order unchanged. */
  function MapValues<V, W>(r: Record<V>, f: (string, V) -> W): (m: Record<W>)
    ensures |m| == |r|
    ensures forall i :: 0 <= i < |r| ==> m[i] == (r[i].0, f(r[i].0, r[i].1))
  {
    seq(|r|, i requires 0 <= i < |r| => (r[i].0, f(r[i].0, r[i].1)))
  }

  /** A key's last value in a mapped record is `f` of its last value in the original. */
  lemma {:induction false} LastGetMapValues<V, W>(r: Record<V>, f: (string, V) -> W, k: string)
    ensures LastGet(MapValues(r, f), k) == if HasKey(r, k) then Some(f(k, LastGet(r, k).value)) else None
    decreases |r|
  {
    var m := MapValues(r, f);
    if r != [] {
      var n := |r| - 1;
      if r[n].0 != k {
        LastGetMapValues(r[..n], f, k);
        assert m[..n] == MapValues(r[..n], f);
      }
    }
  }

  lemma InKeys<V>(r: Record<V>, k: string)
    ensures k in Keys(r) <==> HasKey(r, k)
  {
    if k in Keys(r) {
      var i :| 0 <= i < |r| && Keys(r)[i] == k;
      assert r[i].0 == k;
    }
    if HasKey(r, k) {
      var i :| 0 <= i < |r| && r[i].0 == k;
      assert Keys(r)[i] == k;
    }
  }
  /** The last value of a key is the value of one of its entries. */
  lemma {:induction false} LastGetIn<V>(r: Record<V>, k: string)
    requires HasKey(r, k)
    ensures (k, LastGet(r, k).value) in r
    decreases |r|
  {
    if r[|r| - 1].0 != k {
      LastGetIn(r[..|r| - 1], k);
    }
  }

  /** With unique keys, reading an entry's key gives that entry's value. */
  lemma {:induction false} GetAt<V>(r: Record<V>, i: nat)
    requires UniqueKeys(r) && i < |r|
    ensures Get(r, r[i].0) == Some(r[i].1)
  {
    if i > 0 {
      GetAt(r[1..], i - 1);
    }
  }
  /** The last value of a key in `a + b` is its last value in `b`, or in `a` when `b` lacks it. */
  lemma {:induction false} LastGetConcat<V>(a: Record<V>, b: Record<V>, k: string)
    ensures LastGet(a + b, k) == if HasKey(b, k) then LastGet(b, k) else LastGet(a, k)
    decreases |b|
  {
    if b == [] {
      assert a + b == a;
    } else {
      var n := |b| - 1;
      assert (a + b)[|a + b| - 1] == b[n];
      assert (a + b)[..|a + b| - 1] == a + b[..n];
      if b[n].0 != k {
        LastGetConcat(a, b[..n], k);
        assert HasKey(b, k) ==> HasKey(b[..n], k) by {
          if HasKey(b, k) {
            var i :| 0 <= i < |b| && b[i].0 == k;
            assert b[..n][i].0 == k;
          }
        }
        assert HasKey(b[..n], k) ==> HasKey(b, k) by {
          if HasKey(b[..n], k) {
            var i :| 0 <= i < n && b[..n][i].0 == k;
            assert b[i].0 == k;
          }
        }
      }
    }
  }
}
