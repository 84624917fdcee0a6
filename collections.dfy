/**
 * Insertion-ordered, string-keyed maps and sequence helpers shared by the
 * model. A JavaScript plain object (iterated by `Object.entries`) and a Rust
 * `IndexMap<String, _>` are both modelled as a sequence of key/value pairs in
 * insertion order; assigning to an existing key keeps its position.
 */
module Collections {

  datatype Option<T> = None | Some(value: T)

  /** An insertion-ordered map with string keys. */
  type Entries<V> = seq<(string, V)>

  /** The keys of `m`, in order. */
  function Keys<V>(m: Entries<V>): (ks: seq<string>)
    ensures |ks| == |m|
    ensures forall i :: 0 <= i < |m| ==> ks[i] == m[i].0
  {
    if m == [] then [] else [m[0].0] + Keys(m[1..])
  }

  /** No key occurs twice: true of every JavaScript object and every IndexMap. */
  predicate UniqueKeys<V>(m: Entries<V>) {
    forall i, j :: 0 <= i < j < |m| ==> m[i].0 != m[j].0
  }

  /** Property lookup: the value stored under `k`, if any. */
  function Get<V>(m: Entries<V>, k: string): (r: Option<V>)
    ensures r.Some? ==> (k, r.value) in m
  {
    if m == [] then None
    else if m[0].0 == k then Some(m[0].1)
    else Get(m[1..], k)
  }

  /** Lookup fails exactly for the keys `m` does not hold. */
  lemma {:induction false} GetNone<V>(m: Entries<V>, k: string)
    ensures Get(m, k).None? <==> k !in Keys(m)
  {
    if m != [] {
      GetNone(m[1..], k);
      assert Keys(m) == [m[0].0] + Keys(m[1..]);
    }
  }

  /** Under unique keys, every entry is what lookup finds for its key. */
  lemma {:induction false} GetUnique<V>(m: Entries<V>, k: string, v: V)
    requires UniqueKeys(m)
    requires (k, v) in m
    ensures Get(m, k) == Some(v)
  {
    if m[0] != (k, v) {
      assert (k, v) in m[1..];
      assert m[0].0 != k by {
        var j :| 0 <= j < |m| && m[j] == (k, v);
      }
      assert UniqueKeys(m[1..]) by {
        forall i, j | 0 <= i < j < |m[1..]| ensures m[1..][i].0 != m[1..][j].0 {
          assert m[1..][i] == m[i + 1] && m[1..][j] == m[j + 1];
        }
      }
      GetUnique(m[1..], k, v);
    }
  }

  /** An entry appended last is invisible to lookups of other keys. */
  lemma {:induction false} GetSnoc<V>(m: Entries<V>, k: string, v: V, k': string)
    requires k' != k
    ensures Get(m + [(k, v)], k') == Get(m, k')
  {
    if m != [] {
      assert (m + [(k, v)])[1..] == m[1..] + [(k, v)];
      GetSnoc(m[1..], k, v, k');
    }
  }

  /**
   * Property assignment `m[k] = v` (and `IndexMap::insert`): an existing key
   * keeps its position and takes the new value, a new key goes last.
   */
  function Put<V>(m: Entries<V>, k: string, v: V): (r: Entries<V>)
    ensures Get(r, k) == Some(v)
    ensures forall k' :: k' != k ==> Get(r, k') == Get(m, k')
  {
    if m == [] then [(k, v)]
    else if m[0].0 == k then [(k, v)] + m[1..]
    else
      var r := [m[0]] + Put(m[1..], k, v);
      assert r[1..] == Put(m[1..], k, v);
      r
  }

  /** The keys of a list with an entry put in front. */
  lemma KeysCons<V>(x: (string, V), m: Entries<V>)
    ensures Keys([x] + m) == [x.0] + Keys(m)
  {
    assert ([x] + m)[1..] == m;
  }

  /** Assigning to a present key leaves the keys as they were. */
  lemma {:induction false} PutKeysPresent<V>(m: Entries<V>, k: string, v: V)
    requires k in Keys(m)
    ensures Keys(Put(m, k, v)) == Keys(m)
  {
    KeysCons(m[0], m[1..]);
    assert [m[0]] + m[1..] == m;
    if m[0].0 == k {
      KeysCons((k, v), m[1..]);
    } else {
      PutKeysPresent(m[1..], k, v);
      KeysCons(m[0], Put(m[1..], k, v));
    }
  }

  /** Assigning to a new key appends it. */
  lemma {:induction false} PutKeysAbsent<V>(m: Entries<V>, k: string, v: V)
    requires k !in Keys(m)
    ensures Keys(Put(m, k, v)) == Keys(m) + [k]
  {
    if m == [] {
      assert Keys(Put(m, k, v)) == [k];
    } else {
      KeysCons(m[0], m[1..]);
      assert [m[0]] + m[1..] == m;
      PutKeysAbsent(m[1..], k, v);
      KeysCons(m[0], Put(m[1..], k, v));
    }
  }

  /** Assignment keeps the existing keys in place and appends a new key last. */
  lemma PutKeys<V>(m: Entries<V>, k: string, v: V)
    ensures Keys(Put(m, k, v)) == if k in Keys(m) then Keys(m) else Keys(m) + [k]
  {
    if k in Keys(m) {
      PutKeysPresent(m, k, v);
    } else {
      PutKeysAbsent(m, k, v);
    }
  }

  /**
   * Object spread `{...m, ...src}`: the entries of `src` are assigned to `m`
   * one after another, in their order.
   */
  function Assign<V>(m: Entries<V>, src: Entries<V>): (r: Entries<V>)
    ensures forall k :: k !in Keys(src) ==> Get(r, k) == Get(m, k)
    decreases |src|
  {
    if src == [] then m
    else
      assert Keys(src) == [src[0].0] + Keys(src[1..]);
      Assign(Put(m, src[0].0, src[0].1), src[1..])
  }

  /** In a spread, an entry of `src` wins over `m` for the same key. */
  lemma {:induction false} AssignGet<V>(m: Entries<V>, src: Entries<V>, k: string)
    requires UniqueKeys(src)
    requires k in Keys(src)
    ensures Get(Assign(m, src), k) == Get(src, k)
    decreases |src|
  {
    assert Keys(src) == [src[0].0] + Keys(src[1..]);
    var m' := Put(m, src[0].0, src[0].1);
    if src[0].0 == k {
      assert k !in Keys(src[1..]) by {
        forall i | 0 <= i < |src[1..]| ensures Keys(src[1..])[i] != k {
          assert src[1..][i] == src[i + 1];
        }
      }
    } else {
      assert UniqueKeys(src[1..]) by {
        forall i, j | 0 <= i < j < |src[1..]| ensures src[1..][i].0 != src[1..][j].0 {
          assert src[1..][i] == src[i + 1] && src[1..][j] == src[j + 1];
        }
      }
      AssignGet(m', src[1..], k);
    }
  }

  /** Spreading one more entry is one more assignment. */
  lemma {:induction false} AssignSnoc<V>(m: Entries<V>, src: Entries<V>, k: string, v: V)
    ensures Assign(m, src + [(k, v)]) == Put(Assign(m, src), k, v)
    decreases |src|
  {
    if src == [] {
      assert src + [(k, v)] == [(k, v)];
    } else {
      assert (src + [(k, v)])[1..] == src[1..] + [(k, v)];
      AssignSnoc(Put(m, src[0].0, src[0].1), src[1..], k, v);
    }
  }

  lemma AppendAssoc<T>(a: seq<T>, b: seq<T>, c: seq<T>)
    ensures a + b + c == a + (b + c)
  {
  }

  /**
   * The keys of `ks` that are not in `seen`, each at its first occurrence,
   * in order: the keys a spread of `ks` adds to an object holding `seen`.
   */
  function NewKeys(ks: seq<string>, seen: seq<string>): (r: seq<string>)
    ensures forall k :: k in r <==> k in ks && k !in seen
  {
    if ks == [] then []
    else if ks[0] in seen then NewKeys(ks[1..], seen)
    else [ks[0]] + NewKeys(ks[1..], seen + [ks[0]])
  }

  /** No element occurs twice. */
  predicate Distinct(xs: seq<string>) {
    forall i, j :: 0 <= i < j < |xs| ==> xs[i] != xs[j]
  }

  /** The added keys are distinct. */
  lemma {:induction false} NewKeysDistinct(ks: seq<string>, seen: seq<string>)
    ensures Distinct(NewKeys(ks, seen))
  {
    if ks != [] {
      if ks[0] in seen {
        NewKeysDistinct(ks[1..], seen);
        assert NewKeys(ks, seen) == NewKeys(ks[1..], seen);
      } else {
        var rest := NewKeys(ks[1..], seen + [ks[0]]);
        NewKeysDistinct(ks[1..], seen + [ks[0]]);
        assert ks[0] !in rest;
        var r := [ks[0]] + rest;
        assert NewKeys(ks, seen) == r;
        forall i, j | 0 <= i < j < |r| ensures r[i] != r[j] {
          assert r[j] == rest[j - 1] && rest[j - 1] in rest;
          if i > 0 {
            assert r[i] == rest[i - 1];
            assert Distinct(rest);
          } else {
            assert r[i] == ks[0];
          }
        }
      }
    }
  }

  /** Distinct keys, none of them seen before, are all added, in their own order. */
  lemma {:induction false} NewKeysFresh(ks: seq<string>, seen: seq<string>)
    requires Distinct(ks)
    requires forall k :: k in ks ==> k !in seen
    ensures NewKeys(ks, seen) == ks
  {
    if ks != [] {
      var seen' := seen + [ks[0]];
      forall k | k in ks[1..] ensures k !in seen' {
        var j :| 0 <= j < |ks[1..]| && ks[1..][j] == k;
        assert ks[j + 1] == k && ks[0] != ks[j + 1];
      }
      assert Distinct(ks[1..]) by {
        forall i, j | 0 <= i < j < |ks[1..]| ensures ks[1..][i] != ks[1..][j] {
          assert ks[1..][i] == ks[i + 1] && ks[1..][j] == ks[j + 1];
        }
      }
      NewKeysFresh(ks[1..], seen');
      assert ks == [ks[0]] + ks[1..];
    }
  }

  /**
   * The keys after a spread: the original keys, in place, then the keys
   * only the source holds, in the order of their first appearance there.
   */
  lemma {:induction false} AssignKeys<V>(m: Entries<V>, src: Entries<V>)
    ensures Keys(Assign(m, src)) == Keys(m) + NewKeys(Keys(src), Keys(m))
    decreases |src|
  {
    if src != [] {
      var k := src[0].0;
      var m' := Put(m, k, src[0].1);
      KeysCons(src[0], src[1..]);
      assert [src[0]] + src[1..] == src;
      AssignKeys(m', src[1..]);
      PutKeys(m, k, src[0].1);
      if k !in Keys(m) {
        AppendAssoc(Keys(m), [k], NewKeys(Keys(src[1..]), Keys(m) + [k]));
      }
    }
  }
}
