/** A Python `dict` with string keys, as its insertion-ordered list of entries.
    `d[k] = v` replaces the value in place when k is present and appends
    otherwise, so iteration order is the order in which keys first appeared.

    The operations carry no postconditions of their own; what they guarantee
    is stated by the lemmas that follow each of them, so that a proof brings
    in exactly the facts it uses. */
module Dict {
  import opened Wrappers
  import Text

  type Dict<V> = seq<(string, V)>

  /** `d.keys()`, in iteration order. */
  function Keys<V>(d: Dict<V>): seq<string> {
    seq(|d|, i requires 0 <= i < |d| => d[i].0)
  }

  /** No key appears twice: what every Python dict satisfies. */
  predicate Unique<V>(d: Dict<V>) {
    forall i, j :: 0 <= i < j < |d| ==> d[i].0 != d[j].0
  }

  /** `d.get(k)`, as an option: the value of the first entry under k. */
  function Get<V>(d: Dict<V>, k: string): Option<V> {
    if d == [] then None
    else if d[0].0 == k then Some(d[0].1)
    else Get(d[1..], k)
  }

  /** `d[k] = v` */
  function Put<V>(d: Dict<V>, k: string, v: V): Dict<V> {
    if d == [] then [(k, v)]
    else if d[0].0 == k then [(k, v)] + d[1..]
    else [d[0]] + Put(d[1..], k, v)
  }

  /** The keys past the first entry are the keys of the rest. */
  lemma KeysTail<V>(d: Dict<V>)
    requires d != []
    ensures Keys(d) == [d[0].0] + Keys(d[1..])
  {
  }

  /** A lookup misses exactly when the key is absent, and a hit is an entry
      of the dict. */
  lemma {:induction false} GetKeys<V>(d: Dict<V>, k: string)
    ensures Get(d, k).None? <==> k !in Keys(d)
    ensures Get(d, k).Some? ==> (k, Get(d, k).value) in d
  {
    if d != [] {
      KeysTail(d);
      if d[0].0 != k {
        GetKeys(d[1..], k);
      }
    }
  }

  /** Assigning a key keeps the position of an existing key and appends a
      new one. */
  lemma {:induction false} PutKeys<V>(d: Dict<V>, k: string, v: V)
    ensures Keys(Put(d, k, v)) == if k in Keys(d) then Keys(d) else Keys(d) + [k]
  {
    if d != [] {
      KeysTail(d);
      if d[0].0 != k {
        PutKeys(d[1..], k, v);
        KeysTail(Put(d, k, v));
      } else {
        assert Keys(Put(d, k, v)) == [k] + Keys(d[1..]);
      }
    }
  }

  /** After `d[k] = v`, `d.get(k)` is v. */
  lemma {:induction false} PutGet<V>(d: Dict<V>, k: string, v: V)
    ensures Get(Put(d, k, v), k) == Some(v)
  {
    if d != [] && d[0].0 != k {
      PutGet(d[1..], k, v);
    }
  }

  /** Assigning one key leaves every other key's value alone. */
  lemma {:induction false} PutOther<V>(d: Dict<V>, k: string, v: V, k': string)
    requires k' != k
    ensures Get(Put(d, k, v), k') == Get(d, k')
  {
    if d != [] && d[0].0 != k {
      PutOther(d[1..], k, v, k');
    }
  }

  /** Assigning a key keeps the keys unique. */
  lemma PutUnique<V>(d: Dict<V>, k: string, v: V)
    requires Unique(d)
    ensures Unique(Put(d, k, v))
  {
    var r := Put(d, k, v);
    PutKeys(d, k, v);
    forall i, j | 0 <= i < j < |r| ensures r[i].0 != r[j].0 {
      assert Keys(r)[i] == r[i].0 && Keys(r)[j] == r[j].0;
      if j < |d| {
        assert Keys(d)[i] == d[i].0 && Keys(d)[j] == d[j].0;
      } else {
        assert Keys(d)[i] == d[i].0;
      }
    }
  }

  /** Assigning the same key twice keeps only the second value. */
  lemma {:induction false} PutPut<V>(d: Dict<V>, k: string, v: V, w: V)
    ensures Put(Put(d, k, v), k, w) == Put(d, k, w)
  {
    if d != [] && d[0].0 != k {
      PutPut(d[1..], k, v, w);
    }
  }

  /** Assigning a key that is absent appends it. */
  lemma {:induction false} PutAbsent<V>(d: Dict<V>, k: string, v: V)
    requires k !in Keys(d)
    ensures Put(d, k, v) == d + [(k, v)]
  {
    if d != [] {
      KeysTail(d);
      PutAbsent(d[1..], k, v);
      ConsAppend(d, (k, v));
    }
  }

  lemma ConsAppend<T>(d: seq<T>, x: T)
    requires d != []
    ensures [d[0]] + (d[1..] + [x]) == d + [x]
  {
    assert d == [d[0]] + d[1..];
  }

  /** A dict that holds the pair (k, v) and no other entry under k answers v. */
  lemma {:induction false} GetUnique<V>(d: Dict<V>, k: string, v: V)
    requires Unique(d) && (k, v) in d
    ensures Get(d, k) == Some(v)
  {
    if d[0] != (k, v) {
      assert d[0].0 != k by {
        var j :| 0 <= j < |d| && d[j] == (k, v);
        assert j > 0;
      }
      assert Unique(d[1..]) by {
        forall i, j | 0 <= i < j < |d| - 1 ensures d[1..][i].0 != d[1..][j].0 {
          assert d[1..][i] == d[i + 1] && d[1..][j] == d[j + 1];
        }
      }
      GetUnique(d[1..], k, v);
    }
  }

  /** Entry i of d has a key that lowers to k. */
  predicate LowersTo<V>(d: Dict<V>, i: int, k: string) {
    0 <= i < |d| && Text.Lower(d[i].0) == k
  }

  /** `{k.lower(): v for k, v in d.items()}`: the entries are visited in order
      and each is assigned under its lowered key, so when two keys lower to the
      same string the later value wins, at the position of the earlier key. */
  function LowerKeys<V>(d: Dict<V>): Dict<V> {
    LowerPrefix(d, |d|)
  }

  /** The comprehension after its first n entries. */
  function LowerPrefix<V>(d: Dict<V>, n: nat): Dict<V>
    requires n <= |d|
  {
    if n == 0 then []
    else Put(LowerPrefix(d, n - 1), Text.Lower(d[n - 1].0), d[n - 1].1)
  }

  /** The lowered forms of the first n keys, in order. */
  function LoweredKeys<V>(d: Dict<V>, n: nat): seq<string>
    requires n <= |d|
  {
    seq(n, i requires 0 <= i < n => Text.Lower(d[i].0))
  }

  predicate AllLower(ks: seq<string>) {
    forall i :: 0 <= i < |ks| ==> Text.IsLower(ks[i])
  }

  lemma {:induction false} LowerPrefixLower<V>(d: Dict<V>, n: nat)
    requires n <= |d|
    ensures Unique(LowerPrefix(d, n)) && AllLower(Keys(LowerPrefix(d, n)))
  {
    if n > 0 {
      var prev := LowerPrefix(d, n - 1);
      var k := Text.Lower(d[n - 1].0);
      LowerPrefixLower(d, n - 1);
      PutUnique(prev, k, d[n - 1].1);
      PutKeys(prev, k, d[n - 1].1);
      Text.LowerIsLower(d[n - 1].0);
    }
  }

  lemma {:induction false} LowerPrefixKeys<V>(d: Dict<V>, n: nat, k: string)
    requires n <= |d|
    ensures k in Keys(LowerPrefix(d, n)) <==> k in LoweredKeys(d, n)
  {
    if n > 0 {
      var kn := Text.Lower(d[n - 1].0);
      LowerPrefixKeys(d, n - 1, k);
      PutKeys(LowerPrefix(d, n - 1), kn, d[n - 1].1);
      assert LoweredKeys(d, n) == LoweredKeys(d, n - 1) + [kn];
    }
  }

  lemma {:induction false} LowerPrefixLast<V>(d: Dict<V>, n: nat, i: nat, k: string)
    requires i < n <= |d|
    requires LowersTo(d, i, k)
    requires forall j :: i < j < n ==> !LowersTo(d, j, k)
    ensures Get(LowerPrefix(d, n), k) == Some(d[i].1)
  {
    var prev := LowerPrefix(d, n - 1);
    var kn := Text.Lower(d[n - 1].0);
    if i < n - 1 {
      assert !LowersTo(d, n - 1, k);
      PutOther(prev, kn, d[n - 1].1, k);
      LowerPrefixLast(d, n - 1, i, k);
    } else {
      PutGet(prev, kn, d[n - 1].1);
    }
  }

  lemma {:induction false} LowerPrefixOfLower<V>(d: Dict<V>, n: nat)
    requires n <= |d|
    requires Unique(d) && AllLower(Keys(d))
    ensures LowerPrefix(d, n) == d[..n]
  {
    if n > 0 {
      var p, e := d[..n - 1], d[n - 1];
      assert e.0 !in Keys(p) by {
        forall j | 0 <= j < |p| ensures Keys(p)[j] != e.0 {
          assert Keys(p)[j] == d[j].0;
        }
      }
      assert Text.IsLower(e.0) by { assert Keys(d)[n - 1] == e.0; }
      Text.LowerOfLower(e.0);
      LowerPrefixOfLower(d, n - 1);
      PutAbsent(p, e.0, e.1);
      assert p + [e] == d[..n];
    }
  }

  /** Every key of the comprehension is lower-case and appears once. */
  lemma LowerKeysLower<V>(d: Dict<V>)
    ensures Unique(LowerKeys(d)) && AllLower(Keys(LowerKeys(d)))
  {
    LowerPrefixLower(d, |d|);
  }

  /** A key of the comprehension is exactly the lowered form of an input key. */
  lemma LowerKeysKeys<V>(d: Dict<V>, k: string)
    ensures k in Keys(LowerKeys(d)) <==> exists i :: LowersTo(d, i, k)
  {
    LowerPrefixKeys(d, |d|, k);
    var ls := LoweredKeys(d, |d|);
    if k in ls {
      var i :| 0 <= i < |ls| && ls[i] == k;
      assert LowersTo(d, i, k);
    }
    if exists i :: LowersTo(d, i, k) {
      var i :| LowersTo(d, i, k);
      assert ls[i] == k;
    }
  }

  /** Looking up a lowered key finds the value of the last input entry whose
      key lowers to it. */
  lemma LowerKeysGet<V>(d: Dict<V>, i: nat)
    requires i < |d|
    requires forall j :: i < j < |d| ==> !LowersTo(d, j, Text.Lower(d[i].0))
    ensures Get(LowerKeys(d), Text.Lower(d[i].0)) == Some(d[i].1)
  {
    LowerPrefixLast(d, |d|, i, Text.Lower(d[i].0));
  }

  /** A dict whose keys are lower-case and unique is its own comprehension. */
  lemma LowerKeysOfLower<V>(d: Dict<V>)
    requires Unique(d) && AllLower(Keys(d))
    ensures LowerKeys(d) == d
  {
    LowerPrefixOfLower(d, |d|);
    assert d[..|d|] == d;
  }

  /** Lowering the keys twice is lowering them once. */
  lemma LowerKeysIdempotent<V>(d: Dict<V>)
    ensures LowerKeys(LowerKeys(d)) == LowerKeys(d)
  {
    LowerKeysLower(d);
    LowerKeysOfLower(LowerKeys(d));
  }
}
