/**
 * `FixedLenDict`: an insertion-ordered dictionary with a maximum size.
 *
 * The dictionary is the key order `keys` and the key-to-value map `items`.
 * Storing a new key into a full dictionary first prunes it to one below the
 * maximum, which deletes the oldest key, and then appends the new key.
 * Storing a key that is already present replaces its value and leaves the
 * key where it was: the ordered dictionary underneath does not move it.
 */
module FixedLenDicts {

  /** The maximum size used when none is given. */
  const DefaultMaxSize: int := 2000

  function Min(a: int, b: int): int {
    if a <= b then a else b
  }

  predicate Distinct<K(==)>(s: seq<K>) {
    forall i, j :: 0 <= i < j < |s| ==> s[i] != s[j]
  }

  /** `s` with every occurrence of `k` taken out, the rest in order. */
  function Without<K(==)>(s: seq<K>, k: K): seq<K> {
    if s == [] then []
    else (if s[0] == k then [] else [s[0]]) + Without(s[1..], k)
  }

  /**
   * The key order after pruning to `m`: when there are at least `m` keys, the
   * first `len - m` of them are deleted. A slice that runs past the end stops
   * there, so a negative `m` deletes every key.
   */
  function Pruned<K>(keys: seq<K>, m: int): seq<K> {
    if |keys| >= m then keys[Min(|keys| - m, |keys|)..] else keys
  }

  /** The key order after storing `key` into a dictionary with order `keys` and maximum `maxSize`. */
  function KeysAfterSet<K(==)>(keys: seq<K>, maxSize: int, key: K): seq<K> {
    if key in keys then keys
    else if |keys| == maxSize then Pruned(keys, maxSize - 1) + [key]
    else keys + [key]
  }

  /** The key order after storing each of `ids` in turn. */
  function Replay<K(==)>(keys: seq<K>, maxSize: int, ids: seq<K>): seq<K>
    decreases |ids|
  {
    if ids == [] then keys
    else KeysAfterSet(Replay(keys, maxSize, ids[..|ids| - 1]), maxSize, ids[|ids| - 1])
  }

  lemma {:induction false} WithoutMembers<K>(s: seq<K>, k: K)
    ensures forall x :: x in Without(s, k) <==> x in s && x != k
  {
    if s != [] {
      WithoutMembers(s[1..], k);
      assert s == [s[0]] + s[1..];
    }
  }

  lemma {:induction false} WithoutDistinct<K>(s: seq<K>, k: K)
    requires Distinct(s)
    ensures Distinct(Without(s, k))
  {
    if s != [] {
      WithoutDistinct(s[1..], k);
      WithoutMembers(s[1..], k);
      assert s[0] !in s[1..];
    }
  }

  lemma {:induction false} WithoutAbsent<K>(s: seq<K>, k: K)
    requires k !in s
    ensures Without(s, k) == s
  {
    if s != [] {
      WithoutAbsent(s[1..], k);
      assert s == [s[0]] + s[1..];
    }
  }

  /** Deleting the first key of a duplicate-free order leaves the rest in order. */
  lemma WithoutFirst<K>(s: seq<K>)
    requires Distinct(s) && s != []
    ensures Without(s, s[0]) == s[1..]
  {
    assert s[0] !in s[1..];
    WithoutAbsent(s[1..], s[0]);
  }

  /** A new key stored into a full dictionary evicts exactly the oldest key and keeps the size. */
  lemma SetNewKeyWhenFull<K>(keys: seq<K>, maxSize: int, key: K)
    requires key !in keys && |keys| == maxSize && maxSize >= 1
    ensures KeysAfterSet(keys, maxSize, key) == keys[1..] + [key]
    ensures |KeysAfterSet(keys, maxSize, key)| == maxSize
    ensures keys[0] !in KeysAfterSet(keys, maxSize, key) <== Distinct(keys)
  {
  }

  /** A new key stored below the maximum is appended and nothing is evicted. */
  lemma SetNewKeyWhenRoom<K>(keys: seq<K>, maxSize: int, key: K)
    requires key !in keys && |keys| < maxSize
    ensures KeysAfterSet(keys, maxSize, key) == keys + [key]
    ensures |KeysAfterSet(keys, maxSize, key)| == |keys| + 1
  {
  }

  /** Re-storing a present key changes neither the order nor the size, and evicts nothing. */
  lemma SetExistingKey<K>(keys: seq<K>, maxSize: int, key: K)
    requires key in keys
    ensures KeysAfterSet(keys, maxSize, key) == keys
  {
  }

  /** With a maximum of at least one, storing never takes the dictionary over its maximum. */
  lemma SetKeepsBound<K>(keys: seq<K>, maxSize: int, key: K)
    requires maxSize >= 1 && |keys| <= maxSize
    ensures |KeysAfterSet(keys, maxSize, key)| <= maxSize
  {
  }

  /** With a maximum of zero the prune finds no key to delete, and the bound breaks. */
  lemma SetWithZeroMaxSizeOverflows<K>(key: K)
    ensures KeysAfterSet([], 0, key) == [key]
  {
  }

  /** Storing keeps the key order free of duplicates, and the stored key is present afterwards. */
  lemma {:induction false} SetKeepsDistinct<K>(keys: seq<K>, maxSize: int, key: K)
    requires Distinct(keys)
    ensures Distinct(KeysAfterSet(keys, maxSize, key))
    ensures key in KeysAfterSet(keys, maxSize, key)
    ensures forall k :: k in KeysAfterSet(keys, maxSize, key) ==> k in keys || k == key
  {
    if key !in keys {
      var rest := if |keys| == maxSize then Pruned(keys, maxSize - 1) else keys;
      assert forall k :: k in rest ==> k in keys;
      assert Distinct(rest);
      assert KeysAfterSet(keys, maxSize, key) == rest + [key];
    }
  }

  /**
   * Storing distinct ids one after another into an empty dictionary with a
   * maximum of at least one leaves exactly the most recent `maxSize` of them,
   * oldest first.
   */
  lemma {:induction false} ReplayKeepsLatest<K>(maxSize: int, ids: seq<K>)
    requires maxSize >= 1 && Distinct(ids)
    ensures Replay([], maxSize, ids) == ids[|ids| - Min(|ids|, maxSize)..]
  {
    if ids != [] {
      var pre, last := ids[..|ids| - 1], ids[|ids| - 1];
      assert Distinct(pre);
      ReplayKeepsLatest(maxSize, pre);
      var w := pre[|pre| - Min(|pre|, maxSize)..];
      assert last !in pre;
      assert last !in w;
      if |pre| >= maxSize {
        assert |w| == maxSize;
        assert KeysAfterSet(w, maxSize, last) == w[1..] + [last];
        SlideWindow(ids, maxSize);
      } else {
        assert w == pre;
        assert pre + [last] == ids;
      }
    }
  }

  /** Dropping the oldest of the last m ids before the newest, then appending the newest, gives the last m ids. */
  lemma SlideWindow<K>(ids: seq<K>, m: nat)
    requires 1 <= m < |ids|
    ensures var pre := ids[..|ids| - 1];
      pre[|pre| - m..][1..] + [ids[|ids| - 1]] == ids[|ids| - m..]
  {
    var pre := ids[..|ids| - 1];
    assert pre[|pre| - m..][1..] == ids[|ids| - m..|ids| - 1];
  }

  /** Storing maxSize + 1 distinct ids evicts exactly the first one stored. */
  lemma ReplayOneOverEvictsFirst<K>(maxSize: int, ids: seq<K>)
    requires maxSize >= 1 && Distinct(ids) && |ids| == maxSize + 1
    ensures Replay([], maxSize, ids) == ids[1..]
    ensures ids[0] !in Replay([], maxSize, ids)
  {
    ReplayKeepsLatest(maxSize, ids);
  }

  class FixedLenDict<K(==), V> {
    /** The keys, oldest first. */
    var keys: seq<K>
    /** The value stored under each key. */
    var items: map<K, V>
    var maxSize: int

    ghost predicate Valid()
      reads this
    {
      && Distinct(keys)
      && (forall k :: k in items ==> k in keys)
      && (forall k :: k in keys ==> k in items)
    }

    constructor (maxSize: int)
      ensures Valid() && this.maxSize == maxSize && keys == [] && items == map[]
    {
      this.maxSize := maxSize;
      keys := [];
      items := map[];
    }

    /** A dictionary created without a maximum gets the default, 2000. */
    constructor WithDefaultMaxSize()
      ensures Valid() && maxSize == DefaultMaxSize && keys == [] && items == map[]
    {
      maxSize := DefaultMaxSize;
      keys := [];
      items := map[];
    }

    /** `del self[k]`: removes the entry for `k` wherever it stands. */
    method Delete(k: K)
      requires Valid() && k in items
      modifies this
      ensures Valid() && maxSize == old(maxSize)
      ensures keys == Without(old(keys), k)
      ensures items == old(items) - {k}
    {
      WithoutMembers(keys, k);
      WithoutDistinct(keys, k);
      keys := Without(keys, k);
      items := items - {k};
      forall x | x in keys
        ensures x in items
      {
        WithoutMembers(old(keys), k);
      }
    }

    /** Reduces the dictionary to `m` entries by deleting the oldest keys one at a time. */
    method PruneDict(m: int)
      requires Valid()
      modifies this
      ensures Valid() && maxSize == old(maxSize)
      ensures keys == Pruned(old(keys), m)
      ensures |old(keys)| >= m >= 0 ==> |keys| == m
      ensures forall k :: k in items ==> k in old(items) && items[k] == old(items)[k]
    {
      if |keys| >= m {
        var diff := |keys| - m;
        var doomed := keys[..Min(diff, |keys|)];
        for i := 0 to |doomed|
          invariant Valid() && maxSize == old(maxSize)
          invariant keys == old(keys)[i..]
          invariant forall k :: k in items ==> k in old(items) && items[k] == old(items)[k]
        {
          assert doomed[i] == keys[0];
          WithoutFirst(keys);
          Delete(doomed[i]);
        }
      }
    }

    /**
     * `self[key] = val`. A new key stored into a full dictionary first prunes
     * it to one entry below the maximum; a present key keeps its place.
     */
    method SetItem(key: K, val: V)
      requires Valid()
      modifies this
      ensures Valid() && maxSize == old(maxSize)
      ensures keys == KeysAfterSet(old(keys), maxSize, key)
      ensures key in items && items[key] == val
      ensures forall k :: k in items && k != key ==> k in old(items) && items[k] == old(items)[k]
      ensures maxSize >= 1 && |old(keys)| <= maxSize ==> |keys| <= maxSize
      ensures key !in old(items) && |old(keys)| == maxSize >= 1 ==>
        keys == old(keys)[1..] + [key] && old(keys)[0] !in items
    {
      if key !in items && |keys| == maxSize {
        var m := maxSize - 1;
        PruneDict(m);
      }
      if key !in items {
        keys := keys + [key];
      }
      items := items[key := val];
      SetKeepsDistinct(old(keys), maxSize, key);
    }

    /** The values in key order. */
    function Values(): (vs: seq<V>)
      reads this
      requires Valid()
      ensures |vs| == |keys|
      ensures forall i :: 0 <= i < |keys| ==> vs[i] == items[keys[i]]
    {
      var ks, m := keys, items;
      seq(|ks|, i requires 0 <= i < |ks| && ks[i] in m => m[ks[i]])
    }
  }
}
