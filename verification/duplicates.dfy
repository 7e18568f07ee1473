/**
 * Duplicate detection as the validators do it: group a collection by a
 * composite key and fail when some group holds more than one element.
 */
module Duplicates {

  /** Every two positions hold different keys. */
  predicate Distinct<K(==)>(keys: seq<K>) {
    forall i, j | 0 <= i < j < |keys| :: keys[i] != keys[j]
  }

  /** The keys of the groups that `GroupBy(...).Where(g => g.Skip(1).Any())` keeps. */
  function DuplicateGroups<K(==)>(keys: seq<K>): set<K> {
    set k | k in keys && multiset(keys)[k] > 1
  }

  /** `duplicate.Count() == 0`. */
  predicate NoDuplicateGroups<K(==)>(keys: seq<K>) {
    |DuplicateGroups(keys)| == 0
  }

  /** A key occurring twice has a group of two or more. */
  lemma {:induction false} RepeatedKeyCount<K>(keys: seq<K>, i: nat, j: nat)
    requires i < j < |keys| && keys[i] == keys[j]
    ensures multiset(keys)[keys[i]] > 1
  {
    assert keys == keys[..i] + [keys[i]] + keys[i + 1..j] + [keys[j]] + keys[j + 1..];
  }

  /** A key occurring at most once in a sequence of distinct keys. */
  lemma {:induction false} DistinctCount<K>(keys: seq<K>, k: K)
    requires Distinct(keys)
    ensures multiset(keys)[k] <= 1
  {
    if |keys| > 0 {
      var rest := keys[1..];
      assert keys == [keys[0]] + rest;
      DistinctCount(rest, k);
    }
  }

  /** In a sequence of distinct items every item occurs once. */
  lemma DistinctOnce<K>(keys: seq<K>, k: K)
    requires Distinct(keys)
    ensures multiset(keys)[k] == if k in keys then 1 else 0
  {
    DistinctCount(keys, k);
  }

  /** Two sequences of distinct items with no item in common join into one. */
  lemma DistinctConcat<K>(a: seq<K>, b: seq<K>)
    requires Distinct(a) && Distinct(b)
    requires forall k | k in a :: k !in b
    ensures Distinct(a + b)
  {
    forall i, j | 0 <= i < j < |a + b| ensures (a + b)[i] != (a + b)[j] {
      if i < |a| && |a| <= j {
        assert (a + b)[i] in a && (a + b)[j] in b;
      }
    }
  }

  /** Grouping finds no duplicate group exactly when all keys are distinct. */
  lemma NoDuplicateGroupsIffDistinct<K>(keys: seq<K>)
    ensures NoDuplicateGroups(keys) <==> Distinct(keys)
  {
    if Distinct(keys) {
      forall k | k in keys ensures multiset(keys)[k] <= 1 {
        DistinctCount(keys, k);
      }
      assert DuplicateGroups(keys) == {};
    } else {
      var i, j :| 0 <= i < j < |keys| && keys[i] == keys[j];
      RepeatedKeyCount(keys, i, j);
      assert keys[i] in DuplicateGroups(keys);
    }
  }

  /** Reordering the keys never changes the verdict. */
  lemma NoDuplicateGroupsPermutation<K>(a: seq<K>, b: seq<K>)
    requires multiset(a) == multiset(b)
    ensures NoDuplicateGroups(a) <==> NoDuplicateGroups(b)
  {
    forall k ensures k in a <==> k in b {
      assert k in a <==> k in multiset(a);
      assert k in b <==> k in multiset(b);
    }
    assert DuplicateGroups(a) == DuplicateGroups(b);
  }

  /** The key of every element, in collection order. */
  function KeysOf<T, K>(xs: seq<T>, key: T -> K): (keys: seq<K>)
    ensures |keys| == |xs|
    ensures forall i | 0 <= i < |xs| :: keys[i] == key(xs[i])
  {
    seq(|xs|, i requires 0 <= i < |xs| => key(xs[i]))
  }

  /** Taking one element out of a sequence takes it out of its multiset. */
  lemma RemoveAt<T>(s: seq<T>, k: nat)
    requires k < |s|
    ensures multiset(s) == multiset(s[..k] + s[k + 1..]) + multiset{s[k]}
  {
    assert s == s[..k] + [s[k]] + s[k + 1..];
  }

  lemma Cancel<T>(a: multiset<T>, b: multiset<T>, x: T)
    requires a + multiset{x} == b + multiset{x}
    ensures a == b
  {
    forall y ensures a[y] == b[y] {
      assert (a + multiset{x})[y] == (b + multiset{x})[y];
    }
  }

  /** The keys of a collection with one element taken out. */
  lemma KeysOfRemoveAt<T, K>(ys: seq<T>, k: nat, key: T -> K)
    requires k < |ys|
    ensures multiset(KeysOf(ys, key)) == multiset(KeysOf(ys[..k] + ys[k + 1..], key)) + multiset{key(ys[k])}
  {
    var ks := KeysOf(ys, key);
    RemoveAt(ks, k);
    assert KeysOf(ys[..k] + ys[k + 1..], key) == ks[..k] + ks[k + 1..];
  }

  lemma KeysOfCons<T, K>(xs: seq<T>, key: T -> K)
    requires |xs| > 0
    ensures multiset(KeysOf(xs, key)) == multiset(KeysOf(xs[1..], key)) + multiset{key(xs[0])}
  {
    assert KeysOf(xs, key) == [key(xs[0])] + KeysOf(xs[1..], key);
  }

  ghost function IndexOf<T>(s: seq<T>, x: T): (k: nat)
    requires x in s
    ensures k < |s| && s[k] == x
  {
    if s[0] == x then 0 else 1 + IndexOf(s[1..], x)
  }

  /** Taking the first element out of one collection and the same element out of a permutation leaves a permutation. */
  lemma RestPermutation<T>(xs: seq<T>, ys: seq<T>, k: nat)
    requires |xs| > 0 && k < |ys| && ys[k] == xs[0]
    requires multiset(xs) == multiset(ys)
    ensures multiset(xs[1..]) == multiset(ys[..k] + ys[k + 1..])
  {
    RemoveAt(ys, k);
    RemoveAt(xs, 0);
    assert xs[..0] + xs[1..] == xs[1..];
    Cancel(multiset(xs[1..]), multiset(ys[..k] + ys[k + 1..]), xs[0]);
  }

  /** Permuting a collection permutes its keys. */
  lemma {:induction false} KeysOfPermutation<T, K>(xs: seq<T>, ys: seq<T>, key: T -> K)
    requires multiset(xs) == multiset(ys)
    ensures multiset(KeysOf(xs, key)) == multiset(KeysOf(ys, key))
  {
    if |xs| == 0 {
      assert |ys| == |multiset(ys)|;
      assert ys == [];
    } else {
      var x := xs[0];
      assert x in multiset(ys);
      var k := IndexOf(ys, x);
      var rest := ys[..k] + ys[k + 1..];
      RestPermutation(xs, ys, k);
      KeysOfPermutation(xs[1..], rest, key);
      KeysOfRemoveAt(ys, k, key);
      KeysOfCons(xs, key);
    }
  }
}
