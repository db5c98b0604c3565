/**
 * LINQ's `GroupBy` and `Where` on integer keys. `GroupBy` yields one group
 * per distinct key, the keys in the order they first occur and each group in
 * input order; a group is `Where` of its key.
 */
module Grouping {

  /** The distinct keys of `s`, in order of first occurrence. */
  function Keys<T>(s: seq<T>, key: T -> int): (ks: seq<int>)
  {
    if s == [] then []
    else
      var ks := Keys(s[..|s| - 1], key);
      if key(s[|s| - 1]) in ks then ks else ks + [key(s[|s| - 1])]
  }

  /** The elements of `s` whose key is `k`, in input order. */
  function Where<T>(s: seq<T>, key: T -> int, k: int): (g: seq<T>)
  {
    if s == [] then []
    else Where(s[..|s| - 1], key, k) + (if key(s[|s| - 1]) == k then [s[|s| - 1]] else [])
  }

  /** The keys listed are exactly the keys that occur, each listed once. */
  lemma {:induction false} KeysAreDistinctKeys<T>(s: seq<T>, key: T -> int)
    ensures forall k :: k in Keys(s, key) <==> exists i :: 0 <= i < |s| && key(s[i]) == k
    ensures forall i, j :: 0 <= i < j < |Keys(s, key)| ==> Keys(s, key)[i] != Keys(s, key)[j]
  {
    if s != [] {
      var front := s[..|s| - 1];
      KeysAreDistinctKeys(front, key);
      assert forall i :: 0 <= i < |front| ==> front[i] == s[i];
    }
  }

  /** A group holds exactly the elements with its key. */
  lemma {:induction false} WhereHoldsItsKey<T>(s: seq<T>, key: T -> int, k: int)
    ensures |Where(s, key, k)| <= |s|
    ensures forall i :: 0 <= i < |Where(s, key, k)| ==> Where(s, key, k)[i] in s && key(Where(s, key, k)[i]) == k
    ensures forall i :: 0 <= i < |s| && key(s[i]) == k ==> s[i] in Where(s, key, k)
  {
    if s != [] {
      var front := s[..|s| - 1];
      assert s == front + [s[|s| - 1]];
      WhereHoldsItsKey(front, key, k);
    }
  }

  /** Appending one element adds it to its own group and to no other. */
  lemma WhereSnoc<T>(s: seq<T>, x: T, key: T -> int, k: int)
    ensures Where(s + [x], key, k) == Where(s, key, k) + (if key(x) == k then [x] else [])
  {
    assert (s + [x])[..|s|] == s;
  }

  /** Appending one element adds its key at the end when the key is new. */
  lemma KeysSnoc<T>(s: seq<T>, x: T, key: T -> int)
    ensures Keys(s + [x], key) == if key(x) in Keys(s, key) then Keys(s, key) else Keys(s, key) + [key(x)]
  {
    assert (s + [x])[..|s|] == s;
  }

  /** A key that does not occur has an empty group. */
  lemma WhereAbsent<T>(s: seq<T>, key: T -> int, k: int)
    requires forall i :: 0 <= i < |s| ==> key(s[i]) != k
    ensures Where(s, key, k) == []
  {
    WhereHoldsItsKey(s, key, k);
  }

  /** When the keys never decrease along `s`, its distinct keys strictly increase. */
  lemma {:induction false} KeysIncreasing<T>(s: seq<T>, key: T -> int)
    requires forall i, j :: 0 <= i <= j < |s| ==> key(s[i]) <= key(s[j])
    ensures forall i, j :: 0 <= i < j < |Keys(s, key)| ==> Keys(s, key)[i] < Keys(s, key)[j]
  {
    if s != [] {
      var front := s[..|s| - 1];
      assert s == front + [s[|s| - 1]];
      KeysIncreasing(front, key);
      KeysSnoc(front, s[|s| - 1], key);
      KeysAreDistinctKeys(front, key);
      var ks := Keys(front, key);
      forall i | 0 <= i < |ks|
        ensures ks[i] <= key(s[|s| - 1])
      {
        assert ks[i] in ks;
        var j :| 0 <= j < |front| && key(front[j]) == ks[i];
        assert front[j] == s[j];
      }
    }
  }

  /** The group of a key starts with the first element that has the key. */
  lemma {:induction false} WhereStartsAtFirst<T>(s: seq<T>, key: T -> int, j: nat)
    requires j < |s|
    requires forall i :: 0 <= i < j ==> key(s[i]) != key(s[j])
    ensures |Where(s, key, key(s[j]))| > 0 && Where(s, key, key(s[j]))[0] == s[j]
  {
    var front := s[..|s| - 1];
    assert s == front + [s[|s| - 1]];
    assert forall i :: 0 <= i < |front| ==> front[i] == s[i];
    WhereSnoc(front, s[|s| - 1], key, key(s[j]));
    if j == |s| - 1 {
      WhereAbsent(front, key, key(s[j]));
    } else {
      WhereStartsAtFirst(front, key, j);
    }
  }

  /** Every listed key has a non-empty group. */
  lemma KeysHaveGroups<T>(s: seq<T>, key: T -> int)
    ensures forall i :: 0 <= i < |Keys(s, key)| ==> |Where(s, key, Keys(s, key)[i])| > 0
  {
    KeysAreDistinctKeys(s, key);
    forall i | 0 <= i < |Keys(s, key)|
      ensures |Where(s, key, Keys(s, key)[i])| > 0
    {
      var k := Keys(s, key)[i];
      assert k in Keys(s, key);
      var j :| 0 <= j < |s| && key(s[j]) == k;
      WhereHoldsItsKey(s, key, k);
      assert s[j] in Where(s, key, k);
    }
  }
}
