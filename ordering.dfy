/**
 * The order the engine works in: transactions sorted by date, then by id
 * (`OrderBy(t => t.Date).ThenBy(t => t.Id)`). The sort is an insertion sort
 * that puts an element before every element with an equal key, so records
 * with equal keys keep their input order, as LINQ's stable sort does.
 */
module Ordering {
  import opened Transactions

  predicate Sorted(s: seq<Transaction>)
  {
    forall i, j :: 0 <= i < j < |s| ==> KeyLe(s[i], s[j])
  }

  /** Putting in front an element that comes before all of a sorted sequence keeps it sorted. */
  lemma SortedCons(h: Transaction, rest: seq<Transaction>, tail: seq<Transaction>, t: Transaction)
    requires Sorted(rest)
    requires multiset(rest) == multiset(tail) + multiset{t}
    requires KeyLe(h, t)
    requires forall i :: 0 <= i < |tail| ==> KeyLe(h, tail[i])
    ensures Sorted([h] + rest)
  {
    forall j | 0 <= j < |rest|
      ensures KeyLe(h, rest[j])
    {
      assert rest[j] in multiset(rest);
      if rest[j] != t {
        assert rest[j] in multiset(tail);
        var i :| 0 <= i < |tail| && tail[i] == rest[j];
      }
    }
  }

  function Insert(t: Transaction, s: seq<Transaction>): (r: seq<Transaction>)
    requires Sorted(s)
    ensures |r| == |s| + 1
    ensures multiset(r) == multiset(s) + multiset{t}
    ensures Sorted(r)
  {
    if s == [] || KeyLe(t, s[0]) then
      [t] + s
    else
      var rest := Insert(t, s[1..]);
      InsertBehind(t, s, rest);
      [s[0]] + rest
  }

  /** Putting the head of `s` in front of `t` inserted into the tail is `t` inserted into `s`. */
  lemma InsertBehind(t: Transaction, s: seq<Transaction>, rest: seq<Transaction>)
    requires Sorted(s) && s != [] && !KeyLe(t, s[0])
    requires Sorted(rest) && multiset(rest) == multiset(s[1..]) + multiset{t}
    ensures multiset([s[0]] + rest) == multiset(s) + multiset{t}
    ensures Sorted([s[0]] + rest)
  {
    assert s == [s[0]] + s[1..];
    SortedCons(s[0], rest, s[1..], t);
  }

  /** The input in (Date, Id) order: sorted and a permutation of the input. */
  function SortByDateId(s: seq<Transaction>): (r: seq<Transaction>)
    ensures |r| == |s|
    ensures multiset(r) == multiset(s)
    ensures Sorted(r)
  {
    if s == [] then []
    else
      assert s == [s[0]] + s[1..];
      Insert(s[0], SortByDateId(s[1..]))
  }

  /** Input already in (Date, Id) order comes out unchanged. */
  lemma {:induction false} SortKeepsSortedInput(s: seq<Transaction>)
    requires Sorted(s)
    ensures SortByDateId(s) == s
  {
    if s != [] {
      assert s == [s[0]] + s[1..];
      SortKeepsSortedInput(s[1..]);
    }
  }
}
