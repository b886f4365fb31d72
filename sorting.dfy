// The standard library's stable `sort_by_key` and `dedup` as the viewers
// use them: an insertion sort that puts each element after every earlier
// one with a key not greater than its own, and the removal of consecutive
// repeats.

module Sorting {
  predicate SortedBy<T>(s: seq<T>, key: T -> nat)
  {
    forall i, j :: 0 <= i < j < |s| ==> key(s[i]) <= key(s[j])
  }

  // x goes after every element whose key is not greater than its own.
  function InsertByKey<T>(x: T, s: seq<T>, key: T -> nat): (r: seq<T>)
    ensures |r| == |s| + 1
  {
    if |s| == 0 then [x]
    else if key(x) < key(s[0]) then [x] + s
    else [s[0]] + InsertByKey(x, s[1..], key)
  }

  // Inserting adds x and loses nothing.
  lemma {:induction false} InsertPermutes<T>(x: T, s: seq<T>, key: T -> nat)
    ensures multiset(InsertByKey(x, s, key)) == multiset(s) + multiset{x}
  {
    if |s| > 0 && key(x) >= key(s[0]) {
      InsertPermutes(x, s[1..], key);
      assert s == [s[0]] + s[1..];
    }
  }

  function SortByKey<T>(s: seq<T>, key: T -> nat): (r: seq<T>)
    ensures |r| == |s| && multiset(r) == multiset(s)
  {
    if |s| == 0 then []
    else
      assert s == s[..|s| - 1] + [s[|s| - 1]];
      InsertPermutes(s[|s| - 1], SortByKey(s[..|s| - 1], key), key);
      InsertByKey(s[|s| - 1], SortByKey(s[..|s| - 1], key), key)
  }

  lemma {:induction false} InsertSorted<T>(x: T, s: seq<T>, key: T -> nat)
    requires SortedBy(s, key)
    ensures SortedBy(InsertByKey(x, s, key), key)
  {
    if |s| > 0 && key(x) >= key(s[0]) {
      InsertSorted(x, s[1..], key);
      InsertPermutes(x, s[1..], key);
      var r := InsertByKey(x, s, key);
      var t := InsertByKey(x, s[1..], key);
      assert r == [s[0]] + t;
      forall j | 0 < j < |r|
        ensures key(r[0]) <= key(r[j])
      {
        assert r[j] in multiset(t);
        assert r[j] in multiset(s[1..]) + multiset{x};
        if r[j] != x {
          var k :| 0 <= k < |s[1..]| && s[1..][k] == r[j];
          assert s[1..][k] == s[k + 1];
        }
      }
    }
  }

  // The result is sorted by the key and is a permutation of the input.
  lemma {:induction false} SortSorted<T>(s: seq<T>, key: T -> nat)
    ensures SortedBy(SortByKey(s, key), key) && multiset(SortByKey(s, key)) == multiset(s)
  {
    if |s| > 0 {
      SortSorted(s[..|s| - 1], key);
      InsertSorted(s[|s| - 1], SortByKey(s[..|s| - 1], key), key);
    }
  }

  // `sort()` of plain numbers.
  function Id(x: nat): nat { x }

  function Sort(s: seq<nat>): (r: seq<nat>)
    ensures |r| == |s| && multiset(r) == multiset(s)
  {
    SortByKey(s, Id)
  }

  predicate Ascending(s: seq<nat>)
  {
    forall i, j :: 0 <= i < j < |s| ==> s[i] <= s[j]
  }

  predicate Increasing(s: seq<nat>)
  {
    forall i, j :: 0 <= i < j < |s| ==> s[i] < s[j]
  }

  lemma SortAscending(s: seq<nat>)
    ensures Ascending(Sort(s)) && multiset(Sort(s)) == multiset(s)
  {
    SortSorted(s, Id);
    var r := Sort(s);
    forall i, j | 0 <= i < j < |r|
      ensures r[i] <= r[j]
    {
      assert Id(r[i]) <= Id(r[j]);
    }
  }

  // `Vec::dedup`: consecutive repeats collapse to one.
  function Dedup(s: seq<nat>): (r: seq<nat>)
    ensures |r| <= |s|
  {
    if |s| <= 1 then s
    else if s[0] == s[1] then Dedup(s[1..])
    else [s[0]] + Dedup(s[1..])
  }

  // On a sorted sequence dedup leaves each value once, in increasing order,
  // and drops no value.
  lemma {:induction false} DedupIncreasing(s: seq<nat>)
    requires Ascending(s)
    ensures Increasing(Dedup(s))
    ensures forall x :: x in Dedup(s) <==> x in s
    ensures |s| > 0 ==> |Dedup(s)| > 0 && Dedup(s)[0] == s[0] && Dedup(s)[|Dedup(s)| - 1] == s[|s| - 1]
  {
    if |s| > 1 {
      var t := s[1..];
      assert Ascending(t);
      DedupIncreasing(t);
      assert forall x :: x in s <==> x == s[0] || x in t;
      var r := Dedup(s);
      if s[0] != s[1] {
        assert r == [s[0]] + Dedup(t);
        forall i, j | 0 <= i < j < |r|
          ensures r[i] < r[j]
        {
          if i == 0 {
            assert r[j] in t;
            var k :| 0 <= k < |t| && t[k] == r[j];
            assert t[k] == s[k + 1] && s[1] <= s[k + 1];
          } else {
            assert r[i] == Dedup(t)[i - 1] && r[j] == Dedup(t)[j - 1];
          }
        }
      }
    }
  }

  // The stable sort of four elements with keys 0, 1, 0, 1: the two with
  // key 0 first, each pair in its original order.
  lemma SortFour<T>(a: T, b: T, c: T, d: T, key: T -> nat)
    requires key(a) == 0 && key(b) == 1 && key(c) == 0 && key(d) == 1
    ensures SortByKey([a, b, c, d], key) == [a, c, b, d]
  {
    var three, four := [a, b, c], [a, b, c, d];
    assert four[..3] == three;
    SortThree(a, b, c, key);
    InsertLast(a, c, b, d, key);
  }

  lemma SortThree<T>(a: T, b: T, c: T, key: T -> nat)
    requires key(a) == 0 && key(b) == 1 && key(c) == 0
    ensures SortByKey([a, b, c], key) == [a, c, b]
  {
    assert [a, b, c][..2] == [a, b];
    SortTwo(a, b, key);
    InsertMiddle(c, a, b, key);
  }

  lemma SortTwo<T>(a: T, b: T, key: T -> nat)
    requires key(a) <= key(b)
    ensures SortByKey([a, b], key) == [a, b]
  {
    assert [a, b][..1] == [a] && [a][..0] == [];
    assert [a][1..] == [];
  }

  lemma InsertMiddle<T>(x: T, a: T, b: T, key: T -> nat)
    requires key(a) <= key(x) < key(b)
    ensures InsertByKey(x, [a, b], key) == [a, x, b]
  {
    assert [a, b][1..] == [b];
  }

  lemma InsertLast<T>(a: T, c: T, b: T, d: T, key: T -> nat)
    requires key(a) == 0 && key(b) == 1 && key(c) == 0 && key(d) == 1
    ensures InsertByKey(d, [a, c, b], key) == [a, c, b, d]
  {
    assert [a, c, b][1..] == [c, b] && [c, b][1..] == [b] && [b][1..] == [];
    assert InsertByKey(d, [b], key) == [b] + [d];
    assert InsertByKey(d, [c, b], key) == [c] + [b, d];
    assert InsertByKey(d, [a, c, b], key) == [a] + [c, b, d] == [a, c, b, d];
  }
}
