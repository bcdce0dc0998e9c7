/** Removal from a slice in place (utils/slice.go). A slice is the first n elements of an array. */
module Slices {

  /** The first index of an element, or -1. */
  function FirstIndex<K(==)>(element: K, data: seq<K>): (k: int)
    ensures -1 <= k < |data|
    ensures k >= 0 ==> data[k] == element && element !in data[..k]
    ensures k == -1 ==> element !in data
  {
    if data == [] then -1
    else if data[0] == element then 0
    else
      var k := FirstIndex(element, data[1..]);
      assert forall i | 0 <= i < |data| - 1 :: data[i + 1] == data[1..][i];
      if k == -1 then -1 else k + 1
  }

  /** Only one index is first. */
  lemma FirstIndexUnique<K>(element: K, data: seq<K>, k: nat)
    requires k < |data| && data[k] == element && element !in data[..k]
    ensures FirstIndex(element, data) == k
  {
  }

  method IndexOf<K(==)>(element: K, data: array<K>, n: nat) returns (k: int)
    requires n <= data.Length
    ensures k == FirstIndex(element, data[..n])
  {
    for i := 0 to n
      invariant element !in data[..i]
    {
      if element == data[i] {
        assert data[..n][..i] == data[..i];
        FirstIndexUnique(element, data[..n], i);
        return i;
      }
    }
    return -1;
  }

  /** The elements the slice holds after removing e: the last one takes the place of the first e. */
  function Removed<K(==)>(s: seq<K>, e: K): seq<K> {
    if |s| <= 1 then []
    else
      var i := FirstIndex(e, s);
      if i == -1 then s else s[i := s[|s| - 1]][..|s| - 1]
  }

  /**
   The slice is the first n elements of s, the result the first m of r: a new, empty slice for at
   most one element, else the caller's own, with the first e overwritten by the last element,
   which is still behind the end.
   */
  method Remove<K(==)>(s: array<K>, n: nat, e: K) returns (r: array<K>, m: nat)
    requires n <= s.Length
    modifies s
    ensures if n <= 1 then fresh(r) && r.Length == 0 else r == s
    ensures m <= n && m <= r.Length && r[..m] == Removed(old(s[..n]), e)
    ensures var i := FirstIndex(e, old(s[..n]));
            s[..] == if n <= 1 || i == -1 then old(s[..]) else old(s[..])[i := old(s[n - 1])]
  {
    if n <= 1 {
      r := new K[0];
      return r, 0;
    }
    var i := IndexOf(e, s, n);
    if i == -1 {
      return s, n;
    }
    s[i] := s[n - 1];
    return s, n - 1;
  }

  /** Exactly one e is gone and every other element is still there as often as before. */
  ghost predicate RemovesOne<K>(before: seq<K>, e: K, after: seq<K>) {
    multiset(after) == multiset(before) - multiset{e}
  }

  lemma SwapRemoveMultiset<K>(s: seq<K>, i: nat)
    requires i < |s|
    ensures multiset(s[i := s[|s| - 1]][..|s| - 1]) == multiset(s) - multiset{s[i]}
  {
    var last := |s| - 1;
    var after := s[i := s[last]][..last];
    if i < last {
      var a, b := s[..i], s[i + 1..last];
      assert s == a + [s[i]] + (b + [s[last]]);
      assert after == a + ([s[last]] + b);
      assert multiset(s) == multiset(a) + multiset{s[i]} + (multiset(b) + multiset{s[last]});
      assert multiset(after) == multiset(a) + (multiset{s[last]} + multiset(b));
    } else {
      assert s == after + [s[i]];
    }
  }

  /** Removal does what its name says except on a one-element slice that holds something else. */
  lemma RemovesOneIff<K>(s: seq<K>, e: K)
    ensures RemovesOne(s, e, Removed(s, e)) <==> !(|s| == 1 && s[0] != e)
  {
    var i := FirstIndex(e, s);
    if |s| == 1 {
      assert s == [s[0]];
      assert multiset(s) == multiset{s[0]};
      if s[0] != e {
        assert multiset(s)[s[0]] == 1;
      }
    } else if |s| > 1 && i >= 0 {
      SwapRemoveMultiset(s, i);
    } else if |s| > 1 {
      assert e !in multiset(s);
    }
  }

  /** All but two positions keep their element: the removed one and the last. */
  lemma RemovedKeepsOthers<K>(s: seq<K>, e: K, k: nat)
    requires e in s && k < |s| - 1 && k != FirstIndex(e, s)
    ensures k < |Removed(s, e)| && Removed(s, e)[k] == s[k]
  {
  }
}
