/** Lists without repetition, and what is left of one when an element goes. */
module Sequences {

  ghost predicate Distinct<T>(s: seq<T>) {
    forall i, j :: 0 <= i < j < |s| ==> s[i] != s[j]
  }

  function IndexOf<T(==)>(s: seq<T>, x: T): (k: int)
    requires x in s
    ensures 0 <= k < |s| && s[k] == x
  {
    if s[0] == x then 0 else 1 + IndexOf(s[1..], x)
  }

  lemma IndexOfDistinct<T>(s: seq<T>, i: int)
    requires Distinct(s) && 0 <= i < |s|
    ensures IndexOf(s, s[i]) == i
  {
  }

  function DropAt<T>(s: seq<T>, k: int): (r: seq<T>)
    requires 0 <= k < |s|
    ensures |r| == |s| - 1
  {
    s[..k] + s[k + 1..]
  }

  function Without<T(==)>(s: seq<T>, x: T): (r: seq<T>)
    requires x in s
  {
    DropAt(s, IndexOf(s, x))
  }

  lemma WithoutDistinct<T>(s: seq<T>, x: T)
    requires x in s && Distinct(s)
    ensures Distinct(Without(s, x))
    ensures forall y :: y in Without(s, x) <==> y in s && y != x
  {
    var k := IndexOf(s, x);
    var r := Without(s, x);
    forall y | y in s && y != x
      ensures y in r
    {
      var i :| 0 <= i < |s| && s[i] == y;
      assert r[if i < k then i else i - 1] == y;
    }
  }

  lemma WithoutLater<T>(s: seq<T>, x: T, y: T)
    requires y in s && y != x
    ensures Without([x] + s, y) == [x] + Without(s, y)
  {
    var t, k := [x] + s, IndexOf(s, y);
    assert t[1..] == s;
    assert IndexOf(t, y) == k + 1;
    assert t[..k + 1] == [x] + s[..k] && t[k + 2..] == s[k + 1..];
  }
}
