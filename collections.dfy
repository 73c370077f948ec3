/**
 * The element order of near_sdk's `UnorderedSet` and of the key vector of its
 * `UnorderedMap`: an insertion of a new element appends it, an insertion of a
 * present element changes nothing, and a removal moves the last element into
 * the freed slot (`Vector::swap_remove`).
 */
module Collections {

  predicate NoDup<T(==)>(s: seq<T>)
  {
    forall i, j :: 0 <= i < j < |s| ==> s[i] != s[j]
  }

  /** `UnorderedSet::insert`. */
  function Insert<T(==,!new)>(s: seq<T>, x: T): (r: seq<T>)
    ensures forall y :: y in r <==> y in s || y == x
    ensures NoDup(s) ==> NoDup(r)
    ensures |s| <= |r| && r[..|s|] == s
  {
    if x in s then s else s + [x]
  }

  /** The position of the first occurrence of `x`. */
  function IndexOf<T(==,!new)>(s: seq<T>, x: T): (i: nat)
    requires x in s
    ensures i < |s| && s[i] == x
    ensures x !in s[..i]
  {
    if s[0] == x then 0 else 1 + IndexOf(s[1..], x)
  }

  /** `UnorderedSet::remove`: the last element takes the place of the removed one. */
  function Remove<T(==,!new)>(s: seq<T>, x: T): (r: seq<T>)
    ensures x !in s ==> r == s
    ensures x in s ==> |r| == |s| - 1
    ensures forall y :: y != x ==> (y in r <==> y in s)
    ensures NoDup(s) ==> NoDup(r) && x !in r
  {
    if x !in s then s
    else
      var i, last := IndexOf(s, x), |s| - 1;
      if i == last then s[..last]
      else
        var r := s[..i] + [s[last]] + s[i + 1..last];
        assert forall k :: 0 <= k < |r| ==> r[k] == s[if k == i then last else k];
        assert forall k :: 0 <= k < |s| && k != i ==> s[k] == r[if k == last then i else k];
        r
  }
}
