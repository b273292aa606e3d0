/**
 Shared vocabulary of the city model: identifiers into the building and agent
 arenas, optional values and results, the C# float-to-int cast, and the
 behaviour of the .NET `List<T>` operations the city relies on.
 */
module Basics {

  /** Key of a building in the city's building arena. */
  type BuildingId = nat

  /** Key of an agent (an inhabitant) in the city's agent arena. */
  type AgentId = nat

  /** A reference that may be null. */
  datatype Option<T> = None | Some(value: T)

  /** Either a value or the reason no value could be produced. */
  datatype Result<T, E> = Success(value: T) | Failure(error: E)

  /** The C# cast `(int) r` of a floating-point value: truncation toward zero. */
  function Trunc(r: real): (n: int)
    ensures 0.0 <= r ==> n as real <= r < n as real + 1.0
    ensures r <= 0.0 ==> n as real - 1.0 < r <= n as real
  {
    if r >= 0.0 then r.Floor else -((-r).Floor)
  }

  /** No element occurs twice. */
  ghost predicate Distinct<T>(s: seq<T>) {
    forall i, j :: 0 <= i < j < |s| ==> s[i] != s[j]
  }

  /** Appending an element absent from a list without repetitions keeps it so. */
  lemma DistinctSnoc<T>(s: seq<T>, x: T)
    requires Distinct(s) && x !in s
    ensures Distinct(s + [x])
  {
    forall i, j | 0 <= i < j < |s + [x]|
      ensures (s + [x])[i] != (s + [x])[j]
    {
      if j == |s| { assert s[i] in s; }
    }
  }

  /** Two lists without repetitions and without a common element concatenate to one. */
  lemma DistinctAppend<T>(a: seq<T>, b: seq<T>)
    requires Distinct(a) && Distinct(b)
    requires forall k :: 0 <= k < |a| ==> a[k] !in b
    ensures Distinct(a + b)
  {
    forall i, j | 0 <= i < j < |a + b|
      ensures (a + b)[i] != (a + b)[j]
    {
      if i < |a| && j >= |a| {
        assert (a + b)[j] == b[j - |a|];
        assert b[j - |a|] in b;
      } else if i >= |a| {
        assert (a + b)[i] == b[i - |a|] && (a + b)[j] == b[j - |a|];
      }
    }
  }

  /**
   The search inside `List<T>.Remove`: the position of the first occurrence
   of `x`. An absent `x` gives `|s|` here, the position just past the list,
   which `RemoveFirst` reads as "nothing to remove".
   */
  function IndexOf<T(==)>(s: seq<T>, x: T): (k: nat)
    ensures k <= |s|
    ensures k < |s| ==> s[k] == x
    ensures forall i :: 0 <= i < k ==> s[i] != x
  {
    if |s| == 0 then 0
    else if s[0] == x then 0
    else 1 + IndexOf(s[1..], x)
  }

  /** `List<T>.Remove`: drops the first occurrence of `x`, and does nothing when `x` is absent. */
  function RemoveFirst<T(==)>(s: seq<T>, x: T): (r: seq<T>)
    ensures x !in s ==> r == s
    ensures x in s ==> |r| == |s| - 1
  {
    var k := IndexOf(s, x);
    if k == |s| then s else s[..k] + s[k + 1..]
  }

  /** Removing an element takes exactly one copy of it out of the list, and nothing else. */
  lemma RemoveFirstMultiset<T>(s: seq<T>, x: T)
    ensures multiset(RemoveFirst(s, x)) == multiset(s) - multiset{x}
  {
    var k := IndexOf(s, x);
    if k < |s| {
      var front, back := s[..k], s[k + 1..];
      assert s == front + [x] + back;
      assert RemoveFirst(s, x) == front + back;
      assert multiset(s) == multiset(front) + multiset{x} + multiset(back);
    } else {
      assert RemoveFirst(s, x) == s;
      assert multiset(s)[x] == 0;
    }
  }

  /** The elements left after a removal are the elements of the list other than the removed one. */
  lemma RemoveFirstMembers<T>(s: seq<T>, x: T, y: T)
    requires y != x
    ensures y in RemoveFirst(s, x) <==> y in s
  {
    RemoveFirstMultiset(s, x);
    assert y in RemoveFirst(s, x) <==> y in multiset(RemoveFirst(s, x));
    assert y in s <==> y in multiset(s);
  }

  /** In a list without repetitions, removal leaves no copy behind and creates no repetition. */
  lemma RemoveFirstDistinct<T>(s: seq<T>, x: T)
    requires Distinct(s)
    ensures x !in RemoveFirst(s, x)
    ensures Distinct(RemoveFirst(s, x))
  {
    var k := IndexOf(s, x);
    if k < |s| {
      var r := s[..k] + s[k + 1..];
      forall i | 0 <= i < |r|
        ensures r[i] != x
      {
        if i < k { assert r[i] == s[i]; } else { assert r[i] == s[i + 1]; }
      }
      forall i, j | 0 <= i < j < |r|
        ensures r[i] != r[j]
      {
        var i' := if i < k then i else i + 1;
        var j' := if j < k then j else j + 1;
        assert r[i] == s[i'] && r[j] == s[j'] && i' < j';
      }
    }
  }
}
