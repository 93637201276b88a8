/**
 * `Array.prototype.map` over strings, and the fact that mapping a permutation
 * gives a permutation (used to show the barrel does not depend on key order).
 */
module JsArrays {
  import opened Sorting

  /** `Array.prototype.map` over strings. */
  function MapStrings(f: string -> string, s: seq<string>): (r: seq<string>)
    ensures |r| == |s|
    ensures forall i :: 0 <= i < |s| ==> r[i] == f(s[i])
  {
    if s == [] then [] else [f(s[0])] + MapStrings(f, s[1..])
  }

  lemma {:induction false} MapAppend(f: string -> string, a: seq<string>, b: seq<string>)
    ensures MapStrings(f, a + b) == MapStrings(f, a) + MapStrings(f, b)
  {
    if a != [] {
      assert (a + b)[1..] == a[1..] + b;
      MapAppend(f, a[1..], b);
    } else {
      assert a + b == b;
    }
  }

  lemma MapHead(f: string -> string, a: seq<string>)
    requires a != []
    ensures multiset(MapStrings(f, a)) == multiset{f(a[0])} + multiset(MapStrings(f, a[1..]))
  {
    assert MapStrings(f, a) == [f(a[0])] + MapStrings(f, a[1..]);
  }

  /** Removing the element at `j` removes one copy of it from the multiset. */
  lemma RemoveAt(b: seq<string>, j: nat)
    requires j < |b|
    ensures multiset(b[..j] + b[j + 1..]) == multiset(b) - multiset{b[j]}
  {
    assert b == b[..j] + [b[j]] + b[j + 1..];
  }

  lemma MapRemoveAt(f: string -> string, b: seq<string>, j: nat)
    requires j < |b|
    ensures multiset(MapStrings(f, b)) == multiset(MapStrings(f, b[..j] + b[j + 1..])) + multiset{f(b[j])}
  {
    SplitAt(b, j);
    MapAppend(f, b[..j] + [b[j]], b[j + 1..]);
    MapAppend(f, b[..j], [b[j]]);
    MapAppend(f, b[..j], b[j + 1..]);
    assert MapStrings(f, [b[j]]) == [f(b[j])];
  }

  lemma SplitAt(b: seq<string>, j: nat)
    requires j < |b|
    ensures b == b[..j] + [b[j]] + b[j + 1..]
  {
  }

  /** Mapping a permutation gives a permutation. */
  lemma {:induction false} MapPermutation(f: string -> string, a: seq<string>, b: seq<string>)
    requires multiset(a) == multiset(b)
    ensures multiset(MapStrings(f, a)) == multiset(MapStrings(f, b))
    decreases |a|
  {
    if a == [] {
      assert |multiset(b)| == 0;
    } else {
      assert a[0] in multiset(b);
      var j :| 0 <= j < |b| && b[j] == a[0];
      MultisetTail(a);
      RemoveAt(b, j);
      MapPermutation(f, a[1..], b[..j] + b[j + 1..]);
      MapRemoveAt(f, b, j);
      MapHead(f, a);
    }
  }
}
