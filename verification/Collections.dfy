/** Filtering a list, finding an element in it, and the sizes of sets. */
module Collections {
  function Filter<T>(keep: T -> bool, s: seq<T>): seq<T> {
    if s == [] then []
    else
      var front := Filter(keep, s[..|s| - 1]);
      if keep(s[|s| - 1]) then front + [s[|s| - 1]] else front
  }

  lemma {:induction false} Filtered<T>(keep: T -> bool, s: seq<T>, x: T)
    ensures x in Filter(keep, s) <==> x in s && keep(x)
    decreases |s|
  {
    if s == [] {
    } else {
      Filtered(keep, s[..|s| - 1], x);
      assert s == s[..|s| - 1] + [s[|s| - 1]];
    }
  }

  /** The second list is what is left of the first without the elements not to be kept, in their order and number. */
  ghost predicate Sifted<T(!new)>(from: seq<T>, into: seq<T>, keep: T -> bool)
    decreases |from|
  {
    if from == [] then into == []
    else if keep(from[0]) then into != [] && into[0] == from[0] && Sifted(from[1..], into[1..], keep)
    else Sifted(from[1..], into, keep)
  }

  lemma {:induction false} SiftedMore<T(!new)>(from: seq<T>, into: seq<T>, keep: T -> bool, x: T)
    requires Sifted(from, into, keep)
    ensures Sifted(from + [x], if keep(x) then into + [x] else into, keep)
    decreases |from|
  {
    var more := if keep(x) then into + [x] else into;
    if from == [] {
      assert from + [x] == [x] && [x][1..] == [];
      assert keep(x) ==> more == [x];
    } else {
      assert (from + [x])[1..] == from[1..] + [x] && (from + [x])[0] == from[0];
      if keep(from[0]) {
        SiftedMore(from[1..], into[1..], keep, x);
        assert more[1..] == if keep(x) then into[1..] + [x] else into[1..];
      } else {
        SiftedMore(from[1..], into, keep, x);
      }
    }
  }

  /** Filtering from the back is sifting from the front. */
  lemma {:induction false} FilterSifts<T(!new)>(keep: T -> bool, s: seq<T>)
    ensures Sifted(s, Filter(keep, s), keep)
    decreases |s|
  {
    if s == [] {
    } else {
      var n := |s| - 1;
      FilterSifts(keep, s[..n]);
      SiftedMore(s[..n], Filter(keep, s[..n]), keep, s[n]);
      assert s == s[..n] + [s[n]];
    }
  }

  lemma {:induction false} SiftedMembers<T(!new)>(from: seq<T>, into: seq<T>, keep: T -> bool, x: T)
    requires Sifted(from, into, keep)
    ensures x in into <==> x in from && keep(x)
    decreases |from|
  {
    if from == [] {
    } else {
      assert from == [from[0]] + from[1..];
      if keep(from[0]) {
        SiftedMembers(from[1..], into[1..], keep, x);
        assert into == [into[0]] + into[1..];
      } else {
        SiftedMembers(from[1..], into, keep, x);
      }
    }
  }

  lemma {:induction false} FilterAgrees<T(!new)>(keep: T -> bool, same: T -> bool, s: seq<T>)
    requires forall x :: x in s ==> keep(x) == same(x)
    ensures Filter(keep, s) == Filter(same, s)
    decreases |s|
  {
    if s == [] {
    } else {
      FilterAgrees(keep, same, s[..|s| - 1]);
      assert s[|s| - 1] in s;
    }
  }

  lemma {:induction false} FilterBoth<T(!new)>(first: T -> bool, second: T -> bool, both: T -> bool, s: seq<T>)
    requires forall x :: both(x) == (first(x) && second(x))
    ensures Filter(second, Filter(first, s)) == Filter(both, s)
    decreases |s|
  {
    if s == [] {
    } else {
      var n := |s| - 1;
      FilterBoth(first, second, both, s[..n]);
      if first(s[n]) {
        var front := Filter(first, s[..n]);
        assert (front + [s[n]])[..|front + [s[n]]| - 1] == front;
      }
    }
  }

  /** Where an element comes first. */
  function Position<T(==)>(s: seq<T>, x: T): (i: nat)
    requires x in s
    ensures i < |s| && s[i] == x
  {
    if s[0] == x then 0 else 1 + Position(s[1..], x)
  }

  lemma SubsetSize<T>(a: set<T>, b: set<T>)
    requires a <= b
    ensures |a| <= |b|
  {
    assert b == a + (b - a);
  }

  lemma OneLeftLess<T>(all: set<T>, rest: set<T>, x: T)
    requires rest <= all && x in rest
    ensures all - (rest - {x}) == all - rest + {x}
  {
  }
}
