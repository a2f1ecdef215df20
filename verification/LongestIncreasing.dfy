/**
 Longest strictly increasing subsequences (src/order-keys.ts). `Longest` picks one by
 recursion on what the best subsequence ending at each index can be; the method finds the
 same one with the patience algorithm: tails, back pointers and a binary search.
 */
module LongestIncreasing {
  function Max(x: nat, y: nat): nat {
    if x < y then y else x
  }

  /** The greatest rank among the first n indices that hold a value below v. */
  function Best(s: seq<int>, n: nat, v: int): nat
    requires n <= |s|
    decreases n, 0
  {
    if n == 0 then 0
    else if s[n - 1] < v then Max(Rank(s, n - 1), Best(s, n - 1, v))
    else Best(s, n - 1, v)
  }

  /** Length of the longest strictly increasing subsequence that ends at index j. */
  function Rank(s: seq<int>, j: nat): (r: nat)
    requires j < |s|
    ensures 1 <= r
    decreases j, 1
  {
    1 + Best(s, j, s[j])
  }

  /** The greatest rank among the first n indices. */
  function MaxRank(s: seq<int>, n: nat): nat
    requires n <= |s|
  {
    if n == 0 then 0 else Max(Rank(s, n - 1), MaxRank(s, n - 1))
  }

  /** The last index below n with rank r, or -1. */
  function LastOfRank(s: seq<int>, r: nat, n: nat): (j: int)
    requires n <= |s|
    ensures -1 <= j < n
  {
    if n == 0 then -1
    else if Rank(s, n - 1) == r then n - 1
    else LastOfRank(s, r, n - 1)
  }

  lemma {:induction false} LastOfRankIsLast(s: seq<int>, r: nat, n: nat)
    requires n <= |s|
    ensures var j := LastOfRank(s, r, n);
            (0 <= j ==> Rank(s, j) == r) && forall i :: j < i < n ==> Rank(s, i) != r
    decreases n
  {
    if n == 0 || Rank(s, n - 1) == r {
    } else {
      LastOfRankIsLast(s, r, n - 1);
    }
  }

  /** Last index of rank r below n, then the last of rank r - 1 before it, and so on. */
  function Chain(s: seq<int>, r: nat, n: nat): set<nat>
    requires n <= |s|
    decreases r
  {
    if r == 0 then {}
    else
      var j := LastOfRank(s, r, n);
      if j < 0 then {} else Chain(s, r - 1, j) + {j}
  }

  function Longest(s: seq<int>): set<nat> {
    Chain(s, MaxRank(s, |s|), |s|)
  }

  /** The indices pick out a strictly increasing subsequence. */
  ghost predicate Increasing(s: seq<int>, indices: set<nat>) {
    && (forall i | i in indices :: i < |s|)
    && (forall i, j | i in indices && j in indices && i < j :: s[i] < s[j])
  }

  // ----- ranks

  lemma {:induction false} BestIsUpperBound(s: seq<int>, n: nat, v: int, i: nat)
    requires i < n <= |s| && s[i] < v
    ensures Rank(s, i) <= Best(s, n, v)
    decreases n
  {
    if i == n - 1 {
    } else {
      BestIsUpperBound(s, n - 1, v, i);
    }
  }

  lemma {:induction false} BestIsReached(s: seq<int>, n: nat, v: int) returns (i: nat)
    requires n <= |s| && Best(s, n, v) > 0
    ensures i < n && s[i] < v && Rank(s, i) == Best(s, n, v)
    decreases n
  {
    if s[n - 1] < v && Rank(s, n - 1) == Best(s, n, v) {
      i := n - 1;
    } else {
      i := BestIsReached(s, n - 1, v);
    }
  }

  lemma RankGrows(s: seq<int>, i: nat, j: nat)
    requires i < j < |s| && s[i] < s[j]
    ensures Rank(s, i) < Rank(s, j)
  {
    BestIsUpperBound(s, j, s[j], i);
  }

  lemma {:induction false} MaxRankBounds(s: seq<int>, n: nat, i: nat)
    requires i < n <= |s|
    ensures Rank(s, i) <= MaxRank(s, n)
    decreases n
  {
    if i == n - 1 {
    } else {
      MaxRankBounds(s, n - 1, i);
    }
  }

  /** Every rank up to the greatest occurs. */
  lemma {:induction false} EveryRankOccurs(s: seq<int>, r: nat, n: nat)
    requires n <= |s| && 1 <= r <= MaxRank(s, n)
    ensures 0 <= LastOfRank(s, r, n)
    decreases n
  {
    if r <= MaxRank(s, n - 1) {
      EveryRankOccurs(s, r, n - 1);
    } else if r < Rank(s, n - 1) {
      var i := BestIsReached(s, n - 1, s[n - 1]);
      MaxRankBounds(s, n - 1, i);
    }
  }

  /** The last index of a rank holds its least value. */
  lemma LastIsLeast(s: seq<int>, i: nat, n: nat)
    requires i < n <= |s|
    ensures var j := LastOfRank(s, Rank(s, i), n); i <= j && s[j] <= s[i] && Rank(s, j) == Rank(s, i)
  {
    var j := LastOfRank(s, Rank(s, i), n);
    LastOfRankIsLast(s, Rank(s, i), n);
    if i < j && s[i] < s[j] { RankGrows(s, i, j); }
  }

  /** The predecessor of an index in the chain holds a smaller value. */
  lemma PredecessorIsSmaller(s: seq<int>, j: nat)
    requires j < |s| && Rank(s, j) > 1
    ensures var i := LastOfRank(s, Rank(s, j) - 1, j); 0 <= i && s[i] < s[j] && Rank(s, i) == Rank(s, j) - 1
  {
    var i := BestIsReached(s, j, s[j]);
    LastIsLeast(s, i, j);
  }

  // ----- the chosen subsequence is increasing, and none is longer

  lemma {:induction false} ChainIsIncreasing(s: seq<int>, r: nat, n: nat)
    requires n <= |s| && r <= MaxRank(s, n)
    ensures var c := Chain(s, r, n);
            && Increasing(s, c) && |c| == r
            && (forall i | i in c :: i < n && Rank(s, i) <= r)
            && (r > 0 ==> LastOfRank(s, r, n) in c && forall i | i in c :: i <= LastOfRank(s, r, n) && s[i] <= s[LastOfRank(s, r, n)])
    decreases r
  {
    if r == 0 {
    } else {
      EveryRankOccurs(s, r, n);
      LastOfRankIsLast(s, r, n);
      var j := LastOfRank(s, r, n);
      if r > 1 {
        PredecessorIsSmaller(s, j);
        MaxRankBounds(s, j, LastOfRank(s, r - 1, j));
      }
      ChainIsIncreasing(s, r - 1, j);
    }
  }

  lemma GreatestOf(t: set<nat>) returns (m: nat)
    requires t != {}
    ensures m in t && forall i | i in t :: i <= m
  {
    var i :| i in t;
    if t == {i} {
      m := i;
    } else {
      var k := GreatestOf(t - {i});
      m := if i < k then k else i;
      assert forall x | x in t :: x == i || x in t - {i};
    }
  }

  lemma {:induction false} NoneIsLonger(s: seq<int>, t: set<nat>)
    requires Increasing(s, t)
    ensures |t| <= MaxRank(s, |s|)
    ensures t != {} ==> exists m :: m in t && (forall i | i in t :: i <= m) && |t| <= Rank(s, m)
    decreases |t|
  {
    if t == {} {
    } else {
      var m := GreatestOf(t);
      var rest := t - {m};
      NoneIsLonger(s, rest);
      if rest != {} {
        var k :| k in rest && (forall i | i in rest :: i <= k) && |rest| <= Rank(s, k);
        RankGrows(s, k, m);
      }
      MaxRankBounds(s, |s|, m);
      assert |t| <= Rank(s, m);
    }
  }

  /** The chosen subsequence is a longest strictly increasing one. */
  lemma LongestIsLongest(s: seq<int>)
    ensures Increasing(s, Longest(s))
    ensures forall t | Increasing(s, t) :: |t| <= |Longest(s)|
  {
    ChainIsIncreasing(s, MaxRank(s, |s|), |s|);
    forall t | Increasing(s, t)
      ensures |t| <= |Longest(s)|
    {
      NoneIsLonger(s, t);
    }
  }

  // ----- the patience algorithm

  ghost predicate TailsFor(s: seq<int>, tails: seq<nat>, n: nat)
    requires n <= |s|
  {
    && |tails| == MaxRank(s, n)
    && forall k :: 0 <= k < |tails| ==> tails[k] == LastOfRank(s, k + 1, n)
  }

  lemma {:induction false} TailBelow(s: seq<int>, tails: seq<nat>, n: nat, k: nat, m: nat)
    requires n <= |s| && TailsFor(s, tails, n) && k < m < |tails|
    ensures s[tails[k]] < s[tails[m]]
    decreases m - k
  {
    var j := tails[m];
    LastOfRankIsLast(s, m + 1, n);
    PredecessorIsSmaller(s, j);
    LastIsLeast(s, LastOfRank(s, m, j), n);
    if k == m - 1 {
    } else {
      TailBelow(s, tails, n, k, m - 1);
    }
  }

  /** Tails hold strictly increasing values, so the binary search is over a sorted list. */
  lemma TailsAreSorted(s: seq<int>, tails: seq<nat>, n: nat)
    requires n <= |s| && TailsFor(s, tails, n)
    ensures forall k, m :: 0 <= k < m < |tails| ==> s[tails[k]] < s[tails[m]]
  {
    forall k, m | 0 <= k < m < |tails|
      ensures s[tails[k]] < s[tails[m]]
    {
      TailBelow(s, tails, n, k, m);
    }
  }

  lemma BestAtLeast(s: seq<int>, tails: seq<nat>, n: nat, low: nat)
    requires n < |s| && TailsFor(s, tails, n) && low <= |tails|
    requires low > 0 ==> s[tails[low - 1]] < s[n]
    ensures low <= Best(s, n, s[n])
  {
    if low > 0 {
      var j := tails[low - 1];
      assert j == LastOfRank(s, low, n);
      LastOfRankIsLast(s, low, n);
      BestIsUpperBound(s, n, s[n], j);
    }
  }

  lemma BestAtMost(s: seq<int>, tails: seq<nat>, n: nat, low: nat)
    requires n < |s| && TailsFor(s, tails, n) && low <= |tails|
    requires forall k :: low <= k < |tails| ==> s[n] <= s[tails[k]]
    ensures Best(s, n, s[n]) <= low
  {
    if Best(s, n, s[n]) > low {
      var i := BestIsReached(s, n, s[n]);
      MaxRankBounds(s, n, i);
      var k := Rank(s, i) - 1;
      assert tails[k] == LastOfRank(s, k + 1, n);
      LastIsLeast(s, i, n);
    }
  }

  /** The number of tails below a value is the best rank it can extend. */
  lemma TailsBelow(s: seq<int>, tails: seq<nat>, n: nat, low: nat)
    requires n < |s| && TailsFor(s, tails, n) && low <= |tails|
    requires forall k :: 0 <= k < low ==> s[tails[k]] < s[n]
    requires forall k :: low <= k < |tails| ==> s[n] <= s[tails[k]]
    ensures Rank(s, n) == low + 1
  {
    BestAtLeast(s, tails, n, low);
    BestAtMost(s, tails, n, low);
  }

  lemma TailsAfter(s: seq<int>, tails: seq<nat>, n: nat, low: nat)
    requires n < |s| && TailsFor(s, tails, n) && low <= |tails| && Rank(s, n) == low + 1
    ensures TailsFor(s, if low == |tails| then tails + [n] else tails[low := n], n + 1)
  {
  }

  /** The index before j in any chain through j, or -1 where a chain starts. */
  function Pointer(s: seq<int>, j: nat): int
    requires j < |s|
  {
    LastOfRank(s, Rank(s, j) - 1, j)
  }

  ghost predicate PointersFor(s: seq<int>, previousIndex: array<int>, n: nat)
    requires n <= |s| == previousIndex.Length
    reads previousIndex
  {
    forall j :: 0 <= j < n ==> previousIndex[j] == Pointer(s, j)
  }

  lemma {:induction false} NoRankZero(s: seq<int>, n: nat)
    requires n <= |s|
    ensures LastOfRank(s, 0, n) == -1
    decreases n
  {
    if n == 0 {
    } else {
      NoRankZero(s, n - 1);
    }
  }

  lemma PointerIsTail(s: seq<int>, tails: seq<nat>, n: nat, low: nat)
    requires n < |s| && TailsFor(s, tails, n) && low <= |tails| && Rank(s, n) == low + 1
    ensures Pointer(s, n) == if low > 0 then tails[low - 1] else -1
  {
    NoRankZero(s, n);
  }

  /** Following a pointer takes one index off the chain. */
  lemma ChainStep(s: seq<int>, r: nat, n: nat)
    requires n <= |s|
    ensures LastOfRank(s, 0, n) == -1
    ensures r > 0 && LastOfRank(s, r, n) >= 0 ==>
      var j := LastOfRank(s, r, n);
      Chain(s, r, n) == Chain(s, r - 1, j) + {j} && Pointer(s, j) == LastOfRank(s, r - 1, j)
    ensures r == 0 || LastOfRank(s, r, n) < 0 ==> Chain(s, r, n) == {}
  {
    NoRankZero(s, n);
    LastOfRankIsLast(s, r, n);
  }

  /** Binary search for the first tail whose value is not below the next one. */
  method FirstTailNotBelow(sequence: seq<int>, tails: seq<nat>, index: nat) returns (low: nat)
    requires index < |sequence| && TailsFor(sequence, tails, index)
    ensures low <= |tails| && Rank(sequence, index) == low + 1
  {
    TailsAreSorted(sequence, tails, index);
    low := 0;
    var high := |tails|;
    while low < high
      invariant 0 <= low <= high <= |tails|
      invariant forall k :: 0 <= k < low ==> sequence[tails[k]] < sequence[index]
      invariant forall k :: high <= k < |tails| ==> sequence[index] <= sequence[tails[k]]
    {
      var middle := (low + high) / 2;
      if sequence[tails[middle]] < sequence[index] {
        low := middle + 1;
      } else {
        high := middle;
      }
    }
    TailsBelow(sequence, tails, index, low);
  }

  /** The back pointers from the last tail spell out the chain. */
  method WalkBack(sequence: seq<int>, tails: seq<nat>, previousIndex: array<int>) returns (result: set<nat>)
    requires previousIndex.Length == |sequence| && TailsFor(sequence, tails, |sequence|)
    requires PointersFor(sequence, previousIndex, |sequence|)
    ensures result == Longest(sequence)
  {
    result := {};
    var index: int := if |tails| > 0 then tails[|tails| - 1] else -1;
    ghost var r: nat := |tails|;
    ghost var n: nat := |sequence|;
    ChainStep(sequence, r, n);
    while 0 <= index
      invariant n <= |sequence| && index == LastOfRank(sequence, r, n)
      invariant Longest(sequence) == Chain(sequence, r, n) + result
      decreases index
    {
      ChainStep(sequence, r, n);
      result := result + {index};
      n, r := index, r - 1;
      index := previousIndex[index];
    }
    ChainStep(sequence, r, n);
  }

  method LongestIncreasingSubsequence(sequence: seq<int>) returns (result: set<nat>)
    ensures result == Longest(sequence)
  {
    var tails: seq<nat> := [];
    var previousIndex := new int[|sequence|](_ => -1);
    for index := 0 to |sequence|
      invariant TailsFor(sequence, tails, index)
      invariant PointersFor(sequence, previousIndex, index)
      invariant forall j :: index <= j < |sequence| ==> previousIndex[j] == -1
    {
      var low := FirstTailNotBelow(sequence, tails, index);
      PointerIsTail(sequence, tails, index, low);
      if low > 0 { previousIndex[index] := tails[low - 1]; }
      assert PointersFor(sequence, previousIndex, index + 1);
      TailsAfter(sequence, tails, index, low);
      if low == |tails| {
        tails := tails + [index];
      } else {
        tails := tails[low := index];
      }
    }
    result := WalkBack(sequence, tails, previousIndex);
  }
}
