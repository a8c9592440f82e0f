/**
 * Ranking the labelled predictions: `previsao.sort((a, b) => b.probabilidade - a.probabilidade)[0]`.
 * `Array.prototype.sort` is stable (ECMA-262, since the 2019 edition), so the
 * sort is specified by a stable insertion sort, SortDesc.
 */
module Ranking {
  import opened Wrappers
  import opened Labelling

  /** The comparator: negative places `a` first, positive places `b` first, zero keeps their order. */
  function Compare(a: Prediction, b: Prediction): (c: real)
    ensures c < 0.0 <==> a.probability > b.probability
    ensures c == 0.0 <==> a.probability == b.probability
  {
    b.probability - a.probability
  }

  /** Probabilities never increase from left to right. */
  predicate NonIncreasing(s: seq<Prediction>) {
    forall i, j :: 0 <= i < j < |s| ==> s[i].probability >= s[j].probability
  }

  /**
   * Inserts `x`, which followed every element of `t` in the input, into the
   * sorted `t`: it moves ahead of an element only when the comparator asks for it.
   */
  function InsertDesc(t: seq<Prediction>, x: Prediction): (r: seq<Prediction>)
    ensures |r| == |t| + 1
  {
    if |t| == 0 then [x]
    else if Compare(t[|t| - 1], x) <= 0.0 then t + [x]
    else InsertDesc(t[..|t| - 1], x) + [t[|t| - 1]]
  }

  /** Stable insertion sort by the comparator: the specification of the in-place sort. */
  function SortDesc(s: seq<Prediction>): (r: seq<Prediction>)
    ensures |r| == |s|
  {
    if |s| == 0 then [] else InsertDesc(SortDesc(s[..|s| - 1]), s[|s| - 1])
  }

  /** The entries of `s` whose probability is exactly `p`, in their order in `s`. */
  function WithProbability(s: seq<Prediction>, p: real): (r: seq<Prediction>)
    ensures |r| <= |s|
  {
    if |s| == 0 then []
    else (if s[0].probability == p then [s[0]] else []) + WithProbability(s[1..], p)
  }

  // ---- permutation ----

  lemma {:induction false} InsertDescPermutes(t: seq<Prediction>, x: Prediction)
    ensures multiset(InsertDesc(t, x)) == multiset(t) + multiset{x}
  {
    if |t| > 0 && Compare(t[|t| - 1], x) > 0.0 {
      var init, last := t[..|t| - 1], t[|t| - 1];
      InsertDescPermutes(init, x);
      assert t == init + [last];
    }
  }

  /** Sorting only reorders: the multiset of (label, probability) pairs is unchanged. */
  lemma {:induction false} SortDescPermutes(s: seq<Prediction>)
    ensures multiset(SortDesc(s)) == multiset(s)
  {
    if |s| > 0 {
      var init, last := s[..|s| - 1], s[|s| - 1];
      var sorted := SortDesc(init);
      assert SortDesc(s) == InsertDesc(sorted, last);
      SortDescPermutes(init);
      InsertDescPermutes(sorted, last);
      calc {
        multiset(SortDesc(s));
        multiset(sorted) + multiset{last};
        multiset(init) + multiset{last};
        { assert s == init + [last]; }
        multiset(s);
      }
    }
  }

  // ---- order ----

  lemma {:induction false} InsertDescSorted(t: seq<Prediction>, x: Prediction)
    requires NonIncreasing(t)
    ensures NonIncreasing(InsertDesc(t, x))
  {
    if |t| > 0 && Compare(t[|t| - 1], x) > 0.0 {
      var init, last := t[..|t| - 1], t[|t| - 1];
      InsertDescSorted(init, x);
      var r := InsertDesc(init, x);
      InsertDescPermutes(init, x);
      forall k | 0 <= k < |r| ensures r[k].probability >= last.probability {
        assert r[k] in multiset(r);
        if r[k] != x {
          assert r[k] in multiset(init);
          var m :| 0 <= m < |init| && init[m] == r[k];
          assert t[m] == r[k];
        }
      }
    }
  }

  /** The sorted list is non-increasing in probability. */
  lemma {:induction false} SortDescSorted(s: seq<Prediction>)
    ensures NonIncreasing(SortDesc(s))
  {
    if |s| > 0 {
      SortDescSorted(s[..|s| - 1]);
      InsertDescSorted(SortDesc(s[..|s| - 1]), s[|s| - 1]);
    }
  }

  // ---- stability ----

  lemma {:induction false} WithProbabilityAppend(a: seq<Prediction>, b: seq<Prediction>, p: real)
    ensures WithProbability(a + b, p) == WithProbability(a, p) + WithProbability(b, p)
  {
    if |a| > 0 {
      assert (a + b)[1..] == a[1..] + b;
      WithProbabilityAppend(a[1..], b, p);
    } else {
      assert a + b == b;
    }
  }

  lemma {:induction false} InsertDescStable(t: seq<Prediction>, x: Prediction, p: real)
    ensures WithProbability(InsertDesc(t, x), p)
         == WithProbability(t, p) + WithProbability([x], p)
  {
    if |t| == 0 {
    } else if Compare(t[|t| - 1], x) <= 0.0 {
      WithProbabilityAppend(t, [x], p);
    } else {
      var init, last := t[..|t| - 1], t[|t| - 1];
      InsertDescStable(init, x, p);
      WithProbabilityAppend(InsertDesc(init, x), [last], p);
      assert t == init + [last];
      WithProbabilityAppend(init, [last], p);
      // x and last cannot both have probability p, since x's is strictly larger
      assert WithProbability([x], p) == [] || WithProbability([last], p) == [];
    }
  }

  /** Stability: entries of equal probability keep their relative order. */
  lemma {:induction false} SortDescStable(s: seq<Prediction>, p: real)
    ensures WithProbability(SortDesc(s), p) == WithProbability(s, p)
  {
    if |s| > 0 {
      var init, last := s[..|s| - 1], s[|s| - 1];
      SortDescStable(init, p);
      InsertDescStable(SortDesc(init), last, p);
      assert s == init + [last];
      WithProbabilityAppend(init, [last], p);
    }
  }

  // ---- uniqueness: any stable descending sort gives SortDesc ----

  lemma {:induction false} WithProbabilityMember(s: seq<Prediction>, p: real, y: Prediction)
    requires y in WithProbability(s, p)
    ensures y in s && y.probability == p
  {
    if |s| > 0 {
      if y != s[0] || s[0].probability != p {
        WithProbabilityMember(s[1..], p, y);
      }
    }
  }

  lemma {:induction false} WithProbabilityOfHead(s: seq<Prediction>)
    requires |s| > 0
    ensures WithProbability(s, s[0].probability) != []
    ensures WithProbability(s, s[0].probability)[0] == s[0]
  {
  }

  lemma {:induction false} WithProbabilityTail(s: seq<Prediction>, p: real)
    requires |s| > 0
    ensures WithProbability(s[1..], p)
         == if s[0].probability == p then WithProbability(s, p)[1..] else WithProbability(s, p)
  {
  }

  /** Non-increasing lists that agree on every probability value start with the same entry. */
  lemma {:induction false} AgreeingHeads(t: seq<Prediction>, u: seq<Prediction>)
    requires NonIncreasing(t) && NonIncreasing(u)
    requires forall p :: WithProbability(t, p) == WithProbability(u, p)
    ensures |t| > 0 <==> |u| > 0
    ensures |t| > 0 ==> t[0] == u[0]
  {
    if |t| > 0 {
      WithProbabilityOfHead(t);
      assert WithProbability(u, t[0].probability) != [];
    }
    if |u| > 0 {
      WithProbabilityOfHead(u);
      assert WithProbability(t, u[0].probability) != [];
    }
    if |t| > 0 && |u| > 0 {
      var m, n := t[0].probability, u[0].probability;
      WithProbabilityMember(u, m, t[0]);
      WithProbabilityMember(t, n, u[0]);
    }
  }

  /**
   * Two non-increasing lists that agree, for every probability, on the
   * entries carrying it, are the same list.
   */
  lemma {:induction false} StableSortedUnique(t: seq<Prediction>, u: seq<Prediction>)
    requires NonIncreasing(t) && NonIncreasing(u)
    requires forall p :: WithProbability(t, p) == WithProbability(u, p)
    ensures t == u
    decreases |t|
  {
    AgreeingHeads(t, u);
    if |t| > 0 {
      forall p ensures WithProbability(t[1..], p) == WithProbability(u[1..], p) {
        WithProbabilityTail(t, p);
        WithProbabilityTail(u, p);
      }
      StableSortedUnique(t[1..], u[1..]);
      assert t == [t[0]] + t[1..];
      assert u == [u[0]] + u[1..];
    }
  }

  /** Whatever stable algorithm `sort` uses, its non-increasing result is SortDesc of the input. */
  lemma {:induction false} StableSortIsSortDesc(s: seq<Prediction>, t: seq<Prediction>)
    requires NonIncreasing(t)
    requires forall p :: WithProbability(t, p) == WithProbability(s, p)
    ensures t == SortDesc(s)
  {
    SortDescSorted(s);
    forall p ensures WithProbability(t, p) == WithProbability(SortDesc(s), p) {
      SortDescStable(s, p);
    }
    StableSortedUnique(t, SortDesc(s));
  }

  // ---- the selected entry ----

  /** Reference definition of the winner: the first position holding the largest probability. */
  function FirstArgmax(ps: seq<real>): (k: nat)
    requires |ps| > 0
    ensures k < |ps|
    ensures forall i :: 0 <= i < |ps| ==> ps[i] <= ps[k]
    ensures forall j :: 0 <= j < k ==> ps[j] < ps[k]
  {
    if |ps| == 1 then 0
    else
      var k := FirstArgmax(ps[..|ps| - 1]);
      if ps[|ps| - 1] > ps[k] then |ps| - 1 else k
  }

  lemma {:induction false} WithProbabilityFirst(s: seq<Prediction>, p: real) returns (k: nat)
    requires WithProbability(s, p) != []
    ensures k < |s| && s[k] == WithProbability(s, p)[0] && s[k].probability == p
    ensures forall j :: 0 <= j < k ==> s[j].probability != p
  {
    if s[0].probability == p {
      k := 0;
    } else {
      var k' := WithProbabilityFirst(s[1..], p);
      k := k' + 1;
    }
  }

  lemma {:induction false} WithProbabilityHas(s: seq<Prediction>, i: nat)
    requires i < |s|
    ensures s[i] in WithProbability(s, s[i].probability)
  {
    if i > 0 {
      WithProbabilityHas(s[1..], i - 1);
    }
  }

  /** No input entry has a larger probability than element [0] of the sorted list. */
  lemma {:induction false} InputBelowHead(s: seq<Prediction>, i: nat)
    requires i < |s|
    ensures s[i].probability <= SortDesc(s)[0].probability
  {
    var r, p := SortDesc(s), s[i].probability;
    WithProbabilityHas(s, i);
    SortDescStable(s, p);
    WithProbabilityMember(r, p, s[i]);
    SortDescSorted(s);
    var at :| 0 <= at < |r| && r[at] == s[i];
    assert at == 0 || r[0].probability >= r[at].probability;
  }

  /**
   * Element [0] of the sorted list is the input's first entry of largest
   * probability: ties go to the earliest entry.
   */
  lemma {:induction false} HeadIsFirstArgmax(s: seq<Prediction>)
    requires |s| > 0
    ensures SortDesc(s)[0] == s[FirstArgmax(Probabilities(s))]
  {
    var r := SortDesc(s);
    var ps := Probabilities(s);
    var k := FirstArgmax(ps);
    var m := r[0].probability;
    // the entries of probability m keep their order, and r[0] is the first of them in r
    SortDescStable(s, m);
    WithProbabilityOfHead(r);
    var f := WithProbabilityFirst(s, m);
    assert s[f] == r[0] && ps[f] == m;
    // no entry exceeds m, so m is the largest probability and f its first position
    InputBelowHead(s, k);
    assert ps[k] == m;
  }

  // ---- the in-place sort and the selection of element [0] ----

  /**
   * Where the insertion lands: after the first j entries, when entry j - 1
   * stays ahead of x and every later entry gives way to it.
   */
  lemma {:induction false} InsertDescAt(t: seq<Prediction>, x: Prediction, j: nat)
    requires j <= |t|
    requires j == 0 || Compare(t[j - 1], x) <= 0.0
    requires forall k :: j <= k < |t| ==> Compare(t[k], x) > 0.0
    ensures InsertDesc(t, x) == t[..j] + [x] + t[j..]
    decreases |t|
  {
    if |t| == j {
      assert t[..j] == t && t[j..] == [];
    } else {
      var init, last := t[..|t| - 1], t[|t| - 1];
      assert Compare(last, x) > 0.0;
      assert InsertDesc(t, x) == InsertDesc(init, x) + [last];
      InsertDescAt(init, x, j);
      assert t[..j] + [x] + t[j..] == init[..j] + [x] + init[j..] + [last];
    }
  }

  /**
   * One insertion step: `a[..i]` is already sorted; `a[i]` is shifted left
   * past the entries that the comparator puts after it.
   */
  method InsertInPlace(a: array<Prediction>, i: nat)
    requires i < a.Length
    modifies a
    ensures a[..i + 1] == InsertDesc(old(a[..i]), old(a[i]))
    ensures a[i + 1..] == old(a[i + 1..])
  {
    var x := a[i];
    ghost var t := a[..i];
    var j := i;
    while j > 0 && Compare(a[j - 1], x) > 0.0
      invariant 0 <= j <= i
      invariant forall k :: 0 <= k < j ==> a[k] == t[k]
      invariant forall k :: j < k <= i ==> a[k] == t[k - 1]
      invariant a[i + 1..] == old(a[i + 1..])
      invariant forall k :: j <= k < i ==> Compare(t[k], x) > 0.0
    {
      a[j] := a[j - 1];
      j := j - 1;
    }
    a[j] := x;
    InsertDescAt(t, x, j);
    ghost var r := t[..j] + [x] + t[j..];
    assert forall k :: 0 <= k <= i ==> a[k] == r[k];
    assert a[..i + 1] == r;
  }

  /** Insertion sort in place: after step i, `a[..i]` is SortDesc of the first i input entries. */
  method SortByProbability(a: array<Prediction>)
    modifies a
    ensures a[..] == SortDesc(old(a[..]))
  {
    ghost var s := a[..];
    var i := 0;
    while i < a.Length
      invariant 0 <= i <= a.Length
      invariant a[..i] == SortDesc(s[..i])
      invariant a[i..] == s[i..]
    {
      InsertInPlace(a, i);
      assert s[..i + 1][..i] == s[..i];
      i := i + 1;
    }
    assert a[..] == a[..a.Length];
    assert s == s[..a.Length];
  }

  /** `sort(...)[0]`: sorts the array in place and takes its first element (`undefined` when empty). */
  method SortAndTakeFirst(a: array<Prediction>) returns (top: Option<Prediction>)
    modifies a
    ensures a[..] == SortDesc(old(a[..]))
    ensures top == if a.Length == 0 then None else Some(a[0])
  {
    SortByProbability(a);
    top := if a.Length == 0 then None else Some(a[0]);
  }
}
