/** Generic facts about sequences: repetitions, positions, and reading every
    element with a fallible function. */
module Seqs {
  import opened Wrappers

  /** No element occurs twice. */
  predicate Distinct<T(==)>(s: seq<T>)
    decreases |s|
  {
    |s| == 0 || (s[0] !in s[1..] && Distinct(s[1..]))
  }

  lemma {:induction false} DistinctAppend<T>(s: seq<T>, x: T)
    requires Distinct(s) && x !in s
    ensures Distinct(s + [x])
    decreases |s|
  {
    if |s| > 0 {
      assert (s + [x])[1..] == s[1..] + [x];
      DistinctAppend(s[1..], x);
    }
  }

  /** Two positions of a sequence without repetitions hold different elements. */
  lemma {:induction false} DistinctAt<T>(s: seq<T>, i: nat, j: nat)
    requires Distinct(s) && i < |s| && j < |s| && i != j
    ensures s[i] != s[j]
    decreases i + j
  {
    if i > 0 && j > 0 {
      DistinctAt(s[1..], i - 1, j - 1);
    } else if i == 0 {
      assert s[j] == s[1..][j - 1];
    } else {
      assert s[i] == s[1..][i - 1];
    }
  }

  /** A sequence whose elements differ pairwise at distinct positions is `Distinct`. */
  lemma {:induction false} DistinctFromPairs<T>(s: seq<T>)
    requires forall i, j :: 0 <= i < j < |s| ==> s[i] != s[j]
    ensures Distinct(s)
    decreases |s|
  {
    if |s| > 0 {
      assert forall i, j :: 0 <= i < j < |s[1..]| ==> s[1..][i] == s[i + 1] && s[1..][j] == s[j + 1];
      DistinctFromPairs(s[1..]);
    }
  }

  /** Moving the first element of a sequence onto the end of another. */
  lemma ShiftFirst<T>(acc: seq<T>, s: seq<T>)
    requires |s| > 0
    ensures (acc + [s[0]]) + s[1..] == acc + s
    ensures |s| == 1 ==> acc + [s[0]] == acc + s
  {
    assert [s[0]] + s[1..] == s;
  }

  /** The head and the rest of a concatenation. */
  lemma AppendSplit<T>(xs: seq<T>, ys: seq<T>)
    ensures |xs| == 0 ==> xs + ys == ys
    ensures |xs| > 0 ==> (xs + ys)[0] == xs[0] && (xs + ys)[1..] == xs[1..] + ys
  {
    if |xs| > 0 {
      assert (xs + ys)[1..] == xs[1..] + ys;
    }
  }

  /** A prefix of a prefix is a prefix. */
  lemma PrefixTrans<T>(a: seq<T>, b: seq<T>, c: seq<T>)
    requires |a| <= |b| && b[..|a|] == a
    requires |b| <= |c| && c[..|b|] == b
    ensures c[..|a|] == a
  {
    assert c[..|a|] == c[..|b|][..|a|];
  }

  /** Concatenation is associative. */
  lemma Assoc<T>(a: seq<T>, b: seq<T>, c: seq<T>)
    ensures a + b + c == a + (b + c)
  {
  }

  /** Regrouping a concatenation of four sequences. */
  lemma Regroup<T>(a: seq<T>, b: seq<T>, c: seq<T>, d: seq<T>)
    ensures (a + (b + c)) + d == a + (b + (c + d))
  {
  }

  function Reverse<T>(s: seq<T>): (r: seq<T>)
    ensures |r| == |s|
    decreases |s|
  {
    if |s| == 0 then [] else Reverse(s[1..]) + [s[0]]
  }

  /** The positions holding `true`, in increasing order. */
  function TrueIndices(bs: seq<bool>, from: nat): (r: seq<nat>)
    requires from <= |bs|
    ensures forall k :: 0 <= k < |r| ==> from <= r[k] < |bs| && bs[r[k]]
    ensures forall j :: from <= j < |bs| && bs[j] ==> j in r
    ensures forall k, l :: 0 <= k < l < |r| ==> r[k] < r[l]
    decreases |bs| - from
  {
    if from == |bs| then []
    else if bs[from] then [from] + TrueIndices(bs, from + 1)
    else TrueIndices(bs, from + 1)
  }

  /** Counting the `true` positions: none, exactly the one listed, or two
      distinct ones. */
  lemma TrueIndicesCount(bs: seq<bool>)
    ensures |TrueIndices(bs, 0)| == 0 <==> forall j :: 0 <= j < |bs| ==> !bs[j]
    ensures |TrueIndices(bs, 0)| == 1 ==>
              var i := TrueIndices(bs, 0)[0];
              i < |bs| && bs[i] && forall k :: 0 <= k < |bs| && k != i ==> !bs[k]
    ensures |TrueIndices(bs, 0)| >= 2 <==> exists j, k :: 0 <= j < k < |bs| && bs[j] && bs[k]
  {
    var r := TrueIndices(bs, 0);
    if |r| > 0 {
      assert bs[r[0]];
    }
    forall j | 0 <= j < |bs| && bs[j]
      ensures |r| > 0
    {
      assert j in r;
    }
    if |r| >= 2 {
      assert r[0] < r[1] && bs[r[0]] && bs[r[1]];
    }
    if exists j, k :: 0 <= j < k < |bs| && bs[j] && bs[k] {
      var j, k :| 0 <= j < k < |bs| && bs[j] && bs[k];
      assert j in r && k in r;
    }
  }

  /** The position of the first occurrence of `x`, or `|s|` when there is none. */
  function FirstIndex<T(==)>(s: seq<T>, x: T): (i: nat)
    ensures i <= |s|
    ensures i < |s| ==> s[i] == x
    ensures i == |s| <==> x !in s
    ensures forall j :: 0 <= j < i ==> s[j] != x
    decreases |s|
  {
    if |s| == 0 then 0
    else if s[0] == x then 0
    else FirstIndex(s[1..], x) + 1
  }

  /** In a sequence without repetitions an element is found where it is. */
  lemma FirstIndexDistinct<T>(s: seq<T>, j: nat)
    requires Distinct(s) && j < |s|
    ensures FirstIndex(s, s[j]) == j
  {
    var i := FirstIndex(s, s[j]);
    if i != j {
      DistinctAt(s, i, j);
    }
  }

  /** Applies `f` to each element in order; the first error is the result. */
  function MapResults<A, T, E>(f: A -> Result<T, E>, xs: seq<A>): (r: Result<seq<T>, E>)
    ensures r.Ok? <==> forall i :: 0 <= i < |xs| ==> f(xs[i]).Ok?
    ensures r.Ok? ==> |r.value| == |xs| && forall i :: 0 <= i < |xs| ==> f(xs[i]) == Ok(r.value[i])
    ensures r.Err? ==> exists j :: 0 <= j < |xs| && f(xs[j]) == Err(r.error)
                                   && forall i :: 0 <= i < j ==> f(xs[i]).Ok?
    decreases |xs|
  {
    if |xs| == 0 then Ok([])
    else
      assert forall i :: 0 < i < |xs| ==> xs[i] == xs[1..][i - 1];
      match f(xs[0])
      case Err(e) => Err(e)
      case Ok(x) =>
        match MapResults(f, xs[1..])
        case Err(e) =>
          assert exists j :: 0 <= j < |xs| && f(xs[j]) == Err(e) && forall i :: 0 <= i < j ==> f(xs[i]).Ok? by {
            var j :| 0 <= j < |xs[1..]| && f(xs[1..][j]) == Err(e)
                     && forall i :: 0 <= i < j ==> f(xs[1..][i]).Ok?;
            assert f(xs[j + 1]) == Err(e);
          }
          Err(e)
        case Ok(ys) => Ok([x] + ys)
  }

  /** Two functions that agree on every element read the sequence alike. */
  lemma {:induction false} MapResultsAgree<A, T, E>(f: A -> Result<T, E>, g: A -> Result<T, E>, xs: seq<A>)
    requires forall i :: 0 <= i < |xs| ==> f(xs[i]) == g(xs[i])
    ensures MapResults(f, xs) == MapResults(g, xs)
    decreases |xs|
  {
    if |xs| > 0 {
      assert forall i :: 0 < i < |xs| ==> xs[i] == xs[1..][i - 1];
      MapResultsAgree(f, g, xs[1..]);
    }
  }
}
