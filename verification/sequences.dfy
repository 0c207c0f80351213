/** Order-preserving selection from a sequence. */
module Sequences {
  import opened Optional

  /** `s.find(test)`: the first element `test` accepts, if there is one. */
  function Find<T>(s: seq<T>, test: T -> bool): (found: Option<T>)
    ensures found.Some? <==> exists i :: 0 <= i < |s| && test(s[i])
    ensures found.Some? ==> found.value in s && test(found.value)
    ensures found.Some? ==> exists i :: FirstAccepted(s, test, i) && s[i] == found.value
  {
    if |s| == 0 then None
    else if test(s[0]) then Some(s[0])
    else
      var rest := Find(s[1..], test);
      FindSkipsHead(s, test);
      rest
  }

  /** Index i holds the first element of `s` that `test` accepts. */
  predicate FirstAccepted<T>(s: seq<T>, test: T -> bool, i: int) {
    0 <= i < |s| && test(s[i]) && forall k :: 0 <= k < i ==> !test(s[k])
  }

  lemma FindSkipsHead<T>(s: seq<T>, test: T -> bool)
    requires |s| > 0 && !test(s[0])
    ensures (exists i :: 0 <= i < |s| && test(s[i])) <==> (exists i :: 0 <= i < |s[1..]| && test(s[1..][i]))
    ensures forall i :: FirstAccepted(s[1..], test, i) ==> FirstAccepted(s, test, i + 1) && s[i + 1] == s[1..][i]
  {
    assert forall i :: 1 <= i < |s| ==> s[i] == s[1..][i - 1];
    forall i | FirstAccepted(s[1..], test, i)
      ensures FirstAccepted(s, test, i + 1)
    {
      assert forall k :: 1 <= k < i + 1 ==> s[k] == s[1..][k - 1];
    }
  }

  /** `a` is `b` with some elements dropped and the rest kept in order. */
  predicate IsSubsequence<T(==)>(a: seq<T>, b: seq<T>)
    decreases |b|
  {
    |a| == 0 || (|b| > 0 && ((a[0] == b[0] && IsSubsequence(a[1..], b[1..])) || IsSubsequence(a, b[1..])))
  }

  /** Every element of a subsequence comes from the original sequence. */
  lemma {:induction false} SubsequenceMembers<T>(a: seq<T>, b: seq<T>)
    requires IsSubsequence(a, b)
    ensures forall x :: x in a ==> x in b
    decreases |b|
  {
    if |a| > 0 {
      if a[0] == b[0] && IsSubsequence(a[1..], b[1..]) {
        SubsequenceMembers(a[1..], b[1..]);
        assert forall x :: x in a ==> x == a[0] || x in a[1..];
      } else {
        SubsequenceMembers(a, b[1..]);
      }
    }
  }

  /**
   * The indices a subsequence picks from the original are increasing, so a
   * property of ordered pairs in the original holds for ordered pairs of the
   * subsequence.
   */
  lemma {:induction false} SubsequencePairs<T>(a: seq<T>, b: seq<T>, i: int, j: int)
    requires IsSubsequence(a, b)
    requires 0 <= i < j < |a|
    ensures exists i', j' :: 0 <= i' < j' < |b| && b[i'] == a[i] && b[j'] == a[j]
    decreases |b|
  {
    if a[0] == b[0] && IsSubsequence(a[1..], b[1..]) {
      if i == 0 {
        SubsequenceMembers(a[1..], b[1..]);
        assert a[j] == a[1..][j - 1];
        assert a[j] in a[1..];
        assert a[j] in b[1..];
        var k :| 0 <= k < |b[1..]| && b[1..][k] == a[j];
        assert b[0] == a[0] && b[k + 1] == a[j];
      } else {
        SubsequencePairs(a[1..], b[1..], i - 1, j - 1);
        var i', j' :| 0 <= i' < j' < |b[1..]| && b[1..][i'] == a[1..][i - 1] && b[1..][j'] == a[1..][j - 1];
        assert b[i' + 1] == a[i] && b[j' + 1] == a[j];
      }
    } else {
      SubsequencePairs(a, b[1..], i, j);
      var i', j' :| 0 <= i' < j' < |b[1..]| && b[1..][i'] == a[i] && b[1..][j'] == a[j];
      assert b[i' + 1] == a[i] && b[j' + 1] == a[j];
    }
  }

  /** `s.filter(keep)`: the elements `keep` accepts, in their original order. */
  function Filter<T>(s: seq<T>, keep: T -> bool): (r: seq<T>)
    ensures |r| <= |s|
    ensures (forall i :: 0 <= i < |s| ==> keep(s[i])) ==> r == s
  {
    if |s| == 0 then []
    else if keep(s[0]) then [s[0]] + Filter(s[1..], keep)
    else Filter(s[1..], keep)
  }

  /** An element survives the filter exactly when it was there and is accepted. */
  lemma {:induction false} FilterMembers<T>(s: seq<T>, keep: T -> bool)
    ensures forall x :: x in Filter(s, keep) <==> x in s && keep(x)
    decreases |s|
  {
    if |s| > 0 {
      FilterMembers(s[1..], keep);
      assert forall x :: x in s <==> x == s[0] || x in s[1..];
    }
  }

  /** The filter keeps the survivors in their original order. */
  lemma {:induction false} FilterInOrder<T>(s: seq<T>, keep: T -> bool)
    ensures IsSubsequence(Filter(s, keep), s)
    decreases |s|
  {
    if |s| > 0 {
      FilterInOrder(s[1..], keep);
      var r := Filter(s, keep);
      if keep(s[0]) {
        assert r[0] == s[0] && r[1..] == Filter(s[1..], keep);
      }
    }
  }

  /** A sequence is what comes before index j, the element at j, and what comes after. */
  lemma SplitAround<T>(s: seq<T>, j: int)
    requires 0 <= j < |s|
    ensures s == s[..j] + ([s[j]] + s[j + 1..])
    ensures ([s[j]] + s[j + 1..])[0] == s[j] && ([s[j]] + s[j + 1..])[1..] == s[j + 1..]
  {
  }

  /** Filtering a concatenation filters each part. */
  lemma {:induction false} FilterAppend<T>(a: seq<T>, b: seq<T>, keep: T -> bool)
    ensures Filter(a + b, keep) == Filter(a, keep) + Filter(b, keep)
    decreases |a|
  {
    if |a| == 0 {
      assert a + b == b;
    } else {
      assert (a + b)[0] == a[0] && (a + b)[1..] == a[1..] + b;
      FilterAppend(a[1..], b, keep);
    }
  }

  /** Filtering out the one element at index j that is rejected drops exactly that element. */
  lemma FilterDropsOne<T>(s: seq<T>, keep: T -> bool, j: int)
    requires 0 <= j < |s| && !keep(s[j])
    requires forall i :: 0 <= i < |s| && i != j ==> keep(s[i])
    ensures Filter(s, keep) == s[..j] + s[j + 1..]
  {
    var front, back := s[..j], s[j + 1..];
    var mid := [s[j]] + back;
    SplitAround(s, j);
    forall i | 0 <= i < |front| ensures keep(front[i]) {
      assert front[i] == s[i];
    }
    forall i | 0 <= i < |back| ensures keep(back[i]) {
      assert back[i] == s[j + 1 + i];
    }
    FilterAppend(front, mid, keep);
    assert Filter(mid, keep) == Filter(mid[1..], keep) == back;
  }

  /** The filter keeps every copy of an accepted element and no copy of a rejected one. */
  lemma {:induction false} FilterMultiset<T>(s: seq<T>, keep: T -> bool)
    ensures forall x :: multiset(Filter(s, keep))[x] == if keep(x) then multiset(s)[x] else 0
    decreases |s|
  {
    if |s| > 0 {
      FilterMultiset(s[1..], keep);
      assert s == [s[0]] + s[1..];
    }
  }

  /** What a filter keeps: exactly the accepted elements, in order, each as often as it occurs. */
  lemma FilterFacts<T>(s: seq<T>, keep: T -> bool)
    ensures IsSubsequence(Filter(s, keep), s)
    ensures forall x :: x in Filter(s, keep) <==> x in s && keep(x)
    ensures forall x :: multiset(Filter(s, keep))[x] == if keep(x) then multiset(s)[x] else 0
  {
    FilterMembers(s, keep);
    FilterInOrder(s, keep);
    FilterMultiset(s, keep);
  }

  /** A filter that accepts nothing leaves nothing. */
  lemma {:induction false} FilterKeepsNone<T>(s: seq<T>, keep: T -> bool)
    requires forall i :: 0 <= i < |s| ==> !keep(s[i])
    ensures Filter(s, keep) == []
    decreases |s|
  {
    if |s| > 0 {
      assert forall i :: 0 <= i < |s[1..]| ==> s[1..][i] == s[i + 1];
      FilterKeepsNone(s[1..], keep);
    }
  }

  /** A filter that accepts only the element at index k leaves that element alone. */
  lemma {:induction false} FilterKeepsOne<T>(s: seq<T>, keep: T -> bool, k: int)
    requires 0 <= k < |s| && keep(s[k])
    requires forall i :: 0 <= i < |s| && i != k ==> !keep(s[i])
    ensures Filter(s, keep) == [s[k]]
    decreases |s|
  {
    var rest := s[1..];
    assert forall i :: 0 <= i < |rest| ==> rest[i] == s[i + 1];
    if k == 0 {
      FilterKeepsNone(rest, keep);
    } else {
      FilterKeepsOne(rest, keep, k - 1);
    }
  }

  /** Filters whose tests agree on every element give the same result. */
  lemma {:induction false} FilterCongruent<T>(s: seq<T>, keep: T -> bool, keep': T -> bool)
    requires forall i :: 0 <= i < |s| ==> keep(s[i]) == keep'(s[i])
    ensures Filter(s, keep) == Filter(s, keep')
    decreases |s|
  {
    if |s| > 0 {
      assert forall i :: 0 <= i < |s[1..]| ==> s[1..][i] == s[i + 1];
      FilterCongruent(s[1..], keep, keep');
    }
  }
}
