/** Order-preserving filters over lists, as the pipeline's `foreach … if … Add` loops build them. */
module Sequences {

  /** `sub` can be obtained from `full` by deleting elements, without reordering. */
  predicate IsSubsequence<T(==)>(sub: seq<T>, full: seq<T>)
    decreases |full|
  {
    if sub == [] then true
    else if full == [] then false
    else if sub[|sub| - 1] == full[|full| - 1] then IsSubsequence(sub[..|sub| - 1], full[..|full| - 1])
    else IsSubsequence(sub, full[..|full| - 1])
  }

  /** The elements of `s` that `keep` accepts, in their original order. */
  function Filter<T>(s: seq<T>, keep: T -> bool): (r: seq<T>)
    ensures |r| <= |s|
    decreases |s|
  {
    if s == [] then []
    else Filter(s[..|s| - 1], keep) + (if keep(s[|s| - 1]) then [s[|s| - 1]] else [])
  }

  /** Filtering one element further along: the loop step of a filtering `foreach`. */
  lemma FilterStep<T>(s: seq<T>, keep: T -> bool, i: nat)
    requires i < |s|
    ensures Filter(s[..i + 1], keep) == Filter(s[..i], keep) + (if keep(s[i]) then [s[i]] else [])
  {
    assert s[..i + 1][..i] == s[..i];
  }

  /** The filter keeps exactly the accepted elements. */
  lemma {:induction false} FilterMembership<T>(s: seq<T>, keep: T -> bool)
    ensures forall x :: x in Filter(s, keep) <==> x in s && keep(x)
    decreases |s|
  {
    if s != [] {
      var init := s[..|s| - 1];
      FilterMembership(init, keep);
      assert forall x :: x in s <==> x in init || x == s[|s| - 1];
    }
  }

  /** The filter keeps the order of what it keeps. */
  lemma {:induction false} FilterIsSubsequence<T>(s: seq<T>, keep: T -> bool)
    ensures IsSubsequence(Filter(s, keep), s)
    decreases |s|
  {
    if s != [] {
      var init, x := s[..|s| - 1], s[|s| - 1];
      FilterIsSubsequence(init, keep);
      var f := Filter(init, keep);
      if keep(x) {
        assert Filter(s, keep) == f + [x];
        assert (f + [x])[..|f|] == f;
      } else {
        assert Filter(s, keep) == f;
        SubsequenceOfLonger(f, init, x);
      }
    }
  }

  lemma {:induction false} SubsequenceOfLonger<T>(sub: seq<T>, full: seq<T>, x: T)
    requires IsSubsequence(sub, full)
    ensures IsSubsequence(sub, full + [x])
    decreases |full|, 1
  {
    var longer := full + [x];
    assert longer[..|full|] == full;
    if sub != [] && sub[|sub| - 1] == x {
      var init := sub[..|sub| - 1];
      SubsequenceShorter(sub, full);
      assert IsSubsequence(init, full);
    }
  }

  /** Dropping the last element of a subsequence leaves a subsequence. */
  lemma {:induction false} SubsequenceShorter<T>(sub: seq<T>, full: seq<T>)
    requires sub != [] && IsSubsequence(sub, full)
    ensures IsSubsequence(sub[..|sub| - 1], full)
    decreases |full|, 0
  {
    var init := sub[..|sub| - 1];
    var prev := full[..|full| - 1];
    if sub[|sub| - 1] == full[|full| - 1] {
      assert IsSubsequence(init, prev);
      SubsequenceOfLonger(init, prev, full[|full| - 1]);
      assert prev + [full[|full| - 1]] == full;
    } else {
      SubsequenceShorter(sub, prev);
      SubsequenceOfLonger(init, prev, full[|full| - 1]);
      assert prev + [full[|full| - 1]] == full;
    }
  }

  /** A filter that accepts everything changes nothing. */
  lemma {:induction false} FilterKeepsAll<T>(s: seq<T>, keep: T -> bool)
    requires forall i :: 0 <= i < |s| ==> keep(s[i])
    ensures Filter(s, keep) == s
    decreases |s|
  {
    if s != [] {
      FilterKeepsAll(s[..|s| - 1], keep);
    }
  }
}
