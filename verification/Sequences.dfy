// Order-preserving subsequences, used wherever a list only ever loses elements.
module Sequences {

  ghost predicate IsSubsequence<T>(sub: seq<T>, full: seq<T>)
    decreases |full|
  {
    if sub == [] then true
    else if full == [] then false
    else
      var m, n := |sub| - 1, |full| - 1;
      (sub[m] == full[n] && IsSubsequence(sub[..m], full[..n])) || IsSubsequence(sub, full[..n])
  }

  lemma {:induction false} SubsequenceMembers<T>(sub: seq<T>, full: seq<T>)
    requires IsSubsequence(sub, full)
    ensures |sub| <= |full| && forall x :: x in sub ==> x in full
    decreases |full|
  {
    if sub != [] {
      var m, n := |sub| - 1, |full| - 1;
      assert full == full[..n] + [full[n]] && sub == sub[..m] + [sub[m]];
      if sub[m] == full[n] && IsSubsequence(sub[..m], full[..n]) {
        SubsequenceMembers(sub[..m], full[..n]);
      } else {
        SubsequenceMembers(sub, full[..n]);
      }
    }
  }

  lemma SubsequenceAppend<T>(sub: seq<T>, full: seq<T>, x: T)
    requires IsSubsequence(sub, full)
    ensures IsSubsequence(sub, full + [x]) && IsSubsequence(sub + [x], full + [x])
  {
    assert (full + [x])[..|full|] == full && (sub + [x])[..|sub|] == sub;
  }

  lemma {:induction false} SubsequenceSelf<T>(s: seq<T>)
    ensures IsSubsequence(s, s)
  {
    if s != [] {
      SubsequenceSelf(s[..|s| - 1]);
    }
  }

  lemma {:induction false} SubsequenceTransitive<T>(a: seq<T>, b: seq<T>, c: seq<T>)
    requires IsSubsequence(a, b) && IsSubsequence(b, c)
    ensures IsSubsequence(a, c)
    decreases |a| + |b| + |c|
  {
    if a != [] && c != [] {
      var l, m, n := |a| - 1, |b| - 1, |c| - 1;
      if b[m] == c[n] && IsSubsequence(b[..m], c[..n]) {
        if a[l] == b[m] && IsSubsequence(a[..l], b[..m]) {
          SubsequenceTransitive(a[..l], b[..m], c[..n]);
        } else {
          SubsequenceTransitive(a, b[..m], c[..n]);
        }
      } else {
        SubsequenceTransitive(a, b, c[..n]);
      }
    }
  }

  /** Taking one element out leaves a subsequence. */
  lemma {:induction false} SubsequenceWithout<T>(s: seq<T>, k: nat)
    requires k < |s|
    ensures IsSubsequence(s[..k] + s[k + 1..], s)
  {
    var n := |s| - 1;
    if k == n {
      SubsequenceSelf(s[..n]);
      assert s[..k] + s[k + 1..] == s[..n] && s[..n] + [s[n]] == s;
      SubsequenceAppend(s[..n], s[..n], s[n]);
    } else {
      SubsequenceWithout(s[..n], k);
      var rest := s[..n][..k] + s[..n][k + 1..];
      assert s[..k] + s[k + 1..] == rest + [s[n]] && s[..n] + [s[n]] == s;
      SubsequenceAppend(rest, s[..n], s[n]);
    }
  }

  /** `sub` is what is left of `full` when only the elements to keep are kept: all of
      their copies, none of the others', in the old order. */
  ghost predicate IsFilter<T(!new)>(sub: seq<T>, full: seq<T>, keep: T -> bool) {
    IsSubsequence(sub, full) && forall x :: multiset(sub)[x] == if keep(x) then multiset(full)[x] else 0
  }

  lemma FilterStep<T(!new)>(sub: seq<T>, full: seq<T>, keep: T -> bool, x: T)
    requires IsFilter(sub, full, keep)
    ensures IsFilter(sub + (if keep(x) then [x] else []), full + [x], keep)
  {
    SubsequenceAppend(sub, full, x);
    hide IsSubsequence;
    assert sub + [] == sub;
  }

  lemma FilterNothing<T(!new)>(keep: T -> bool)
    ensures IsFilter([], [], keep)
  {
  }

  /** Filtering twice is filtering by both. */
  lemma FilterTwice<T(!new)>(c: seq<T>, b: seq<T>, a: seq<T>, p: T -> bool, q: T -> bool, both: T -> bool)
    requires IsFilter(b, a, p) && IsFilter(c, b, q) && forall x :: both(x) <==> p(x) && q(x)
    ensures IsFilter(c, a, both)
  {
    SubsequenceTransitive(c, b, a);
    hide IsSubsequence;
  }

  lemma FilterMembers<T(!new)>(sub: seq<T>, full: seq<T>, keep: T -> bool)
    requires IsFilter(sub, full, keep)
    ensures forall x :: x in sub <==> x in full && keep(x)
  {
    hide IsSubsequence;
    forall x ensures x in sub <==> x in full && keep(x) {
      assert multiset(sub)[x] > 0 <==> x in sub;
      assert multiset(full)[x] > 0 <==> x in full;
    }
  }
}
