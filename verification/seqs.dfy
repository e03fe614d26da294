/** Order-preserving sequence combinators: the `filter`, `map(..).filter(Boolean)`
    and `find` idioms the dashboard builds its views from, and the subsequence
    relations that describe what they keep. */
module Seqs {
  import opened Options

  /** `xs.filter(keep)`: the elements that satisfy `keep`, in their original order. */
  function Filter<T(==)>(xs: seq<T>, keep: T -> bool): (r: seq<T>)
    ensures |r| <= |xs|
    ensures forall y :: y in r ==> y in xs && keep(y)
    ensures forall i :: 0 <= i < |xs| && keep(xs[i]) ==> xs[i] in r
    decreases |xs|
  {
    if |xs| == 0 then []
    else if keep(xs[0]) then [xs[0]] + Filter(xs[1..], keep)
    else Filter(xs[1..], keep)
  }

  /** `xs.map(f).filter(Boolean)` where `f` answers `null` for the elements it drops. */
  function FilterMap<A, B(==)>(xs: seq<A>, f: A -> Option<B>): (r: seq<B>)
    ensures |r| <= |xs|
    ensures forall y :: y in r ==> exists i :: 0 <= i < |xs| && f(xs[i]) == Some(y)
    ensures forall i :: 0 <= i < |xs| && f(xs[i]).Some? ==> f(xs[i]).value in r
    decreases |xs|
  {
    if |xs| == 0 then []
    else
      match f(xs[0])
      case Some(y) => [y] + FilterMap(xs[1..], f)
      case None => FilterMap(xs[1..], f)
  }

  /** `xs.findIndex(p)`, with `None` for JavaScript's -1. */
  function FindFirst<T>(xs: seq<T>, p: T -> bool): (r: Option<nat>)
    ensures r.Some? ==> r.value < |xs| && p(xs[r.value])
    ensures r.Some? ==> forall j :: 0 <= j < r.value ==> !p(xs[j])
    ensures r.None? ==> forall j :: 0 <= j < |xs| ==> !p(xs[j])
    decreases |xs|
  {
    if |xs| == 0 then None
    else if p(xs[0]) then Some(0)
    else
      match FindFirst(xs[1..], p)
      case None => None
      case Some(i) => Some(i + 1)
  }

  /** The first index satisfying `p` is what `FindFirst` finds. */
  lemma FindFirstAt<T>(xs: seq<T>, p: T -> bool, i: nat)
    requires i < |xs| && p(xs[i])
    requires forall j :: 0 <= j < i ==> !p(xs[j])
    ensures FindFirst(xs, p) == Some(i)
  {
  }

  /** `ys` is obtained from `xs` by deleting elements and relating each kept one
      by `rel(y, x)`; with equality this is the ordinary subsequence order. */
  ghost predicate Embeds<A, B>(ys: seq<B>, xs: seq<A>, rel: (B, A) -> bool)
    decreases |xs|
  {
    if |ys| == 0 then true
    else if |xs| == 0 then false
    else (rel(ys[0], xs[0]) && Embeds(ys[1..], xs[1..], rel)) || Embeds(ys, xs[1..], rel)
  }

  ghost predicate IsSubseq<T>(ys: seq<T>, xs: seq<T>) {
    Embeds(ys, xs, (y: T, x: T) => y == x)
  }

  /** A `filter` result is a subsequence of its input. */
  lemma {:induction false} FilterIsSubseq<T>(xs: seq<T>, keep: T -> bool)
    ensures IsSubseq(Filter(xs, keep), xs)
    decreases |xs|
  {
    if |xs| > 0 {
      FilterIsSubseq(xs[1..], keep);
      if keep(xs[0]) {
        assert Filter(xs, keep)[1..] == Filter(xs[1..], keep);
      }
    }
  }

  /** Each element `FilterMap` keeps stands, in order, for the input it came
      from, in any relation `rel` that every successful `f` step establishes. */
  lemma {:induction false} FilterMapEmbeds<A, B>(xs: seq<A>, f: A -> Option<B>, rel: (B, A) -> bool)
    requires forall x :: f(x).Some? ==> rel(f(x).value, x)
    ensures Embeds(FilterMap(xs, f), xs, rel)
    decreases |xs|
  {
    if |xs| > 0 {
      FilterMapEmbeds(xs[1..], f, rel);
      if f(xs[0]).Some? {
        assert FilterMap(xs, f)[1..] == FilterMap(xs[1..], f);
      }
    }
  }

  /** A filter keeps every copy of a kept value and no copy of a dropped one. */
  lemma {:induction false} FilterCount<T>(xs: seq<T>, keep: T -> bool, y: T)
    ensures multiset(Filter(xs, keep))[y] == if keep(y) then multiset(xs)[y] else 0
    decreases |xs|
  {
    if |xs| > 0 {
      FilterCount(xs[1..], keep, y);
      assert xs == [xs[0]] + xs[1..];
    }
  }

  /** When only `x` can map to `y`, `FilterMap` yields `y` exactly as often as
      `x` occurs, or never if `x` maps elsewhere. */
  lemma {:induction false} FilterMapCount<A, B>(xs: seq<A>, f: A -> Option<B>, x: A, y: B)
    requires forall a :: f(a) == Some(y) ==> a == x
    ensures multiset(FilterMap(xs, f))[y] == if f(x) == Some(y) then multiset(xs)[x] else 0
    decreases |xs|
  {
    if |xs| > 0 {
      FilterMapCount(xs[1..], f, x, y);
      assert xs == [xs[0]] + xs[1..];
    }
  }

  /** A filter that keeps nothing yields nothing. */
  lemma {:induction false} FilterKeepsNone<T>(xs: seq<T>, keep: T -> bool)
    requires forall i :: 0 <= i < |xs| ==> !keep(xs[i])
    ensures Filter(xs, keep) == []
    decreases |xs|
  {
    if |xs| > 0 {
      FilterKeepsNone(xs[1..], keep);
    }
  }

  /** A `FilterMap` whose step drops every element yields nothing. */
  lemma {:induction false} FilterMapDropsAll<A, B>(xs: seq<A>, f: A -> Option<B>)
    requires forall i :: 0 <= i < |xs| ==> f(xs[i]).None?
    ensures FilterMap(xs, f) == []
    decreases |xs|
  {
    if |xs| > 0 {
      FilterMapDropsAll(xs[1..], f);
    }
  }

  /** A filter that keeps everything is the identity. */
  lemma {:induction false} FilterKeepsAll<T>(xs: seq<T>, keep: T -> bool)
    requires forall i :: 0 <= i < |xs| ==> keep(xs[i])
    ensures Filter(xs, keep) == xs
    decreases |xs|
  {
    if |xs| > 0 {
      FilterKeepsAll(xs[1..], keep);
    }
  }

  /** Filtering a concatenation filters each part. */
  lemma {:induction false} FilterAppend<T>(xs: seq<T>, ys: seq<T>, keep: T -> bool)
    ensures Filter(xs + ys, keep) == Filter(xs, keep) + Filter(ys, keep)
    decreases |xs|
  {
    if |xs| == 0 {
      assert xs + ys == ys;
    } else {
      assert (xs + ys)[1..] == xs[1..] + ys;
      FilterAppend(xs[1..], ys, keep);
    }
  }

  /** No element occurs twice. */
  ghost predicate NoDuplicates<T>(xs: seq<T>) {
    forall i, j :: 0 <= i < j < |xs| ==> xs[i] != xs[j]
  }

  /** Every sequence is a subsequence of itself. */
  lemma {:induction false} SubseqRefl<T>(xs: seq<T>)
    ensures IsSubseq(xs, xs)
    decreases |xs|
  {
    if |xs| > 0 {
      SubseqRefl(xs[1..]);
    }
  }

  /** A subsequence of a duplicate-free sequence is duplicate-free. */
  lemma {:induction false} SubseqNoDuplicates<T>(ys: seq<T>, xs: seq<T>)
    requires IsSubseq(ys, xs) && NoDuplicates(xs)
    ensures NoDuplicates(ys)
    decreases |xs|
  {
    if |ys| > 0 && |xs| > 0 {
      assert NoDuplicates(xs[1..]) by {
        forall i, j | 0 <= i < j < |xs| - 1
          ensures xs[1..][i] != xs[1..][j]
        {
          assert xs[1..][i] == xs[i + 1] && xs[1..][j] == xs[j + 1];
        }
      }
      if ys[0] == xs[0] && IsSubseq(ys[1..], xs[1..]) {
        SubseqNoDuplicates(ys[1..], xs[1..]);
        SubseqElements(ys[1..], xs[1..]);
        forall i, j | 0 <= i < j < |ys|
          ensures ys[i] != ys[j]
        {
          if i == 0 {
            assert ys[j] == ys[1..][j - 1];
            assert ys[j] in xs[1..];
            var k :| 0 <= k < |xs| - 1 && xs[1..][k] == ys[j];
            assert xs[k + 1] == ys[j];
          } else {
            assert ys[i] == ys[1..][i - 1] && ys[j] == ys[1..][j - 1];
          }
        }
      } else {
        SubseqNoDuplicates(ys, xs[1..]);
      }
    }
  }

  /** Every element of a subsequence is an element of the sequence. */
  lemma {:induction false} SubseqElements<T>(ys: seq<T>, xs: seq<T>)
    requires IsSubseq(ys, xs)
    ensures forall y :: y in ys ==> y in xs
    decreases |xs|
  {
    if |ys| > 0 && |xs| > 0 {
      if ys[0] == xs[0] && IsSubseq(ys[1..], xs[1..]) {
        SubseqElements(ys[1..], xs[1..]);
        assert ys == [ys[0]] + ys[1..];
      } else {
        SubseqElements(ys, xs[1..]);
      }
    }
  }
}
