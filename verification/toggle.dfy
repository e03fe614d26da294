/** The list-as-set membership flip behind `toggleFav`
    (src/AIWritingDashboard.tsx:479-482) and `toggleTag` (:618-621):
    `arr.includes(x) ? arr.filter(y => y !== x) : [...arr, x]`. */
module Toggle {
  import opened Seqs

  /** `xs.filter(y => y !== x)`. */
  function RemoveAll(xs: seq<string>, x: string): seq<string> {
    Filter(xs, y => y != x)
  }

  /** Removes every occurrence of a present `x`, appends an absent one. */
  function Toggle(xs: seq<string>, x: string): (r: seq<string>)
    ensures x !in xs ==> r == xs + [x]
    ensures x in xs ==> x !in r
    ensures forall y :: y in r <==> (y in xs <==> y != x)
  {
    if x in xs then RemoveAll(xs, x) else xs + [x]
  }

  /** Removal leaves every other element with its multiplicity and order. */
  lemma {:induction false} RemoveAllKeepsOthers(xs: seq<string>, x: string)
    ensures IsSubseq(RemoveAll(xs, x), xs)
    ensures forall y :: y != x ==> multiset(RemoveAll(xs, x))[y] == multiset(xs)[y]
    decreases |xs|
  {
    FilterIsSubseq(xs, y => y != x);
    if |xs| > 0 {
      RemoveAllKeepsOthers(xs[1..], x);
      assert xs == [xs[0]] + xs[1..];
    }
  }

  /** Toggling a present element removes all its occurrences and nothing else. */
  lemma TogglePresent(xs: seq<string>, x: string)
    requires x in xs
    ensures multiset(Toggle(xs, x))[x] == 0
    ensures forall y :: y != x ==> multiset(Toggle(xs, x))[y] == multiset(xs)[y]
    ensures IsSubseq(Toggle(xs, x), xs)
  {
    RemoveAllKeepsOthers(xs, x);
  }

  /** Toggling twice restores membership, whatever the list held. */
  lemma ToggleTwiceMembership(xs: seq<string>, x: string)
    ensures forall y :: y in Toggle(Toggle(xs, x), x) <==> y in xs
  {
  }

  /** Toggling an absent element twice restores the exact list. */
  lemma ToggleTwiceAbsent(xs: seq<string>, x: string)
    requires x !in xs
    ensures Toggle(Toggle(xs, x), x) == xs
  {
    FilterAppend(xs, [x], y => y != x);
    FilterKeepsAll(xs, y => y != x);
  }

  /** Toggling a present element twice moves it, once, to the end. */
  lemma ToggleTwicePresent(xs: seq<string>, x: string)
    requires x in xs
    ensures Toggle(Toggle(xs, x), x) == RemoveAll(xs, x) + [x]
  {
  }

  /** So the exact list is not restored when the element was not last. */
  lemma ToggleTwiceReorders()
    ensures Toggle(Toggle(["a", "b"], "a"), "a") == ["b", "a"]
  {
    assert "a" in ["a", "b"];
    assert Filter(["a", "b"][1..], y => y != "a") == ["b"];
  }

  /** Toggling never creates duplicates. */
  lemma ToggleNoDuplicates(xs: seq<string>, x: string)
    requires NoDuplicates(xs)
    ensures NoDuplicates(Toggle(xs, x))
  {
    if x in xs {
      RemoveAllKeepsOthers(xs, x);
      SubseqNoDuplicates(RemoveAll(xs, x), xs);
    }
  }
}
