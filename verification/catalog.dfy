/** The content catalog: sections of items of prompts, and the composite
    prompt key `promptKey` (src/AIWritingDashboard.tsx:37). */
module Catalog {
  import opened Options
  import opened Strings
  import opened Decimal

  /** An exercise. `P` is the prompt representation: plain text in the
      catalog, text with its derived key in a filtered view. The filter reads
      a missing `chips` or `prompts` list as an empty one; every item here
      carries both lists. */
  datatype Item<P> = Item(title: string, description: string, chips: seq<string>, prompts: seq<P>)

  /** A level of the pedagogical sequence. Its icon is presentation only. */
  datatype Section<P> = Section(id: string, title: string, colorIndex: int, items: seq<Item<P>>)

  type Catalog = seq<Section<string>>

  /** A prompt as the filtered view carries it: its text and its composite key. */
  datatype PromptView = PromptView(text: string, id: string)

  const KeySep: string := "::"

  /** `promptKey(sec, item, idx)`: section id, item title and position, joined by "::". */
  function PromptKey(secId: string, itemTitle: string, idx: nat): string {
    Join([secId, itemTitle, NatToString(idx)], KeySep)
  }

  /** The prompts of an item paired with the keys of their ORIGINAL positions. */
  function Indexed(secId: string, it: Item<string>): seq<PromptView> {
    seq(|it.prompts|, i requires 0 <= i < |it.prompts| => PromptView(it.prompts[i], PromptKey(secId, it.title, i)))
  }

  /** A key component that `split("::")` cuts back out of a key: it holds no
      "::" and does not end with ':' (else its last ':' would pair with the
      separator's first). */
  predicate KeySafe(s: string) {
    !Includes(s, KeySep) && (|s| == 0 || s[|s| - 1] != ':')
  }

  lemma KeySafeSeparates(p: string)
    requires KeySafe(p)
    ensures SeparatesCleanly(p, KeySep)
  {
    var s := p + KeySep;
    assert OccursAt(s, KeySep, |p|);
    forall j | 0 <= j < |p|
      ensures !OccursAt(s, KeySep, j)
    {
      if j + 2 <= |p| {
        assert s[j..j + 2] == p[j..j + 2];
        assert !OccursAt(p, KeySep, j);
      } else {
        assert s[j] == p[|p| - 1];
      }
    }
  }

  lemma DigitsHoldNoSeparator(d: string)
    requires AllDigits(d)
    ensures IndexOf(d, KeySep).None?
  {
    forall j | 0 <= j < |d|
      ensures !OccursAt(d, KeySep, j)
    {
      if j + 2 <= |d| {
        assert d[j..j + 2][0] == d[j];
      }
    }
  }

  /** A key splits back into its three components when the id and the title
      are key-safe. */
  lemma SplitPromptKey(secId: string, itemTitle: string, idx: nat)
    requires KeySafe(secId) && KeySafe(itemTitle)
    ensures Split(PromptKey(secId, itemTitle, idx), KeySep) == [secId, itemTitle, NatToString(idx)]
  {
    var parts := [secId, itemTitle, NatToString(idx)];
    KeySafeSeparates(secId);
    KeySafeSeparates(itemTitle);
    DigitsHoldNoSeparator(NatToString(idx));
    SplitJoin(parts, KeySep);
  }

  /** Distinct key-safe components give distinct prompt keys. */
  lemma PromptKeyInjective(s1: string, t1: string, i1: nat, s2: string, t2: string, i2: nat)
    requires KeySafe(s1) && KeySafe(t1) && KeySafe(s2) && KeySafe(t2)
    requires PromptKey(s1, t1, i1) == PromptKey(s2, t2, i2)
    ensures s1 == s2 && t1 == t2 && i1 == i2
  {
    SplitPromptKey(s1, t1, i1);
    SplitPromptKey(s2, t2, i2);
    assert NatToString(i1) == NatToString(i2);
  }
}
