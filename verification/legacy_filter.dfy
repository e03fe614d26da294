/** The query-only filter of the earlier dashboard
    (AIWritingDashboard.tsx:380-389): whole items are kept or dropped, and
    sections left without items disappear. */
module LegacyFilter {
  import opened Options
  import opened Seqs
  import opened Strings
  import opened Catalog

  /** `[it.title, it.description, ...it.prompts].join("\n")`. */
  function ItemText(it: Item<string>): string {
    Join([it.title, it.description] + it.prompts, "\n")
  }

  predicate ItemMatches(it: Item<string>, k: string) {
    Includes(ItemText(it), k)
  }

  function LegacySection(s: Section<string>, k: string): Option<Section<string>> {
    var items := Filter(s.items, it => ItemMatches(it, k));
    if |items| == 0 then None else Some(s.(items := items))
  }

  /** The catalog for query `q`: unchanged for a blank query, otherwise the
      matching items of each section, minus the sections left empty. */
  function LegacyFilterCatalog(cat: Catalog, q: string): Catalog {
    if Trim(q) == [] then cat
    else
      var k := Trim(q);
      FilterMap(cat, s => LegacySection(s, k))
  }

  /** `sv` is section `s` with an order-preserving selection of its items,
      every other field unchanged. */
  ghost predicate KeepsSection(sv: Section<string>, s: Section<string>) {
    sv == s.(items := sv.items) && IsSubseq(sv.items, s.items)
  }

  /** A blank or whitespace-only query shows the catalog unchanged. */
  lemma BlankQueryIsIdentity(cat: Catalog, q: string)
    requires AllWhitespace(q)
    ensures LegacyFilterCatalog(cat, q) == cat
  {
  }

  /** Soundness: with a non-blank query, every shown item's joined text
      contains the trimmed query. */
  lemma LegacySound(cat: Catalog, q: string)
    requires !AllWhitespace(q)
    ensures forall sv, it :: sv in LegacyFilterCatalog(cat, q) && it in sv.items ==> ItemMatches(it, Trim(q))
  {
  }

  /** Whole items and order: each shown section is a catalog section with an
      order-preserving selection of its items, each item unchanged (every
      prompt kept), and the sections keep their catalog order. */
  lemma LegacyOrderPreserving(cat: Catalog, q: string)
    ensures Embeds(LegacyFilterCatalog(cat, q), cat, KeepsSection)
  {
    var k := Trim(q);
    if k == [] {
      SelfEmbeds(cat);
    } else {
      var f := s => LegacySection(s, k);
      forall s | f(s).Some?
        ensures KeepsSection(f(s).value, s)
      {
        FilterIsSubseq(s.items, it => ItemMatches(it, k));
      }
      FilterMapEmbeds(cat, f, KeepsSection);
    }
  }

  lemma {:induction false} SelfEmbeds(cat: Catalog)
    ensures Embeds(cat, cat, KeepsSection)
    decreases |cat|
  {
    if |cat| > 0 {
      SelfEmbeds(cat[1..]);
      SubseqRefl(cat[0].items);
    }
  }

  /** Pruning: with a non-blank query, no shown section is empty. */
  lemma LegacyPruned(cat: Catalog, q: string)
    requires !AllWhitespace(q)
    ensures forall sv :: sv in LegacyFilterCatalog(cat, q) ==> |sv.items| > 0
  {
  }

  /** Exactness: an item whose joined text contains the trimmed query is shown,
      under its own section. */
  lemma LegacyComplete(cat: Catalog, q: string, si: nat, ii: nat)
    requires si < |cat| && ii < |cat[si].items|
    requires ItemMatches(cat[si].items[ii], Trim(q))
    ensures exists sv :: sv in LegacyFilterCatalog(cat, q) && sv.id == cat[si].id && cat[si].items[ii] in sv.items
  {
    var k := Trim(q);
    if k == [] {
      assert cat[si] in cat;
    } else {
      var sv := LegacySection(cat[si], k);
      assert sv.Some?;
      assert sv.value in LegacyFilterCatalog(cat, q);
    }
  }
}
