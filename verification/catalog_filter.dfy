/** The `filtered` view of the feature-expanded dashboard
    (src/AIWritingDashboard.tsx:525-549): prompt-level query and favorites
    filtering, item-level tag AND-filtering, then pruning of empty items and
    empty sections. */
module CatalogFilter {
  import opened Options
  import opened Seqs
  import opened Strings
  import opened Catalog

  type View = seq<Section<PromptView>>

  /** `selectedTags.every(t => it.chips?.includes(t))`; vacuous for no tags. */
  predicate TagsMatch(tags: seq<string>, chips: seq<string>) {
    forall t :: t in tags ==> t in chips
  }

  /** The text a query is matched against: the item's title, its description
      and the prompt text, joined by newlines, so a match may span a newline. */
  function SearchText(title: string, description: string, text: string): string {
    Join([title, description, text], "\n")
  }

  /** The prompt-level test: favorites-only admits favorited keys only, and a
      non-empty trimmed query `k` must occur in the search text. */
  predicate PromptVisible(it: Item<string>, pv: PromptView, k: string, showFavs: bool, favorites: seq<string>) {
    && (!showFavs || pv.id in favorites)
    && (k == [] || Includes(SearchText(it.title, it.description, pv.text), k))
  }

  /** One item: `null` when the tags do not match or no prompt survives;
      otherwise the item with its surviving keyed prompts. */
  function FilterItem(secId: string, it: Item<string>, k: string, tags: seq<string>, showFavs: bool, favorites: seq<string>)
    : Option<Item<PromptView>>
  {
    if !TagsMatch(tags, it.chips) then None
    else
      var prompts := Filter(Indexed(secId, it), pv => PromptVisible(it, pv, k, showFavs, favorites));
      if |prompts| == 0 then None
      else Some(Item(it.title, it.description, it.chips, prompts))
  }

  /** One section: `null` when none of its items survives. */
  function FilterSection(s: Section<string>, k: string, tags: seq<string>, showFavs: bool, favorites: seq<string>)
    : Option<Section<PromptView>>
  {
    var items := FilterMap(s.items, it => FilterItem(s.id, it, k, tags, showFavs, favorites));
    if |items| == 0 then None
    else Some(Section(s.id, s.title, s.colorIndex, items))
  }

  /** The filtered catalog for query `q`, the selected tags, the favorites-only
      flag and the favorites list. */
  function FilterCatalog(cat: Catalog, q: string, tags: seq<string>, showFavs: bool, favorites: seq<string>): View {
    var k := Trim(q);
    FilterMap(cat, s => FilterSection(s, k, tags, showFavs, favorites))
  }

  /** `iv` renders item `it` of section `secId`: the same heading and chips,
      and an order-preserving selection of its prompts keyed by original index. */
  ghost predicate ItemEmbeds(iv: Item<PromptView>, it: Item<string>, secId: string) {
    && iv.title == it.title && iv.description == it.description && iv.chips == it.chips
    && IsSubseq(iv.prompts, Indexed(secId, it))
  }

  /** `sv` renders section `s`: the same heading, and an order-preserving
      selection of its items, each rendered as above. */
  ghost predicate SectionEmbeds(sv: Section<PromptView>, s: Section<string>) {
    && sv.id == s.id && sv.title == s.title && sv.colorIndex == s.colorIndex
    && Embeds(sv.items, s.items, ItemRel(s.id))
  }

  ghost function ItemRel(secId: string): (Item<PromptView>, Item<string>) -> bool {
    (iv: Item<PromptView>, it: Item<string>) => ItemEmbeds(iv, it, secId)
  }

  /** The view shows prompt `pv` under a rendering of section `s` and item `it`. */
  ghost predicate Shows(r: View, s: Section<string>, it: Item<string>, pv: PromptView) {
    exists sv, iv :: && sv in r && iv in sv.items
                     && sv.id == s.id && sv.title == s.title && sv.colorIndex == s.colorIndex
                     && iv.title == it.title && iv.description == it.description && iv.chips == it.chips
                     && pv in iv.prompts
  }

  /** Every surviving section and item comes from the catalog with what it
      carried, and every surviving prompt keeps its text and the key of its
      original position. */
  lemma ItemResult(secId: string, it: Item<string>, k: string, tags: seq<string>, showFavs: bool, favorites: seq<string>)
    ensures var r := FilterItem(secId, it, k, tags, showFavs, favorites);
      r.Some? ==> ItemEmbeds(r.value, it, secId) && TagsMatch(tags, it.chips) && |r.value.prompts| > 0
  {
    if TagsMatch(tags, it.chips) {
      FilterIsSubseq(Indexed(secId, it), pv => PromptVisible(it, pv, k, showFavs, favorites));
    }
  }

  /** Query soundness: with a non-blank query, every surviving prompt's search
      text contains the trimmed query. */
  lemma QuerySound(cat: Catalog, q: string, tags: seq<string>, showFavs: bool, favorites: seq<string>)
    ensures var r := FilterCatalog(cat, q, tags, showFavs, favorites);
      forall sv, iv, pv :: sv in r && iv in sv.items && pv in iv.prompts && Trim(q) != [] ==>
        Includes(SearchText(iv.title, iv.description, pv.text), Trim(q))
  {
  }

  /** Tag AND-semantics: every surviving item carries every selected tag. */
  lemma TagsAreAnded(cat: Catalog, q: string, tags: seq<string>, showFavs: bool, favorites: seq<string>)
    ensures var r := FilterCatalog(cat, q, tags, showFavs, favorites);
      forall sv, iv, t :: sv in r && iv in sv.items && t in tags ==> t in iv.chips
  {
  }

  /** Favorites-only: every surviving prompt's key is a favorite. */
  lemma FavoritesOnly(cat: Catalog, q: string, tags: seq<string>, favorites: seq<string>)
    ensures var r := FilterCatalog(cat, q, tags, true, favorites);
      forall sv, iv, pv :: sv in r && iv in sv.items && pv in iv.prompts ==> pv.id in favorites
  {
  }

  /** Favorites-only with no favorites shows nothing at all. */
  lemma NoFavoritesNoSections(cat: Catalog, q: string, tags: seq<string>)
    ensures FilterCatalog(cat, q, tags, true, []) == []
  {
    var k := Trim(q);
    forall s | s in cat
      ensures FilterSection(s, k, tags, true, []).None?
    {
      forall it | it in s.items
        ensures FilterItem(s.id, it, k, tags, true, []).None?
      {
        FilterKeepsNone(Indexed(s.id, it), pv => PromptVisible(it, pv, k, true, []));
      }
      FilterMapDropsAll(s.items, it => FilterItem(s.id, it, k, tags, true, []));
    }
    FilterMapDropsAll(cat, s => FilterSection(s, k, tags, true, []));
  }

  /** Pruning: no surviving section is empty and no surviving item is empty. */
  lemma Pruned(cat: Catalog, q: string, tags: seq<string>, showFavs: bool, favorites: seq<string>)
    ensures forall sv :: sv in FilterCatalog(cat, q, tags, showFavs, favorites) ==> |sv.items| > 0
    ensures forall sv, iv :: sv in FilterCatalog(cat, q, tags, showFavs, favorites) && iv in sv.items ==> |iv.prompts| > 0
  {
  }

  /** A surviving section renders its catalog section. */
  lemma SectionResult(s: Section<string>, k: string, tags: seq<string>, showFavs: bool, favorites: seq<string>)
    ensures var r := FilterSection(s, k, tags, showFavs, favorites);
      r.Some? ==> SectionEmbeds(r.value, s)
  {
    var g := it => FilterItem(s.id, it, k, tags, showFavs, favorites);
    forall it | g(it).Some?
      ensures ItemRel(s.id)(g(it).value, it)
    {
      ItemResult(s.id, it, k, tags, showFavs, favorites);
    }
    FilterMapEmbeds(s.items, g, ItemRel(s.id));
  }

  /** Order and provenance: the view is an order-preserving selection of the
      catalog's sections, of their items and of their keyed prompts. */
  lemma OrderPreserving(cat: Catalog, q: string, tags: seq<string>, showFavs: bool, favorites: seq<string>)
    ensures Embeds(FilterCatalog(cat, q, tags, showFavs, favorites), cat, SectionEmbeds)
  {
    var k := Trim(q);
    var f := s => FilterSection(s, k, tags, showFavs, favorites);
    forall s | f(s).Some?
      ensures SectionEmbeds(f(s).value, s)
    {
      SectionResult(s, k, tags, showFavs, favorites);
    }
    FilterMapEmbeds(cat, f, SectionEmbeds);
  }

  /** Exactness: a prompt of an item whose chips carry every selected tag, and
      which passes the favorites and query tests, is always shown, under its
      original-index key. */
  lemma Complete(cat: Catalog, q: string, tags: seq<string>, showFavs: bool, favorites: seq<string>,
                 si: nat, ii: nat, pi: nat)
    requires si < |cat| && ii < |cat[si].items| && pi < |cat[si].items[ii].prompts|
    requires TagsMatch(tags, cat[si].items[ii].chips)
    requires PromptVisible(cat[si].items[ii], Indexed(cat[si].id, cat[si].items[ii])[pi], Trim(q), showFavs, favorites)
    ensures Shows(FilterCatalog(cat, q, tags, showFavs, favorites), cat[si], cat[si].items[ii],
                  PromptView(cat[si].items[ii].prompts[pi], PromptKey(cat[si].id, cat[si].items[ii].title, pi)))
  {
    var k := Trim(q);
    var s := cat[si];
    var it := s.items[ii];
    var pv := Indexed(s.id, it)[pi];
    var iv := FilterItem(s.id, it, k, tags, showFavs, favorites);
    assert pv in iv.value.prompts;
    var sv := FilterSection(s, k, tags, showFavs, favorites);
    assert iv.value in sv.value.items;
    assert sv.value in FilterCatalog(cat, q, tags, showFavs, favorites);
  }

  /** With no query, no tags and favorites-only off, nothing is filtered: every
      item with at least one prompt is shown with all of its keyed prompts. */
  lemma NoFiltersKeepsEverything(cat: Catalog, q: string, favorites: seq<string>, si: nat, ii: nat)
    requires AllWhitespace(q)
    requires si < |cat| && ii < |cat[si].items| && |cat[si].items[ii].prompts| > 0
    ensures var s, it := cat[si], cat[si].items[ii];
      exists sv, iv :: && sv in FilterCatalog(cat, q, [], false, favorites) && iv in sv.items
                       && sv.id == s.id && iv.title == it.title
                       && iv.prompts == Indexed(s.id, it)
  {
    var k := Trim(q);
    var s := cat[si];
    var it := s.items[ii];
    FilterKeepsAll(Indexed(s.id, it), pv => PromptVisible(it, pv, k, false, favorites));
    var iv := FilterItem(s.id, it, k, [], false, favorites);
    var sv := FilterSection(s, k, [], false, favorites);
    assert iv.value in sv.value.items;
    assert sv.value in FilterCatalog(cat, q, [], false, favorites);
  }
}
