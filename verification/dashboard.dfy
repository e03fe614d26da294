/** The dashboard's state transitions as a reducer over one explicit state
    record: favorite and tag toggles, section expand/collapse, the keyboard
    shortcut dispatcher, and the accent-colour rotation
    (src/AIWritingDashboard.tsx). */
module Dashboard {
  import opened Options
  import opened Seqs
  import Toggle
  import opened UrlCodec
  import opened Catalog
  import CatalogFilter

  /** The view state: what the URL mirrors, the persisted favorites list and
      whether the shortcut help overlay is open. */
  datatype UiState = UiState(url: UrlState, favorites: seq<string>, showHelp: bool)

  /** `toggleFav(id)`: flips membership of `id` in the favorites list only. */
  function ToggleFav(ui: UiState, id: string): (r: UiState)
    ensures r.url == ui.url && r.showHelp == ui.showHelp
    ensures forall k :: k in r.favorites <==> (k in ui.favorites <==> k != id)
  {
    ui.(favorites := Toggle.Toggle(ui.favorites, id))
  }

  /** `toggleTag(t)`: flips membership of `t` in the selected tags only. */
  function ToggleTag(ui: UiState, t: string): (r: UiState)
    ensures r.favorites == ui.favorites && r.showHelp == ui.showHelp
    ensures r.url.expandedId == ui.url.expandedId && r.url.q == ui.url.q && r.url.showFavs == ui.url.showFavs
    ensures forall x :: x in r.url.tags <==> (x in ui.url.tags <==> x != t)
  {
    ui.(url := ui.url.(tags := Toggle.Toggle(ui.url.tags, t)))
  }

  /** A section header click: an open section closes (leaving none open), any
      other section opens in place of the open one. */
  function ToggleSection(ui: UiState, secId: string): (r: UiState)
    ensures r.url.expandedId == Some(secId) <==> ui.url.expandedId != Some(secId)
    ensures r.url.expandedId.None? <==> ui.url.expandedId == Some(secId)
    ensures r == ui.(url := ui.url.(expandedId := r.url.expandedId))
  {
    var isOpen := ui.url.expandedId == Some(secId);
    ui.(url := ui.url.(expandedId := if isOpen then None else Some(secId)))
  }

  /** Clicking the same header twice restores the expansion when that section
      was open or nothing was, but not when another section was open. */
  lemma ToggleSectionTwice(ui: UiState, secId: string)
    ensures ui.url.expandedId == Some(secId) || ui.url.expandedId.None? ==>
      ToggleSection(ToggleSection(ui, secId), secId) == ui
    ensures ui.url.expandedId.Some? && ui.url.expandedId != Some(secId) ==>
      ToggleSection(ToggleSection(ui, secId), secId).url.expandedId.None?
  {
  }

  /** What a key press does: the new state, whether the search field takes
      focus, and whether the browser's default action is suppressed. */
  datatype KeyOutcome = KeyOutcome(ui: UiState, focusSearch: bool, preventDefault: bool)

  /** Keys typed into a text input or text area are never intercepted. */
  predicate InTextField(targetTag: string) {
    targetTag == "INPUT" || targetTag == "TEXTAREA"
  }

  /** The global keydown handler: "/" focuses the search field, "f" flips
      favorites-only, "?" opens the help overlay, each suppressing the
      default action; nothing happens inside a text field. */
  function KeyDown(ui: UiState, targetTag: string, key: string): (r: KeyOutcome)
    ensures InTextField(targetTag) ==> r == KeyOutcome(ui, false, false)
    ensures r.focusSearch <==> !InTextField(targetTag) && key == "/"
    ensures r.preventDefault <==> !InTextField(targetTag) && (key == "/" || key == "f" || key == "?")
    ensures r.ui.url.showFavs != ui.url.showFavs <==> !InTextField(targetTag) && key == "f"
    ensures r.ui.showHelp <==> ui.showHelp || (!InTextField(targetTag) && key == "?")
    ensures r.ui.favorites == ui.favorites && r.ui.url == ui.url.(showFavs := r.ui.url.showFavs)
  {
    if InTextField(targetTag) then KeyOutcome(ui, false, false)
    else if key == "/" then KeyOutcome(ui, true, true)
    else if key == "f" then KeyOutcome(ui.(url := ui.url.(showFavs := !ui.url.showFavs)), false, true)
    else if key == "?" then KeyOutcome(ui.(showHelp := true), false, true)
    else KeyOutcome(ui, false, false)
  }

  /** What the dashboard shows for a state. */
  function Visible(cat: Catalog, ui: UiState): CatalogFilter.View {
    CatalogFilter.FilterCatalog(cat, ui.url.q, ui.url.tags, ui.url.showFavs, ui.favorites)
  }

  /** Pressing "f" with no favorites saved empties the view. */
  lemma FavKeyWithoutFavoritesHidesAll(cat: Catalog, ui: UiState, targetTag: string)
    requires !InTextField(targetTag) && !ui.url.showFavs && ui.favorites == []
    ensures Visible(cat, KeyDown(ui, targetTag, "f").ui) == []
  {
    CatalogFilter.NoFavoritesNoSections(cat, ui.url.q, ui.url.tags);
  }

  /** Pressing "f" twice outside a text field restores the state. */
  lemma FavKeyTwice(ui: UiState, targetTag: string)
    ensures KeyDown(KeyDown(ui, targetTag, "f").ui, targetTag, "f").ui == ui
  {
  }

  /** The accent colours, in settings order. */
  const ColorOptions: seq<string> := ["emerald", "sky", "fuchsia", "amber"]

  /** `COLOR_OPTIONS.indexOf(color)`, -1 when absent (a stored value need not
      be one of the options). */
  function ColorIndex(color: string): (i: int)
    ensures -1 <= i < |ColorOptions|
    ensures i >= 0 <==> color in ColorOptions
    ensures i >= 0 ==> ColorOptions[i] == color
  {
    match FindFirst(ColorOptions, (c: string) => c == color)
    case Some(i) => i
    case None => -1
  }

  /** `xs.slice(start)`: a negative start counts from the end. */
  function SliceFrom<T>(xs: seq<T>, start: int): seq<T> {
    if start < 0 then (if |xs| + start < 0 then xs else xs[|xs| + start..])
    else if start > |xs| then []
    else xs[start..]
  }

  /** `xs.slice(0, end)`: a negative end counts from the end. */
  function SliceTo<T>(xs: seq<T>, end: int): seq<T> {
    if end < 0 then (if |xs| + end < 0 then [] else xs[..|xs| + end])
    else if end > |xs| then xs
    else xs[..end]
  }

  /** `xs[s..]` followed by `xs[..s]`: element `i` is the one `s` places on,
      wrapping around. */
  function Rotate<T>(xs: seq<T>, s: nat): (r: seq<T>)
    requires s <= |xs|
    ensures |r| == |xs|
    ensures forall i :: 0 <= i < |xs| - s ==> r[i] == xs[i + s]
    ensures forall i :: |xs| - s <= i < |xs| ==> r[i] == xs[i + s - |xs|]
  {
    assert xs == xs[..s] + xs[s..];
    xs[s..] + xs[..s]
  }

  /** A rotation is a permutation. */
  lemma RotateIsPermutation<T>(xs: seq<T>, s: nat)
    requires s <= |xs|
    ensures multiset(Rotate(xs, s)) == multiset(xs)
  {
    assert xs == xs[..s] + xs[s..];
  }

  lemma RotatedAt<T>(xs: seq<T>, s: nat, i: nat)
    requires s <= |xs| && i < |xs|
    ensures Rotate(xs, s)[i] == xs[if i < |xs| - s then i + s else i + s - |xs|]
  {
  }

  /** Where the rotation starts: the chosen colour, or the last option for an
      unknown one. */
  function RotationStart(color: string): (s: nat)
    ensures s < |ColorOptions|
    ensures color in ColorOptions ==> ColorOptions[s] == color
    ensures color !in ColorOptions ==> s == |ColorOptions| - 1
  {
    var idx := ColorIndex(color);
    if idx < 0 then |ColorOptions| - 1 else idx
  }

  /** `colorOrder`: `[...COLOR_OPTIONS.slice(idx), ...COLOR_OPTIONS.slice(0, idx)]`,
      the options rotated to start at the chosen colour; for an unknown colour
      `idx` is -1 and the slices put the last option first. */
  function ColorOrder(color: string): (r: seq<string>)
    ensures r == Rotate(ColorOptions, RotationStart(color))
    ensures color in ColorOptions ==> r[0] == color
  {
    var idx := ColorIndex(color);
    SliceFrom(ColorOptions, idx) + SliceTo(ColorOptions, idx)
  }

  /** The colour of the `i`-th shown section: `colorOrder[i % colorOrder.length]`. */
  function SectionColor(color: string, i: nat): (c: string)
    ensures c in ColorOptions
    ensures i % |ColorOptions| == 0 && color in ColorOptions ==> c == color
    ensures c == ColorOptions[(RotationStart(color) + i) % |ColorOptions|]
  {
    var order := ColorOrder(color);
    ColorAt(order, RotationStart(color), i);
    order[i % |order|]
  }

  lemma ColorAt(order: seq<string>, s: nat, i: nat)
    requires s < |ColorOptions| && order == Rotate(ColorOptions, s)
    ensures i % |order| < |order| && order[i % |order|] == ColorOptions[(s + i) % 4]
    ensures i % 4 == 0 ==> order[i % |order|] == ColorOptions[s]
  {
    RotationAt(s, i);
    assert i % 4 == 0 ==> (s + i) % 4 == s;
  }

  /** Position `i % 4` of the options rotated by `s` holds option `(s + i) % 4`. */
  lemma RotationAt(s: nat, i: nat)
    requires s < |ColorOptions|
    ensures Rotate(ColorOptions, s)[i % 4] == ColorOptions[(s + i) % 4]
  {
    RotatedAt(ColorOptions, s, i % 4);
    StepsAround(s, i);
  }

  /** Starting at `s` and stepping `i` times around four positions ends at
      `s + i % 4`, wrapped once if it passes the end. */
  lemma StepsAround(s: nat, i: nat)
    requires s < 4
    ensures (s + i) % 4 == if i % 4 < 4 - s then i % 4 + s else i % 4 + s - 4
  {
    assert s + i == 4 * (i / 4) + (s + i % 4);
  }

  /** Neighbouring sections never share a colour. */
  lemma NeighboursDiffer(color: string, i: nat)
    ensures SectionColor(color, i) != SectionColor(color, i + 1)
  {
    var k := RotationStart(color) + i;
    assert SectionColor(color, i) == ColorOptions[k % 4];
    assert SectionColor(color, i + 1) == ColorOptions[(k + 1) % 4];
    NextOptionDiffers(k);
  }

  lemma NextOptionDiffers(k: nat)
    ensures ColorOptions[k % 4] != ColorOptions[(k + 1) % 4]
  {
    assert (k + 1) % 4 != k % 4;
    OptionsDistinct(k % 4, (k + 1) % 4);
  }

  /** Distinct positions of a rotation of the options hold distinct colours. */
  lemma RotationInjective(s: nat, a: nat, b: nat)
    requires s < 4 && a < 4 && b < 4 && a != b
    ensures Rotate(ColorOptions, s)[a] != Rotate(ColorOptions, s)[b]
  {
    RotatedAt(ColorOptions, s, a);
    RotatedAt(ColorOptions, s, b);
    var ia := if a < 4 - s then a + s else a + s - 4;
    var ib := if b < 4 - s then b + s else b + s - 4;
    OptionsDistinct(ia, ib);
  }

  lemma OptionsDistinct(a: nat, b: nat)
    requires a < |ColorOptions| && b < |ColorOptions| && a != b
    ensures ColorOptions[a] != ColorOptions[b]
  {
    var initials := ['e', 's', 'f', 'a'];
    assert forall k :: 0 <= k < 4 ==> ColorOptions[k][0] == initials[k];
  }

  /** An unknown stored colour makes the last option lead. */
  lemma UnknownColorLeadsWithLast(color: string)
    requires color !in ColorOptions
    ensures ColorOrder(color) == ["amber", "emerald", "sky", "fuchsia"]
  {
  }
}
