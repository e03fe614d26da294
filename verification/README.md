# AI writing dashboard: a Dafny model of its state logic

The dashboard is a single-page React app: a catalog of pedagogical
*sections* (levels), each made of *items* (exercises) that carry a title, a
description, topic *chips* and ready-to-copy *prompts*. Around the catalog
sits a small amount of pure state logic, and that logic is what this project
models and proves things about:

- the composite prompt key `section::item::index` (module `Catalog`);
- the `filtered` view: favorites-only and query filtering per prompt, tag
  AND-filtering per item, then pruning of empty items and sections
  (`CatalogFilter`); and the older query-only filter that keeps or drops
  whole items (`LegacyFilter`);
- the favorite and tag toggles (`Toggle`, used by `Dashboard`);
- the URL mirror: serialising the view state into query parameters and
  hydrating it back on load (`UrlCodec`);
- the JSON export: resolving favorite keys back to prompt texts, and the
  `YYYYMMDD` file-name stamp (`Export`);
- section expand/collapse, the `/`, `f`, `?` keyboard shortcuts and the
  accent-colour rotation (`Dashboard`).

Supporting modules model the JavaScript primitives these use: `Seqs`
(`filter`, the `map`-then-`filter(Boolean)` idiom, `find`), `Strings`
(`indexOf`/`includes`, `trim`, `join`, `split` on a string separator) and
`Decimal` (`${n}` for integers, `padStart`, and the order `<` puts on
strings). Everything is a pure function over immutable datatypes; React state
setters become functions from an old state to a new one.

## Model

| member | source | states |
|---|---|---|
| Catalog.SplitPromptKey | src/AIWritingDashboard.tsx:37 | splitting a prompt key on "::" gives back the section id, item title and index text, provided neither the id nor the title contains "::" or ends with ':' |
| Catalog.PromptKeyInjective | src/AIWritingDashboard.tsx:37 | two prompt keys built from such key-safe ids and titles are equal only when section, title and index are all equal |
| CatalogFilter.ItemResult | src/AIWritingDashboard.tsx:528-543 | a surviving item has matching tags, at least one prompt, the catalog item's title, description and chips, and an order-preserving selection of its keyed prompts |
| CatalogFilter.QuerySound | src/AIWritingDashboard.tsx:526-541 | with a non-blank query, every shown prompt's `title\ndescription\ntext` contains the trimmed query |
| CatalogFilter.TagsAreAnded | src/AIWritingDashboard.tsx:530 | every shown item carries every selected tag (AND, not OR) |
| CatalogFilter.FavoritesOnly | src/AIWritingDashboard.tsx:537 | in favorites-only mode every shown prompt's key is a favorite |
| CatalogFilter.NoFavoritesNoSections | src/AIWritingDashboard.tsx:537-548 | favorites-only with an empty favorites list shows no section at all |
| CatalogFilter.Pruned | src/AIWritingDashboard.tsx:542-548 | no shown section has zero items and no shown item has zero prompts |
| CatalogFilter.SectionResult | src/AIWritingDashboard.tsx:527-547 | a surviving section keeps its id, title and colour and shows an order-preserving selection of renderings of its items |
| CatalogFilter.OrderPreserving | src/AIWritingDashboard.tsx:525-549 | the view is an order-preserving selection of catalog sections, of their items and of their keyed prompts |
| CatalogFilter.Complete | src/AIWritingDashboard.tsx:525-549 | conversely, a prompt whose item has every selected tag and which passes the favorites and query tests is always shown, under its original-index key |
| CatalogFilter.NoFiltersKeepsEverything | src/AIWritingDashboard.tsx:525-549 | with a blank query, no tags and favorites-only off, every item that has prompts is shown with all of them |
| LegacyFilter.BlankQueryIsIdentity | AIWritingDashboard.tsx:381 | a blank or whitespace-only query returns the catalog unchanged |
| LegacyFilter.LegacySound | AIWritingDashboard.tsx:382-387 | with a non-blank query every shown item's joined title, description and prompts contains the trimmed query |
| LegacyFilter.LegacyOrderPreserving | AIWritingDashboard.tsx:383-388 | shown sections are catalog sections in catalog order, each with an order-preserving selection of its items kept whole |
| LegacyFilter.LegacyPruned | AIWritingDashboard.tsx:388 | with a non-blank query no shown section is empty |
| LegacyFilter.LegacyComplete | AIWritingDashboard.tsx:385-388 | an item whose joined text contains the trimmed query is shown under its own section |
| Toggle.Toggle | src/AIWritingDashboard.tsx:479-482 | an absent element is appended; a present one is removed entirely; every other element keeps its membership |
| Toggle.TogglePresent | src/AIWritingDashboard.tsx:481 | removing a present element drops all its copies and keeps every other element's multiplicity, in order |
| Toggle.ToggleTwiceMembership | src/AIWritingDashboard.tsx:479-482 | toggling the same element twice restores membership |
| Toggle.ToggleTwiceAbsent | src/AIWritingDashboard.tsx:479-482 | toggling an absent element twice restores the exact list |
| Toggle.ToggleTwicePresent | src/AIWritingDashboard.tsx:479-482 | toggling a present element twice moves a single copy of it to the end |
| Toggle.ToggleTwiceReorders | src/AIWritingDashboard.tsx:479-482 | so the list itself is not restored: `["a","b"]` toggled twice on "a" is `["b","a"]` |
| Toggle.ToggleNoDuplicates | src/AIWritingDashboard.tsx:479-482 | toggling a duplicate-free list keeps it duplicate-free |
| Dashboard.ToggleFav | src/AIWritingDashboard.tsx:479-482 | a favorite toggle flips membership of that key and changes nothing else in the state |
| Dashboard.ToggleTag | src/AIWritingDashboard.tsx:618-621 | a tag toggle flips membership of that tag and changes nothing else in the state |
| Dashboard.ToggleSection | src/AIWritingDashboard.tsx:400 | a header click opens the section exactly when it was not the open one, collapses all exactly when it was, and changes nothing else |
| Dashboard.ToggleSectionTwice | src/AIWritingDashboard.tsx:400 | two clicks on one header restore the state when that section or none was open, and leave all collapsed when another was open |
| Dashboard.KeyDown | src/AIWritingDashboard.tsx:597-616 | inside an input or text area nothing happens; otherwise "/" focuses search, "f" flips favorites-only, "?" opens help, each suppressing the default; no other field changes |
| Dashboard.FavKeyWithoutFavoritesHidesAll | src/AIWritingDashboard.tsx:605-608 | pressing "f" with no favorites saved leaves the view empty |
| Dashboard.FavKeyTwice | src/AIWritingDashboard.tsx:605-608 | pressing "f" twice restores the state |
| Dashboard.ColorIndex | src/AIWritingDashboard.tsx:488 | the colour's position in the options, or -1 exactly when it is not one of them |
| Dashboard.RotationStart | src/AIWritingDashboard.tsx:488-489 | the rotation starts at the chosen colour, or at the last option for an unknown colour |
| Dashboard.ColorOrder | src/AIWritingDashboard.tsx:487-490 | the slice-and-concatenate result is the options rotated to start at that position, and it starts with a known chosen colour |
| Dashboard.SectionColor | src/AIWritingDashboard.tsx:722 | section i gets option (start + i) mod 4 of the fixed options, counting from the rotation start; so every section gets an option and sections 0, 4, 8, … get a known chosen colour |
| Dashboard.RotateIsPermutation | src/AIWritingDashboard.tsx:489 | the slice-and-concatenate rotation is a permutation: it holds every element exactly as often as the input does |
| Dashboard.NeighboursDiffer | src/AIWritingDashboard.tsx:722 | neighbouring sections never get the same colour |
| Dashboard.UnknownColorLeadsWithLast | src/AIWritingDashboard.tsx:487-490 | an unknown stored colour gives the order amber, emerald, sky, fuchsia |
| UrlCodec.Serialize | src/AIWritingDashboard.tsx:515-520 | exactly the non-null, non-empty or true fields are written: the section id, the query, the comma-joined tags, and `fav=1` |
| UrlCodec.ParseTags | src/AIWritingDashboard.tsx:511 | the parsed tags are the comma-separated pieces in their order, with every empty piece dropped and every other piece kept as often as it occurs; none is empty or holds a comma |
| UrlCodec.Hydrate | src/AIWritingDashboard.tsx:503-513 | each field is overwritten only when its parameter is present and non-empty (the tags by the parsed pieces of the parameter); favorites-only is switched on only by exactly "1" |
| UrlCodec.Load | src/AIWritingDashboard.tsx:473-476 | a loaded state always has a non-empty expanded section and well-formed tags |
| UrlCodec.ParseJoinedTags | src/AIWritingDashboard.tsx:511 | comma-joining non-empty comma-free tags and parsing them back gives the same tags |
| UrlCodec.RoundTrip | src/AIWritingDashboard.tsx:503-523 | reloading the URL written for a state with an expanded section and well-formed tags gives that state back |
| UrlCodec.LoadIsStable | src/AIWritingDashboard.tsx:503-523 | every loaded state is a fixed point of write-then-reload |
| UrlCodec.CollapsedComesBackDefault | src/AIWritingDashboard.tsx:473 | a collapsed view is not mirrored: reloading re-expands "lvl1" and restores every other field |
| UrlCodec.CommaInTagSplits | src/AIWritingDashboard.tsx:511 | tags are not escaped: a tag "a,b" comes back as the two tags "a" and "b" |
| Export.ParseIndex | src/AIWritingDashboard.tsx:576 | a blank index reads as 0, a digit string (after trimming) reads as its value, and exactly the other texts read as no index |
| Export.Resolve | src/AIWritingDashboard.tsx:572-577 | a resolved favorite keeps its key, takes section and item from the key's first two "::"-pieces, and holds the non-empty text at the parsed index of the first matching item of the first matching section |
| Export.ResolveComplete | src/AIWritingDashboard.tsx:572-577 | conversely, a key whose pieces name such a first section, first item and in-range non-empty prompt resolves to exactly that prompt |
| Export.MissingItemIsStale | src/AIWritingDashboard.tsx:574-577 | the key of a section or item no longer in the catalog (deleted or renamed) does not resolve |
| Export.ExportJson | src/AIWritingDashboard.tsx:567-580 | the favorites list is exported verbatim; the prompts are exactly the favorites that resolve, each listed once per copy of its key in the favorites; stale keys are left out of them |
| Export.ExportOrder | src/AIWritingDashboard.tsx:571-579 | resolved prompts follow the order of the favorites they come from |
| Export.ResolveOwnKey | src/AIWritingDashboard.tsx:573-577 | the key of an existing non-empty prompt resolves to that prompt, when its ids are key-safe and it is the first section and item with those names |
| Export.StaleKeyKeptRaw | src/AIWritingDashboard.tsx:568-579 | a favorite that no longer resolves stays in the raw list but has no resolved prompt |
| Export.Pad2 | src/AIWritingDashboard.tsx:585 | a number below 100 padded to two characters is two digits that read back as the number |
| Export.StampDecodes | src/AIWritingDashboard.tsx:585 | for a four-digit year the stamp is eight digits that read back as year, 1-based month and day |
| Export.FileNamesSortByDate | src/AIWritingDashboard.tsx:585-589 | for four-digit years, an earlier date gives an export file name that sorts earlier as a string |
| Strings.IncludesIffOccurs | src/AIWritingDashboard.tsx:538 | the substring test, computed by a leftmost search, holds exactly when the query occurs at some position, and always holds for the empty query |
| Strings.Trim | src/AIWritingDashboard.tsx:526 | the trimmed text is empty exactly for all-whitespace input, otherwise starts and ends with non-whitespace, and is the input minus whitespace at both ends |
| Strings.Split | src/AIWritingDashboard.tsx:573 | the pieces joined by the separator give the input back, none contains the separator, and every cut is at the leftmost occurrence |
| Strings.SplitJoin | src/AIWritingDashboard.tsx:573 | joining pieces that each end cleanly before the separator and splitting again gives the pieces back |

## Left out

- Rendering, animation, icons, the print view, the toast timer, clipboard
  copy and the share button are presentation or browser I/O, not state logic.
- `localStorage` persistence is left out: favorites and colour are plain
  inputs to the model, and a stored value that fails to parse is not modelled.
- The browser's URL encoding (`URLSearchParams` percent-encoding,
  `history.replaceState`) is left out; query parameters are a map from name
  to decoded value.
- The effects run order on first render (the write-back effect also runs
  once before hydration's state updates land) is not modelled; `Load` is the
  state after hydration.
- The catalog payload itself and the `allTags` chip list are data, not logic;
  the model quantifies over every catalog.
- The `Date` object is left out: the stamp takes year, month index and day as
  integers.
- The `Blob`, object URL and download anchor are browser I/O; the model
  stops at the export document and the file name.
- The settings panel (theme, colour picker) only writes stored values; the
  colour it writes is an input of `Dashboard.ColorOrder`.
- Export.ParseIndex: `Number` also accepts a sign, a fraction, an exponent,
  hexadecimal (`0x`), binary (`0b`) and octal (`0o`) prefixes, and "Infinity"
  (so `Number("0b1")` is 1); the model reads only blank or digit-only index
  text and treats every other form as unresolvable. Keys the dashboard
  writes always use plain digits.
- Export.StampDecodes: stated for four-digit years only; other years are
  rendered by `${year}` at their natural width, which the model computes but
  does not reason about.
- CatalogFilter.NoFiltersKeepsEverything: stated for items with at least one
  prompt, because the code drops items without prompts even when no filter is
  active.
- An empty parameter value (`?q=`) is ignored by hydration just like an
  absent one, because the code tests truthiness; `UrlCodec.Hydrate` follows
  the code.
- A found item without a `prompts` list, or a found section without an
  `items` list, makes the export throw a `TypeError`; in the model every item
  and section carries its lists, so that failure is not modelled.
- Strings are sequences of Unicode scalar values, whereas JavaScript strings
  are UTF-16 code units. `includes`, `trim` and `split` agree on well-formed
  text, and the only string order used is on ASCII digits, but lone
  surrogates and code-unit lengths are not modelled.
