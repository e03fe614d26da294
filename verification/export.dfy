/** The JSON export (src/AIWritingDashboard.tsx:566-591): favorite keys
    resolved back to prompt texts against the catalog, and the date-stamped
    file name. The file download itself is not modelled. */
module Export {
  import opened Options
  import opened Seqs
  import opened Strings
  import opened Decimal
  import opened Catalog

  /** One resolved favorite: its key, the section id and item title read from
      the key, and the prompt text found in the catalog. */
  datatype ResolvedPrompt = ResolvedPrompt(id: string, section: string, item: string, text: string)

  /** The exported document. */
  datatype ExportDoc = ExportDoc(favorites: seq<string>, query: string, tags: seq<string>, prompts: seq<ResolvedPrompt>)

  /** `Number(s)` used as an array index: surrounding whitespace is ignored,
      an empty string reads as 0, and a run of decimal digits (leading zeros
      allowed) reads as its value; anything else reads as no index. */
  function ParseIndex(s: string): (r: Option<nat>)
    ensures AllWhitespace(s) ==> r == Some(0)
    ensures AllDigits(Trim(s)) ==> r == Some(Value(Trim(s)))
    ensures r.None? <==> !AllDigits(Trim(s))
  {
    var t := Trim(s);
    if t == [] then Some(0)
    else if AllDigits(t) then Some(Value(t))
    else None
  }

  /** Prompt `pi` of item `ii` of section `si` is the text `e` names. */
  ghost predicate LocatedAt(cat: Catalog, e: ResolvedPrompt, si: int, ii: int, pi: int) {
    && 0 <= si < |cat| && cat[si].id == e.section
    && 0 <= ii < |cat[si].items| && cat[si].items[ii].title == e.item
    && 0 <= pi < |cat[si].items[ii].prompts| && cat[si].items[ii].prompts[pi] == e.text
  }

  /** `e` is what key `id` names: its first three "::"-pieces are the section
      id, the item title and the index text; `si` is the first section with
      that id, `ii` the first item of it with that title, `pi` the parsed
      index, and the prompt there is the non-empty text of `e`. */
  ghost predicate ResolvesAt(cat: Catalog, id: string, e: ResolvedPrompt, si: int, ii: int, pi: int) {
    var parts := Split(id, KeySep);
    && |parts| >= 3
    && e.id == id && e.section == parts[0] && e.item == parts[1] && e.text != ""
    && LocatedAt(cat, e, si, ii, pi)
    && (forall j :: 0 <= j < si ==> cat[j].id != e.section)
    && (forall j :: 0 <= j < ii ==> cat[si].items[j].title != e.item)
    && ParseIndex(parts[2]) == Some(pi)
  }

  /** Resolve one favorite key: split it on "::", find the FIRST section with
      that id, the FIRST item of it with that title, then the prompt at the
      parsed index; a missing or empty text leaves the key unresolved. */
  function Resolve(cat: Catalog, id: string): (r: Option<ResolvedPrompt>)
    ensures r.Some? ==> r.value.id == id && r.value.text != ""
    ensures r.Some? ==> exists si, ii, pi :: ResolvesAt(cat, id, r.value, si, ii, pi)
  {
    var parts := Split(id, KeySep);
    if |parts| < 3 then None
    else
      var secId, itemTitle, idxStr := parts[0], parts[1], parts[2];
      match FindFirst(cat, (s: Section<string>) => s.id == secId)
      case None => None
      case Some(si) =>
        match FindFirst(cat[si].items, (it: Item<string>) => it.title == itemTitle)
        case None => None
        case Some(ii) =>
          var prompts := cat[si].items[ii].prompts;
          match ParseIndex(idxStr)
          case None => None
          case Some(n) =>
            if n < |prompts| && prompts[n] != "" then
              var e := ResolvedPrompt(id, secId, itemTitle, prompts[n]);
              assert ResolvesAt(cat, id, e, si, ii, n);
              Some(e)
            else None
  }

  /** How many times the export lists `e`: once per favorite key that resolves to it. */
  function Copies(cat: Catalog, favorites: seq<string>, e: ResolvedPrompt): nat {
    if Resolve(cat, e.id) == Some(e) then multiset(favorites)[e.id] else 0
  }

  /** The export: the raw favorites list verbatim, the query and tags, and the
      favorites that still resolve, in favorites order. */
  function ExportJson(cat: Catalog, favorites: seq<string>, q: string, tags: seq<string>): (r: ExportDoc)
    ensures r.favorites == favorites && r.query == q && r.tags == tags
    ensures forall e :: e in r.prompts ==> e.id in favorites && Resolve(cat, e.id) == Some(e)
    ensures forall k :: k in favorites && Resolve(cat, k).Some? ==> Resolve(cat, k).value in r.prompts
    ensures forall k, e :: k in favorites && Resolve(cat, k).None? && e in r.prompts ==> e.id != k
    ensures forall e :: multiset(r.prompts)[e] == Copies(cat, favorites, e)
  {
    var prompts := FilterMap(favorites, k => Resolve(cat, k));
    forall e: ResolvedPrompt
      ensures multiset(prompts)[e] == Copies(cat, favorites, e)
    {
      FilterMapCount(favorites, k => Resolve(cat, k), e.id, e);
    }
    ExportDoc(favorites, q, tags, prompts)
  }

  /** The resolved prompts follow the order of the favorites they come from. */
  lemma ExportOrder(cat: Catalog, favorites: seq<string>, q: string, tags: seq<string>)
    ensures Embeds(ExportJson(cat, favorites, q, tags).prompts, favorites,
                   (e: ResolvedPrompt, k: string) => Resolve(cat, k) == Some(e))
  {
    FilterMapEmbeds(favorites, k => Resolve(cat, k), (e: ResolvedPrompt, k: string) => Resolve(cat, k) == Some(e));
  }

  lemma DigitsNotWhitespace(s: string)
    requires AllDigits(s) && |s| > 0
    ensures Trim(s) == s
  {
    var t := Trim(s);
    var i :| TrimmedAt(s, t, i);
    assert !IsWhitespace(s[0]) && !IsWhitespace(s[|s| - 1]);
  }

  /** The key of an existing, non-empty prompt resolves to it, provided the
      section id and item title are key-safe and name the first section with
      that id and the first item of it with that title. */
  lemma ResolveOwnKey(cat: Catalog, si: nat, ii: nat, pi: nat)
    requires si < |cat| && ii < |cat[si].items| && pi < |cat[si].items[ii].prompts|
    requires KeySafe(cat[si].id) && KeySafe(cat[si].items[ii].title)
    requires forall j :: 0 <= j < si ==> cat[j].id != cat[si].id
    requires forall j :: 0 <= j < ii ==> cat[si].items[j].title != cat[si].items[ii].title
    requires cat[si].items[ii].prompts[pi] != ""
    ensures var s, it := cat[si], cat[si].items[ii];
      Resolve(cat, PromptKey(s.id, it.title, pi)) == Some(ResolvedPrompt(PromptKey(s.id, it.title, pi), s.id, it.title, it.prompts[pi]))
  {
    var s, it := cat[si], cat[si].items[ii];
    var key := PromptKey(s.id, it.title, pi);
    SplitPromptKey(s.id, it.title, pi);
    DigitsNotWhitespace(NatToString(pi));
    assert ParseIndex(NatToString(pi)) == Some(pi);
    var e := ResolvedPrompt(key, s.id, it.title, it.prompts[pi]);
    assert ResolvesAt(cat, key, e, si, ii, pi);
    ResolveComplete(cat, key, e, si, ii, pi);
  }

  /** Conversely, whatever a key names is what it resolves to. */
  lemma ResolveComplete(cat: Catalog, id: string, e: ResolvedPrompt, si: int, ii: int, pi: int)
    requires ResolvesAt(cat, id, e, si, ii, pi)
    ensures Resolve(cat, id) == Some(e)
  {
    var parts := Split(id, KeySep);
    FindFirstAt(cat, (s: Section<string>) => s.id == parts[0], si);
    FindFirstAt(cat[si].items, (it: Item<string>) => it.title == parts[1], ii);
  }

  /** A favorite whose section or item has gone from the catalog (deleted or
      renamed) no longer resolves. */
  lemma MissingItemIsStale(cat: Catalog, secId: string, title: string, idx: nat)
    requires KeySafe(secId) && KeySafe(title)
    requires forall si, ii :: 0 <= si < |cat| && 0 <= ii < |cat[si].items| ==>
      cat[si].id != secId || cat[si].items[ii].title != title
    ensures Resolve(cat, PromptKey(secId, title, idx)).None?
  {
    SplitPromptKey(secId, title, idx);
  }

  /** Stale keys: a favorite that no longer resolves is dropped from the
      resolved prompts but stays, verbatim, in the raw favorites list. */
  lemma StaleKeyKeptRaw(cat: Catalog, favorites: seq<string>, q: string, tags: seq<string>, k: string)
    requires k in favorites && Resolve(cat, k).None?
    ensures var doc := ExportJson(cat, favorites, q, tags);
      k in doc.favorites && forall e :: e in doc.prompts ==> e.id != k
  {
  }

  /** The characters `lo..hi` of `s` are decimal digits spelling `v`. */
  predicate ReadsAs(s: string, lo: nat, hi: nat, v: nat)
  {
    lo <= hi <= |s| && AllDigits(s[lo..hi]) && Value(s[lo..hi]) == v
  }

  /** The date stamp `YYYYMMDD`: the full year, then month (1-based) and day
      padded to two digits. `month0` and `day` are `getMonth()` and
      `getDate()`, so they are always in range. */
  function Ymd(year: int, month0: int, day: int): string
    requires 0 <= month0 < 12 && 1 <= day <= 31
  {
    IntToString(year) + Pad2(month0 + 1) + Pad2(day)
  }

  /** `String(n).padStart(2, "0")` for `n` below one hundred. */
  function Pad2(n: nat): (r: string)
    requires n < 100
    ensures |r| == 2 && AllDigits(r) && Value(r) == n
  {
    TwoDigits(n);
    PadStart(NatToString(n), 2, '0')
  }

  /** For a four-digit year the stamp is eight digits that read back as the
      year, the 1-based month and the day. */
  lemma StampDecodes(year: int, month0: int, day: int)
    requires 1000 <= year <= 9999 && 0 <= month0 < 12 && 1 <= day <= 31
    ensures var r := Ymd(year, month0, day);
      && |r| == 8
      && ReadsAs(r, 0, 4, year) && ReadsAs(r, 4, 6, month0 + 1) && ReadsAs(r, 6, 8, day)
      && ReadsAs(r, 0, 8, year * 10000 + (month0 + 1) * 100 + day)
  {
    FourDigits(year);
    StampDigits(year, month0 + 1, day, IntToString(year), Pad2(month0 + 1), Pad2(day));
  }

  /** Four digits of year, then two of month and two of day. */
  lemma StampDigits(year: nat, month: nat, day: nat, y: string, m: string, d: string)
    requires |y| == 4 && |m| == 2 && |d| == 2
    requires AllDigits(y) && AllDigits(m) && AllDigits(d)
    requires Value(y) == year && Value(m) == month && Value(d) == day
    ensures var r := y + m + d;
      && |r| == 8
      && ReadsAs(r, 0, 4, year) && ReadsAs(r, 4, 6, month) && ReadsAs(r, 6, 8, day)
      && ReadsAs(r, 0, 8, year * 10000 + month * 100 + day)
  {
    var r := y + m + d;
    assert r[0..4] == y && r[4..6] == m && r[6..8] == d && r[0..8] == r;
    StampValue(year, month, day, y, m, d);
  }

  lemma StampValue(year: nat, month: nat, day: nat, y: string, m: string, d: string)
    requires AllDigits(y) && AllDigits(m) && AllDigits(d) && |m| == 2 && |d| == 2
    requires Value(y) == year && Value(m) == month && Value(d) == day
    ensures AllDigits(y + m + d) && Value(y + m + d) == year * 10000 + month * 100 + day
  {
    assert Pow10(2) == 100;
    ValueAppend(y, m);
    var vym := Value(y + m);
    ValueAppend(y + m, d);
    PlaceValues(year, month, day, vym, Value(y + m + d));
  }

  lemma PlaceValues(year: int, month: int, day: int, vym: int, v: int)
    requires vym == year * 100 + month && v == vym * 100 + day
    ensures v == year * 10000 + month * 100 + day
  {
  }

  lemma {:induction false} Pow10Mono(a: nat, b: nat)
    requires a <= b
    ensures Pow10(a) <= Pow10(b)
    decreases b
  {
    if a < b {
      Pow10Mono(a, b - 1);
    }
  }

  lemma FourDigits(n: nat)
    requires 1000 <= n <= 9999
    ensures var y := IntToString(n); |y| == 4 && AllDigits(y) && Value(y) == n
  {
    var k := |NatToString(n)|;
    assert Pow10(3) == 1000 && Pow10(4) == 10000;
    if k < 4 {
      Pow10Mono(k, 3);
    } else if k > 4 {
      Pow10Mono(4, k - 1);
    }
  }

  lemma TwoDigits(n: nat)
    requires n <= 99
    ensures var p := PadStart(NatToString(n), 2, '0');
      |p| == 2 && AllDigits(p) && Value(p) == n
  {
    var k := |NatToString(n)|;
    assert Pow10(2) == 100;
    if k > 2 {
      Pow10Mono(2, k - 1);
    }
    ZeroPadValue(NatToString(n), 2);
  }

  /** `aiw-export-${ymd}.json`. */
  function ExportFileName(year: int, month0: int, day: int): string
    requires 0 <= month0 < 12 && 1 <= day <= 31
  {
    "aiw-export-" + Ymd(year, month0, day) + ".json"
  }

  /** Chronologically earlier dates give file names that sort earlier, for
      four-digit years. */
  lemma FileNamesSortByDate(y1: int, m1: int, d1: int, y2: int, m2: int, d2: int)
    requires 1000 <= y1 <= 9999 && 0 <= m1 < 12 && 1 <= d1 <= 31
    requires 1000 <= y2 <= 9999 && 0 <= m2 < 12 && 1 <= d2 <= 31
    requires y1 < y2 || (y1 == y2 && (m1 < m2 || (m1 == m2 && d1 < d2)))
    ensures LexLess(ExportFileName(y1, m1, d1), ExportFileName(y2, m2, d2))
  {
    StampDecodes(y1, m1, d1);
    StampDecodes(y2, m2, d2);
    DateNumberOrder(y1, m1 + 1, d1, y2, m2 + 1, d2);
    StampsSort(Ymd(y1, m1, d1), Ymd(y2, m2, d2),
      y1 * 10000 + (m1 + 1) * 100 + d1, y2 * 10000 + (m2 + 1) * 100 + d2);
  }

  /** Eight-digit stamps in numeric order give file names in string order. */
  lemma StampsSort(a: string, b: string, va: nat, vb: nat)
    requires |a| == 8 && |b| == 8 && ReadsAs(a, 0, 8, va) && ReadsAs(b, 0, 8, vb) && va < vb
    ensures LexLess("aiw-export-" + a + ".json", "aiw-export-" + b + ".json")
  {
    assert a[0..8] == a && b[0..8] == b;
    LexLessDigits(a, b);
    LexLessFrame("aiw-export-", a, b, ".json", ".json");
  }

  /** `YYYYMMDD` read as a number orders dates chronologically. */
  lemma DateNumberOrder(y1: int, m1: int, d1: int, y2: int, m2: int, d2: int)
    requires 1 <= m1 <= 12 && 1 <= d1 <= 31 && 1 <= m2 <= 12 && 1 <= d2 <= 31
    requires y1 < y2 || (y1 == y2 && (m1 < m2 || (m1 == m2 && d1 < d2)))
    ensures y1 * 10000 + m1 * 100 + d1 < y2 * 10000 + m2 * 100 + d2
  {
    if y1 < y2 {
      assert y1 * 10000 + 10000 <= y2 * 10000;
    }
  }
}
