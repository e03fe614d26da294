/** The address-bar mirror of the transient view state
    (src/AIWritingDashboard.tsx:503-523, defaults at :473-476). Query
    parameters are an abstract map from name to (decoded) value. */
module UrlCodec {
  import opened Options
  import opened Seqs
  import opened Strings

  /** The view state mirrored in the URL: the expanded section (`null` when
      all are collapsed), the raw query text, the selected tags and the
      favorites-only flag. */
  datatype UrlState = UrlState(expandedId: Option<string>, q: string, tags: seq<string>, showFavs: bool)

  type Params = map<string, string>

  /** The initial state: level 1 expanded, no query, no tags, all prompts. */
  const DefaultState: UrlState := UrlState(Some("lvl1"), "", [], false)

  const SectionParam: string := "section"
  const QueryParam: string := "q"
  const TagsParam: string := "tags"
  const FavParam: string := "fav"

  /** The parameters written for a state: a field that is `null`, empty or
      false is omitted; tags are comma-joined; favorites-only is "1". */
  function Serialize(s: UrlState): (p: Params)
    ensures p.Keys <= {SectionParam, QueryParam, TagsParam, FavParam}
    ensures SectionParam in p <==> s.expandedId.Some? && s.expandedId.value != ""
    ensures SectionParam in p ==> p[SectionParam] == s.expandedId.value
    ensures QueryParam in p <==> s.q != ""
    ensures QueryParam in p ==> p[QueryParam] == s.q
    ensures TagsParam in p <==> |s.tags| > 0
    ensures TagsParam in p ==> p[TagsParam] == Join(s.tags, ",")
    ensures FavParam in p <==> s.showFavs
    ensures FavParam in p ==> p[FavParam] == "1"
  {
    var p0: Params := map[];
    var p1 := if s.expandedId.Some? && s.expandedId.value != "" then p0[SectionParam := s.expandedId.value] else p0;
    var p2 := if s.q != "" then p1[QueryParam := s.q] else p1;
    var p3 := if |s.tags| > 0 then p2[TagsParam := Join(s.tags, ",")] else p2;
    if s.showFavs then p3[FavParam := "1"] else p3
  }

  /** A parameter the hydration step applies: present and non-empty. */
  predicate Given(p: Params, name: string) {
    name in p && p[name] != ""
  }

  /** `tags.split(",").filter(Boolean)`. */
  function ParseTags(v: string): (r: seq<string>)
    ensures forall t :: t in r ==> WellFormedTag(t)
    ensures forall t :: t in r <==> t in Split(v, ",") && t != ""
    ensures IsSubseq(r, Split(v, ","))
    ensures multiset(r) == multiset(Split(v, ","))["" := 0]
  {
    var r := Filter(Split(v, ","), t => t != "");
    assert forall t :: t in r ==> t in Split(v, ",") && t != "";
    forall t | t in r
      ensures ',' !in t
    {
      var i :| 0 <= i < |Split(v, ",")| && Split(v, ",")[i] == t;
      CommaAbsent(t);
    }
    FilterIsSubseq(Split(v, ","), t => t != "");
    DropsOnlyEmpties(Split(v, ","));
    r
  }

  /** Dropping the empty pieces keeps every copy of every other piece. */
  lemma DropsOnlyEmpties(pieces: seq<string>)
    ensures multiset(Filter(pieces, t => t != "")) == multiset(pieces)["" := 0]
  {
    var kept := Filter(pieces, t => t != "");
    forall w
      ensures multiset(kept)[w] == multiset(pieces)["" := 0][w]
    {
      FilterCount(pieces, t => t != "", w);
    }
  }

  lemma CommaAbsent(t: string)
    requires IndexOf(t, ",").None?
    ensures ',' !in t
  {
    forall i | 0 <= i < |t|
      ensures t[i] != ','
    {
      assert t[i..i + 1] == [t[i]];
      assert !OccursAt(t, ",", i);
    }
  }

  /** A tag the comma-joined encoding carries intact. */
  predicate WellFormedTag(t: string) {
    t != "" && ',' !in t
  }

  /** Load-time hydration over `init`: each field is overwritten only when its
      parameter is present and non-empty; favorites-only is switched on only
      by the exact value "1". */
  function Hydrate(p: Params, init: UrlState): (r: UrlState)
    ensures !Given(p, SectionParam) ==> r.expandedId == init.expandedId
    ensures Given(p, SectionParam) ==> r.expandedId == Some(p[SectionParam])
    ensures !Given(p, QueryParam) ==> r.q == init.q
    ensures Given(p, QueryParam) ==> r.q == p[QueryParam]
    ensures !Given(p, TagsParam) ==> r.tags == init.tags
    ensures Given(p, TagsParam) ==> r.tags == ParseTags(p[TagsParam])
    ensures Given(p, TagsParam) ==> forall t :: t in r.tags ==> WellFormedTag(t)
    ensures r.showFavs <==> init.showFavs || (FavParam in p && p[FavParam] == "1")
  {
    var s1 := if Given(p, SectionParam) then init.(expandedId := Some(p[SectionParam])) else init;
    var s2 := if Given(p, QueryParam) then s1.(q := p[QueryParam]) else s1;
    var s3 := if Given(p, TagsParam) then s2.(tags := ParseTags(p[TagsParam])) else s2;
    if FavParam in p && p[FavParam] == "1" then s3.(showFavs := true) else s3
  }

  /** The state a page load starts from. */
  function Load(p: Params): (r: UrlState)
    ensures RoundTrips(r)
  {
    Hydrate(p, DefaultState)
  }

  /** The states that survive serialisation and reloading unchanged. */
  predicate RoundTrips(s: UrlState) {
    && s.expandedId.Some? && s.expandedId.value != ""
    && forall t :: t in s.tags ==> WellFormedTag(t)
  }

  /** Comma-joining well-formed tags and parsing them back is the identity. */
  lemma ParseJoinedTags(tags: seq<string>)
    requires |tags| > 0 && forall t :: t in tags ==> WellFormedTag(t)
    ensures ParseTags(Join(tags, ",")) == tags
  {
    forall i | 0 <= i < |tags|
      ensures SeparatesCleanly(tags[i], ",") && IndexOf(tags[i], ",").None? && tags[i] != ""
    {
      assert tags[i] in tags;
      CommaFreeSeparates(tags[i]);
    }
    SplitJoin(tags, ",");
    var parts := Split(Join(tags, ","), ",");
    assert parts == tags;
    FilterKeepsAll(parts, t => t != "");
  }

  /** Round trip: reloading the URL written for a state gives the state back,
      for a non-empty expanded section and well-formed tags. */
  lemma {:induction false} RoundTrip(s: UrlState)
    requires RoundTrips(s)
    ensures Load(Serialize(s)) == s
  {
    if |s.tags| > 0 {
      ParseJoinedTags(s.tags);
    }
  }

  /** Every loaded state is a fixed point of write-then-reload. */
  lemma LoadIsStable(p: Params)
    ensures Load(Serialize(Load(p))) == Load(p)
  {
    RoundTrip(Load(p));
  }

  /** A collapsed view (`expandedId` null) is not mirrored: reloading expands
      the default section again. The other fields still come back. */
  lemma CollapsedComesBackDefault(s: UrlState)
    requires s.expandedId.None?
    requires forall t :: t in s.tags ==> WellFormedTag(t)
    ensures Load(Serialize(s)) == s.(expandedId := Some("lvl1"))
  {
    RoundTrip(s.(expandedId := Some("lvl1")));
  }

  /** Tags are not escaped: a tag holding a comma comes back as two tags. */
  lemma CommaInTagSplits()
    ensures Load(Serialize(UrlState(Some("lvl1"), "", ["a,b"], false))).tags == ["a", "b"]
  {
    var v := "a,b";
    assert v[..1] == "a" && v[2..] == "b";
    assert IndexOf(v, ",") == Some(1);
    assert IndexOf("b", ",").None?;
    assert Split(v, ",") == ["a", "b"];
    assert Filter(["a", "b"][1..], t => t != "") == ["b"];
  }
}
