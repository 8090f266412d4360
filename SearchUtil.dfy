/** `SearchUtil`: metadata checks and filtering against the dimension
    whitelist, the exclusion of hand-picked related content, and the
    synthesis of the related-content Solr query. */
module SearchUtil {
  import opened Wrappers
  import opened Types
  import opened WithoutContentIdDecorator
  import opened QueryDecorators
  import opened SiteSettingsPolicy

  /** The name `IndexFields.PUBLISHING_DATE` prints as. */
  const PubDateField: string := "publishingDate"
  /** Recency boost: reciprocal decay over the age in milliseconds, anchored
      to the current hour. */
  const BoostFunction: string := "recip(ms(NOW/HOUR, " + PubDateField + "),6.43e-11,1,1)"
  /** Flat boost for content published within the last year. */
  const BoostQuery: string := PubDateField + ":[NOW/DAY-1YEAR TO NOW/DAY]"

  // ---------------------------------------------------------------------
  // hasMetadata

  /** `hasMetadata`: whether some dimension carries at least one entity. */
  function HasMetadata(m: Metadata): (r: bool)
    ensures r <==> exists i :: 0 <= i < |m| && |m[i].entities| > 0
  {
    if m == [] then false
    else if |m[0].entities| > 0 then true
    else
      var rest := HasMetadata(m[1..]);
      assert forall i :: 1 <= i < |m| ==> m[i] == m[1..][i - 1];
      rest
  }

  // ---------------------------------------------------------------------
  // excludeRelated

  /** The entries of a content list that may be null. */
  function ListIds(list: Option<seq<ContentId>>): seq<ContentId> {
    match list
    case None => []
    case Some(ids) => ids
  }

  /** The ids `excludeRelated` excludes: the "related" list, then the
      "autorelated" list; none when reading either list throws. */
  function RelatedIds(related: Result<Option<seq<ContentId>>>, autorelated: Result<Option<seq<ContentId>>>): seq<ContentId> {
    if related.Err? || autorelated.Err? then []
    else ListIds(related.value) + ListIds(autorelated.value)
  }

  /** The decorators `excludeRelated` adds: one `WithoutContentId` over all
      related ids, or nothing when there are none. */
  function RelatedExclusion(related: Result<Option<seq<ContentId>>>, autorelated: Result<Option<seq<ContentId>>>): seq<Decorator> {
    var ids := RelatedIds(related, autorelated);
    if ids == [] then [] else [FromContentIds(Some(ids))]
  }

  /** Adding the related exclusion to a chain makes the decorated query
      exclude, after whatever the chain excluded, exactly the "related" ids
      followed by the "autorelated" ids. */
  lemma RelatedExclusionExcludes(chain: seq<Decorator>, related: Result<Option<seq<ContentId>>>,
                                 autorelated: Result<Option<seq<ContentId>>>, q: Query, custom: CustomDecorate)
    ensures ExcludedIdStrings(DecorateAll(chain + RelatedExclusion(related, autorelated), q, custom).filters)
         == ExcludedIdStrings(DecorateAll(chain, q, custom).filters) + IdStrings(RelatedIds(related, autorelated))
  {
    var ids := RelatedIds(related, autorelated);
    var base := DecorateAll(chain, q, custom);
    DecorateAllAppend(chain, RelatedExclusion(related, autorelated), q, custom);
    if ids == [] {
      assert chain + [] == chain;
      assert ExcludedIdStrings(base.filters) + [] == ExcludedIdStrings(base.filters);
    } else {
      assert DecorateAll([FromContentIds(Some(ids))], base, custom) == base.(filters := base.filters + ExclusionFilters(ids));
      ExcludedIdStringsAppend(base.filters, ExclusionFilters(ids));
    }
  }

  /** `excludeRelated`: copies the "related" and then the "autorelated" list
      entries into one id list and, when it is not empty, adds one
      `WithoutContentId` decorator over it to the chain; a failure reading
      either list leaves the chain as it was. */
  method ExcludeRelated(related: Result<Option<seq<ContentId>>>, autorelated: Result<Option<seq<ContentId>>>,
                        decorators: seq<Decorator>) returns (r: seq<Decorator>)
    ensures r == decorators + RelatedExclusion(related, autorelated)
    ensures related.Err? || autorelated.Err? ==> r == decorators
    ensures |r| <= |decorators| + 1
  {
    var ids: seq<ContentId> := [];
    if related.Err? {
      return decorators;
    }
    if related.value.Some? && |related.value.value| > 0 {
      var list := related.value.value;
      var idx := 0;
      while idx < |list|
        invariant 0 <= idx <= |list|
        invariant ids == list[..idx]
      {
        ids := ids + [list[idx]];
        idx := idx + 1;
      }
      assert list[..idx] == list;
    }
    var fromRelated := ids;
    if autorelated.Err? {
      return decorators;
    }
    if autorelated.value.Some? && |autorelated.value.value| > 0 {
      var list := autorelated.value.value;
      var idx := 0;
      while idx < |list|
        invariant 0 <= idx <= |list|
        invariant ids == fromRelated + list[..idx]
      {
        ids := ids + [list[idx]];
        idx := idx + 1;
      }
      assert list[..idx] == list;
    }
    assert ids == RelatedIds(related, autorelated);
    if |ids| > 0 {
      r := decorators + [FromContentIds(Some(ids))];
    } else {
      r := decorators;
    }
  }

  // ---------------------------------------------------------------------
  // filterMetadata

  /** `from`: the dimension of a category-dimension policy, none for any
      other policy. */
  function DimensionOf(p: Policy): Option<Dimension> {
    if p.CategoryDimensionPolicy? then Some(p.dimension) else None
  }

  /** The whitelist dimensions: each whitelist entry's policy, looked up in
      list order, converted when it is a category-dimension policy and
      skipped otherwise; a failing lookup throws. */
  function ConfiguredDimensions(whitelist: seq<ContentId>, policyOf: PolicyLookup): Result<seq<Dimension>> {
    if whitelist == [] then Ok([])
    else
      match ConfiguredDimensions(whitelist[..|whitelist| - 1], policyOf)
      case Err(e) => Err(e)
      case Ok(ds) =>
        match policyOf(Plain(whitelist[|whitelist| - 1]))
        case Err(e) => Err(e)
        case Ok(p) => Ok(match DimensionOf(p) case Some(d) => ds + [d] case None => ds)
  }

  lemma {:induction false} ConfiguredDimensionsPrefixFailure(whitelist: seq<ContentId>, k: nat, policyOf: PolicyLookup)
    requires k <= |whitelist| && ConfiguredDimensions(whitelist[..k], policyOf).Err?
    ensures ConfiguredDimensions(whitelist, policyOf) == ConfiguredDimensions(whitelist[..k], policyOf)
    decreases |whitelist| - k
  {
    if k < |whitelist| {
      var prefix := whitelist[..|whitelist| - 1];
      assert prefix[..k] == whitelist[..k];
      ConfiguredDimensionsPrefixFailure(prefix, k, policyOf);
    } else {
      assert whitelist[..k] == whitelist;
    }
  }

  /** Resolving the whitelist fails exactly when some entry's policy lookup
      fails. */
  lemma {:induction false} ConfiguredDimensionsFailIff(whitelist: seq<ContentId>, policyOf: PolicyLookup)
    ensures ConfiguredDimensions(whitelist, policyOf).Err? <==>
      exists i :: 0 <= i < |whitelist| && policyOf(Plain(whitelist[i])).Err?
  {
    if whitelist != [] {
      var prefix := whitelist[..|whitelist| - 1];
      ConfiguredDimensionsFailIff(prefix, policyOf);
      if exists i :: 0 <= i < |prefix| && policyOf(Plain(prefix[i])).Err? {
        var i :| 0 <= i < |prefix| && policyOf(Plain(prefix[i])).Err?;
        assert whitelist[i] == prefix[i];
      }
      if exists i :: 0 <= i < |whitelist| && policyOf(Plain(whitelist[i])).Err? {
        var i :| 0 <= i < |whitelist| && policyOf(Plain(whitelist[i])).Err?;
        if i < |prefix| {
          assert prefix[i] == whitelist[i];
        }
      }
    }
  }

  /** When the whitelist resolves, its dimensions are exactly those of the
      entries whose policy is a category dimension: no more than one per
      entry, each taken from some entry, and every such entry's included. */
  lemma {:induction false} ConfiguredDimensionsExact(whitelist: seq<ContentId>, policyOf: PolicyLookup)
    requires ConfiguredDimensions(whitelist, policyOf).Ok?
    ensures var ds := ConfiguredDimensions(whitelist, policyOf).value;
      && |ds| <= |whitelist|
      && (forall d :: d in ds ==>
            exists i :: 0 <= i < |whitelist| && policyOf(Plain(whitelist[i])) == Ok(CategoryDimensionPolicy(d)))
      && (forall i, d :: 0 <= i < |whitelist| && policyOf(Plain(whitelist[i])) == Ok(CategoryDimensionPolicy(d)) ==>
            d in ds)
  {
    if whitelist != [] {
      var prefix := whitelist[..|whitelist| - 1];
      ConfiguredDimensionsExact(prefix, policyOf);
      var before := ConfiguredDimensions(prefix, policyOf).value;
      var ds := ConfiguredDimensions(whitelist, policyOf).value;
      forall d | d in ds
        ensures exists i :: 0 <= i < |whitelist| && policyOf(Plain(whitelist[i])) == Ok(CategoryDimensionPolicy(d))
      {
        if d in before {
          var i :| 0 <= i < |prefix| && policyOf(Plain(prefix[i])) == Ok(CategoryDimensionPolicy(d));
          assert whitelist[i] == prefix[i];
        } else {
          assert policyOf(Plain(whitelist[|whitelist| - 1])) == Ok(CategoryDimensionPolicy(d));
        }
      }
      forall i, d | 0 <= i < |whitelist| && policyOf(Plain(whitelist[i])) == Ok(CategoryDimensionPolicy(d))
        ensures d in ds
      {
        if i < |prefix| {
          assert prefix[i] == whitelist[i];
        }
      }
    }
  }

  /** `Metadata.getDimensionById`: the first dimension with that id. */
  function DimensionById(m: Metadata, id: string): (r: Option<Dimension>)
    ensures r.Some? ==> r.value in m && r.value.id == id
    ensures r.None? <==> forall i :: 0 <= i < |m| ==> m[i].id != id
  {
    if m == [] then None
    else if m[0].id == id then Some(m[0])
    else
      var r := DimensionById(m[1..], id);
      assert forall i :: 1 <= i < |m| ==> m[i] == m[1..][i - 1];
      r
  }

  /** For each configured dimension, in configured order, the metadata's
      dimension with the same id, when there is one. */
  function SelectDimensions(configured: seq<Dimension>, m: Metadata): Metadata {
    if configured == [] then []
    else
      SelectDimensions(configured[..|configured| - 1], m) +
      match DimensionById(m, configured[|configured| - 1].id)
      case Some(d) => [d]
      case None => []
  }

  /** The whitelist dimensions, when the whitelist can be read and every
      entry resolves. */
  function WhitelistDimensions(whitelist: Result<seq<ContentId>>, policyOf: PolicyLookup): Result<seq<Dimension>> {
    match whitelist
    case Err(e) => Err(e)
    case Ok(w) => ConfiguredDimensions(w, policyOf)
  }

  /** What `filterMetadata` returns: the input unchanged when the whitelist
      cannot be read, a lookup throws, or no entry of it resolves to a
      dimension, otherwise the selected dimensions. */
  function FilteredMetadata(whitelist: Result<seq<ContentId>>, policyOf: PolicyLookup, m: Metadata): Metadata {
    match WhitelistDimensions(whitelist, policyOf)
    case Err(_) => m
    case Ok(configured) => if configured == [] then m else SelectDimensions(configured, m)
  }

  /** `filterMetadata`: reads the whitelist, collects the configured
      dimensions, then builds the new metadata from the matching input
      dimensions in whitelist order. */
  method FilterMetadata(contentList: Result<seq<ContentId>>, policyOf: PolicyLookup, m: Metadata) returns (r: Metadata)
    ensures r == FilteredMetadata(contentList, policyOf, m)
    ensures WhitelistDimensions(contentList, policyOf).Err? ==> r == m
    ensures WhitelistDimensions(contentList, policyOf) == Ok([]) ==> r == m
  {
    if contentList.Err? {
      return m;
    }
    var whitelist := contentList.value;
    var configured: seq<Dimension> := [];
    var idx := 0;
    while idx < |whitelist|
      invariant 0 <= idx <= |whitelist|
      invariant ConfiguredDimensions(whitelist[..idx], policyOf) == Ok(configured)
    {
      assert whitelist[..idx + 1][..idx] == whitelist[..idx];
      var policy := policyOf(Plain(whitelist[idx]));
      if policy.Err? {
        ConfiguredDimensionsPrefixFailure(whitelist, idx + 1, policyOf);
        return m;
      }
      var dimension := DimensionOf(policy.value);
      idx := idx + 1;
      if dimension.None? {
        continue;
      }
      configured := configured + [dimension.value];
    }
    assert whitelist[..idx] == whitelist;
    if |configured| > 0 {
      var newMetadata: Metadata := [];
      var j := 0;
      while j < |configured|
        invariant 0 <= j <= |configured|
        invariant newMetadata == SelectDimensions(configured[..j], m)
      {
        assert configured[..j + 1][..j] == configured[..j];
        var dimension := DimensionById(m, configured[j].id);
        if dimension.Some? {
          newMetadata := newMetadata + [dimension.value];
        }
        j := j + 1;
      }
      assert configured[..j] == configured;
      return newMetadata;
    }
    return m;
  }

  /** Every selected dimension is an input dimension whose id some
      configured dimension has, and there is at most one per configured
      dimension. */
  lemma {:induction false} SelectDimensionsSound(configured: seq<Dimension>, m: Metadata)
    ensures |SelectDimensions(configured, m)| <= |configured|
    ensures forall d :: d in SelectDimensions(configured, m) ==>
      d in m && exists i :: 0 <= i < |configured| && configured[i].id == d.id
  {
    if configured != [] {
      var prefix := configured[..|configured| - 1];
      SelectDimensionsSound(prefix, m);
      forall d | d in SelectDimensions(configured, m)
        ensures d in m && exists i :: 0 <= i < |configured| && configured[i].id == d.id
      {
        if d in SelectDimensions(prefix, m) {
          var i :| 0 <= i < |prefix| && prefix[i].id == d.id;
          assert configured[i] == prefix[i];
        } else {
          assert configured[|configured| - 1].id == d.id;
        }
      }
    }
  }

  /** Every configured dimension that the input has is selected. */
  lemma {:induction false} SelectDimensionsComplete(configured: seq<Dimension>, m: Metadata)
    ensures forall i :: 0 <= i < |configured| && DimensionById(m, configured[i].id).Some? ==>
      DimensionById(m, configured[i].id).value in SelectDimensions(configured, m)
  {
    if configured != [] {
      var prefix := configured[..|configured| - 1];
      SelectDimensionsComplete(prefix, m);
      forall i | 0 <= i < |configured| && DimensionById(m, configured[i].id).Some?
        ensures DimensionById(m, configured[i].id).value in SelectDimensions(configured, m)
      {
        if i < |prefix| {
          assert prefix[i] == configured[i];
        }
      }
    }
  }

  lemma {:induction false} DimensionByIdAppend(a: Metadata, b: Metadata, id: string)
    ensures DimensionById(a + b, id) == if DimensionById(a, id).Some? then DimensionById(a, id) else DimensionById(b, id)
  {
    if a != [] {
      assert (a + b)[1..] == a[1..] + b;
      DimensionByIdAppend(a[1..], b, id);
    } else {
      assert a + b == b;
    }
  }

  /** Some configured dimension has the id. */
  predicate NamesId(configured: seq<Dimension>, id: string) {
    exists i :: 0 <= i < |configured| && configured[i].id == id
  }

  lemma NamesIdSnoc(prefix: seq<Dimension>, last: Dimension, id: string)
    ensures NamesId(prefix + [last], id) <==> NamesId(prefix, id) || last.id == id
  {
    var c := prefix + [last];
    if NamesId(prefix, id) {
      var i :| 0 <= i < |prefix| && prefix[i].id == id;
      assert c[i] == prefix[i];
    }
    if NamesId(c, id) {
      var i :| 0 <= i < |c| && c[i].id == id;
      if i < |prefix| {
        assert c[i] == prefix[i];
      }
    }
    assert c[|prefix|] == last;
  }

  /** The lookup in what one configured dimension adds to the selection. */
  lemma LookupAdded(m: Metadata, lastId: string, id: string)
    ensures var added: Metadata := match DimensionById(m, lastId) case Some(d) => [d] case None => [];
      DimensionById(added, id) == if lastId == id then DimensionById(m, id) else None
  {
  }

  /** Looking an id up in the selection finds what looking it up in the
      input finds when some configured dimension has that id, and nothing
      otherwise; the whitelist may name a dimension more than once. */
  lemma {:induction false} SelectDimensionsLookup(configured: seq<Dimension>, m: Metadata, id: string)
    ensures DimensionById(SelectDimensions(configured, m), id) ==
      if NamesId(configured, id) then DimensionById(m, id) else None
  {
    if configured != [] {
      var prefix := configured[..|configured| - 1];
      var last := configured[|configured| - 1];
      var before := SelectDimensions(prefix, m);
      var added: Metadata := match DimensionById(m, last.id) case Some(d) => [d] case None => [];
      assert SelectDimensions(configured, m) == before + added;
      assert configured == prefix + [last];
      NamesIdSnoc(prefix, last, id);
      SelectDimensionsLookup(prefix, m, id);
      DimensionByIdAppend(before, added, id);
      LookupAdded(m, last.id, id);
    }
  }

  /** Selections agree when the inputs agree on every configured id. */
  lemma {:induction false} SelectDimensionsCongruent(configured: seq<Dimension>, x: Metadata, y: Metadata)
    requires forall i :: 0 <= i < |configured| ==> DimensionById(x, configured[i].id) == DimensionById(y, configured[i].id)
    ensures SelectDimensions(configured, x) == SelectDimensions(configured, y)
  {
    if configured != [] {
      var prefix := configured[..|configured| - 1];
      forall i | 0 <= i < |prefix| ensures DimensionById(x, prefix[i].id) == DimensionById(y, prefix[i].id) {
        assert prefix[i] == configured[i];
      }
      SelectDimensionsCongruent(prefix, x, y);
    }
  }

  /** `filterMetadata` is idempotent: filtering already-filtered metadata
      against the same whitelist changes nothing. */
  lemma FilterMetadataIdempotent(whitelist: Result<seq<ContentId>>, policyOf: PolicyLookup, m: Metadata)
    ensures FilteredMetadata(whitelist, policyOf, FilteredMetadata(whitelist, policyOf, m)) == FilteredMetadata(whitelist, policyOf, m)
  {
    match WhitelistDimensions(whitelist, policyOf)
    case Err(_) =>
    case Ok(configured) =>
      if configured != [] {
        var once := SelectDimensions(configured, m);
        forall i | 0 <= i < |configured|
          ensures DimensionById(once, configured[i].id) == DimensionById(m, configured[i].id)
        {
          SelectDimensionsLookup(configured, m, configured[i].id);
          assert NamesId(configured, configured[i].id);
        }
        SelectDimensionsCongruent(configured, once, m);
      }
  }

  // ---------------------------------------------------------------------
  // getSolrQuery

  /** `Strings.nullToEmpty`. */
  function NullToEmpty(s: Option<string>): string {
    match s
    case None => ""
    case Some(v) => v
  }

  /** `getSolrQuery`: no query when the metadata clause built by the
      metadata query builder is empty; otherwise the clause restricted to the
      input template and excluding the content itself, with sorting cleared,
      the extended dismax parser, the recency boosts, and `mm` only when a
      minimum match is configured. */
  function GetSolrQuery(contentId: ContentId, inputTemplate: string, metadata: Metadata,
                        minimumMatch: Option<string>, buildClause: Metadata -> string): (r: Option<Query>)
    ensures r.None? <==> buildClause(metadata) == ""
    ensures r.Some? ==>
      var q := r.value;
      && q.q == buildClause(metadata)
      && q.sorts == []
      && q.filters == [InputTemplateFilter(inputTemplate), ExclusionFilter(contentId)]
      && ExcludedIdStrings(q.filters) == [contentId.idString]
      && q.params.Keys == {"defType", "boost", "bq"} + (if NullToEmpty(minimumMatch) == "" then {} else {"mm"})
      && q.params["defType"] == "edismax"
      && q.params["boost"] == BoostFunction
      && q.params["bq"] == BoostQuery
      && ("mm" in q.params ==> q.params["mm"] == NullToEmpty(minimumMatch))
  {
    var clause := buildClause(metadata);
    if clause == "" then None
    else
      var base := Apply(FromContentId(contentId), Apply(WithInputTemplate(inputTemplate), NewQuery(clause), NoCustom), NoCustom);
      SolrQueryBase(contentId, inputTemplate, clause);
      var q := base.(sorts := [], params := base.params["defType" := "edismax"]["boost" := BoostFunction]["bq" := BoostQuery]);
      var mm := NullToEmpty(minimumMatch);
      if mm == "" then Some(q) else Some(q.(params := q.params["mm" := mm]))
  }

  /** The query `getSolrQuery` decorates: the clause, restricted to the
      input template and then excluding the content itself. */
  lemma SolrQueryBase(contentId: ContentId, inputTemplate: string, clause: string)
    ensures var base := Apply(FromContentId(contentId), Apply(WithInputTemplate(inputTemplate), NewQuery(clause), NoCustom), NoCustom);
      && base.q == clause
      && base.params == map[]
      && base.filters == [InputTemplateFilter(inputTemplate), ExclusionFilter(contentId)]
      && ExcludedIdStrings(base.filters) == [contentId.idString]
  {
    var q1 := Apply(WithInputTemplate(inputTemplate), NewQuery(clause), NoCustom);
    var base := Apply(FromContentId(contentId), q1, NoCustom);
    assert base.filters == [InputTemplateFilter(inputTemplate)] + [ExclusionFilter(contentId)];
    assert ExcludedIdStrings(base.filters[..1]) == [];
  }
}
