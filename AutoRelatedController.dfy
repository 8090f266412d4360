/** `AutoRelatedController`: decides whether a content item gets automatically
    related content, searches for it, and caches the result ids under a key
    built from the site settings and the item. */
module AutoRelatedController {
  import opened Wrappers
  import opened JavaLang
  import opened Types
  import opened WithoutContentIdDecorator
  import opened QueryDecorators
  import opened SiteSettingsPolicy
  import opened SearchUtil
  import opened ResultScan
  import opened CacheKey

  /** The services the controller talks to: the content store's policy
      lookup and existence check, the Solr search client (a query and a
      page-size hint give the hit pages in rank order), the metadata query
      builder, the custom decorators of the configured decorator sources, and
      `SolrQuery.toString`. */
  datatype Environment = Environment(
    policyOf: PolicyLookup,
    existence: ContentId -> Existence,
    search: (Query, int) -> seq<seq<ContentId>>,
    buildClause: Metadata -> string,
    custom: CustomDecorate,
    render: Query -> string)

  /** The content item being rendered, as far as the controller reads it:
      its content id, the (possibly versioned) content-id string its policy
      reports, its input template's external id (reading the input template
      may throw), its metadata, the
      "allowAutorelated" component (reading it may throw), and its "related"
      and "autorelated" content lists (reading them may throw). */
  datatype Item = Item(
    contentId: ContentId,
    versionedIdString: string,
    inputTemplate: Result<string>,
    metadata: Metadata,
    allowAutorelated: Result<Option<string>>,
    related: Result<Option<seq<ContentId>>>,
    autorelated: Result<Option<seq<ContentId>>>)

  // ---------------------------------------------------------------------
  // performSearch

  /** `performSearch`: asks for `100 + maxResults` hits (an `int` sum) and
      walks the pages and their hits in order, keeping each hit the store
      reports as existing and not yet kept; a failing existence check skips
      the hit; after every hit, returns as soon as `maxResults` ids are kept. */
  method PerformSearch(search: (Query, int) -> seq<seq<ContentId>>, existence: ContentId -> Existence,
                       query: Query, maxResults: int) returns (results: seq<ContentId>)
    ensures results == Scan(Flatten(search(query, Wrap32(100 + maxResults))), existence, maxResults, [])
  {
    results := [];
    var pages := search(query, Wrap32(100 + maxResults));
    ghost var all := Scan(Flatten(pages), existence, maxResults, []);
    var p := 0;
    while p < |pages|
      invariant 0 <= p <= |pages|
      invariant all == Scan(Flatten(pages[p..]), existence, maxResults, results)
    {
      var hits := pages[p];
      assert Flatten(pages[p..]) == hits + Flatten(pages[p + 1..]) by {
        assert pages[p..][0] == hits && pages[p..][1..] == pages[p + 1..];
      }
      var h := 0;
      while h < |hits|
        invariant 0 <= h <= |hits|
        invariant all == Scan(hits[h..] + Flatten(pages[p + 1..]), existence, maxResults, results)
      {
        var id := hits[h];
        ghost var rest := hits[h..] + Flatten(pages[p + 1..]);
        assert rest[0] == id && rest[1..] == hits[h + 1..] + Flatten(pages[p + 1..]);
        if existence(id) == Exists {
          if id !in results {
            results := results + [id];
          }
        }
        if |results| >= maxResults {
          return;
        }
        h := h + 1;
      }
      assert hits[h..] + Flatten(pages[p + 1..]) == Flatten(pages[p + 1..]);
      p := p + 1;
    }
    assert pages[p..] == [];
  }

  // ---------------------------------------------------------------------
  // shouldCalculateRelated

  /** `shouldCalculateRelated`: false without metadata; otherwise true when
      the item's "allowAutorelated" value is missing or empty or reads as
      boolean true; reading the value may throw. */
  function ShouldCalculateRelated(allow: Result<Option<string>>, metadata: Metadata): (r: Result<bool>)
    ensures !HasMetadata(metadata) ==> r == Ok(false)
    ensures r.Err? <==> HasMetadata(metadata) && allow.Err?
    ensures r.Err? ==> r.error == allow.error
    ensures r == Ok(true) <==>
      (exists i :: 0 <= i < |metadata| && |metadata[i].entities| > 0)
      && allow.Ok?
      && (allow.value.None? || allow.value.value == "" || EqualsIgnoreCase(allow.value.value, "true"))
  {
    if !HasMetadata(metadata) then Ok(false)
    else
      match allow
      case Err(e) => Err(e)
      case Ok(None) => Ok(true)
      case Ok(Some(v)) => Ok(v == "" || ParseBoolean(v))
  }

  // ---------------------------------------------------------------------
  // getSettingsCacheKey and the cache key

  /** The settings fingerprint `getSettingsCacheKey` builds: it fails when the
      maximum does not parse, the whitelist cannot be read, or the decorators
      cannot be read, in that order. */
  function SettingsKey(s: SiteSettings, env: Environment): Result<string> {
    match GetMaxResults(s)
    case Err(e) => Err(e)
    case Ok(n) =>
      match s.categorization
      case Err(e) => Err(e)
      case Ok(whitelist) =>
        match Decorators(s, env.policyOf)
        case Err(e) => Err(e)
        case Ok(ds) =>
          Ok(SettingsKeyOf(s.contentId.idString, n, GetMinimumMatch(s), ListString(whitelist),
                           env.render(DecorateAll(ds, NewQuery(":"), env.custom))))
  }

  /** `getSettingsCacheKey`: appends the pieces to a builder one at a time. */
  method SettingsCacheKey(s: SiteSettings, env: Environment) returns (r: Result<string>)
    ensures r == SettingsKey(s, env)
  {
    var sb := s.contentId.idString;
    sb := sb + ";";
    var maxResults := GetMaxResults(s);
    if maxResults.Err? {
      return Err(maxResults.error);
    }
    sb := sb + IntToString(maxResults.value);
    sb := sb + ";";
    sb := sb + GetMinimumMatch(s);
    sb := sb + ";";
    if s.categorization.Err? {
      return Err(s.categorization.error);
    }
    var whitelist := ContentListToString(s.categorization.value);
    sb := sb + whitelist;
    sb := sb + ";";
    var decorators := GetDecorators(s, env.policyOf);
    if decorators.Err? {
      return Err(decorators.error);
    }
    sb := sb + env.render(DecorateAll(decorators.value, NewQuery(":"), env.custom));
    r := Ok(sb);
  }

  /** The key of the results cache (line 102): the settings fingerprint, "-",
      and the content-id string of the item's policy. */
  function ResultsKey(s: SiteSettings, item: Item, env: Environment): Result<string> {
    match SettingsKey(s, env)
    case Err(e) => Err(e)
    case Ok(k) => Ok(CacheKeyOf(k, item.versionedIdString))
  }

  /** Changing only the configured minimum match changes the key, so results
      cached for one minimum match are never served for another. */
  lemma ResultsKeyDistinguishesMinimumMatch(s: SiteSettings, mm: string, item: Item, env: Environment)
    requires mm != GetMinimumMatch(s)
    requires ResultsKey(s, item, env).Ok?
    ensures var s' := s.(childValues := s.childValues["minimumMatch" := mm]);
      ResultsKey(s', item, env).Ok? && ResultsKey(s', item, env) != ResultsKey(s, item, env)
  {
    var s' := s.(childValues := s.childValues["minimumMatch" := mm]);
    assert "maxResults"[1] != "minimumMatch"[1];
    assert GetMaxResults(s') == GetMaxResults(s);
    assert GetMinimumMatch(s') == mm;
    var n := GetMaxResults(s).value;
    var ds := Decorators(s, env.policyOf).value;
    var w := ListString(s.categorization.value);
    var d := env.render(DecorateAll(ds, NewQuery(":"), env.custom));
    var id := s.contentId.idString;
    assert SettingsKey(s, env) == Ok(SettingsKeyOf(id, n, GetMinimumMatch(s), w, d));
    assert SettingsKey(s', env) == Ok(SettingsKeyOf(id, n, mm, w, d));
    SettingsKeyDistinguishesMinimumMatch(id, n, GetMinimumMatch(s), mm, w, d);
    CacheKeyDistinguishesSettings(SettingsKeyOf(id, n, GetMinimumMatch(s), w, d), SettingsKeyOf(id, n, mm, w, d),
                                  item.versionedIdString);
  }

  /** Under the same settings, items whose policies report different
      content-id strings get different keys. */
  lemma ResultsKeyDistinguishesItems(s: SiteSettings, a: Item, b: Item, env: Environment)
    requires a.versionedIdString != b.versionedIdString
    requires SettingsKey(s, env).Ok?
    ensures ResultsKey(s, a, env) != ResultsKey(s, b, env)
  {
    CacheKeyDistinguishesContent(SettingsKey(s, env).value, a.versionedIdString, b.versionedIdString);
  }

  // ---------------------------------------------------------------------
  // getResults

  /** The search `getResults` issues for a built query: the query decorated
      by the configured decorators and then the related-content exclusion,
      with the configured maximum; reading the maximum, then the decorators,
      may fail. */
  function DecoratedSearch(s: SiteSettings, item: Item, query: Query, env: Environment): Result<(Query, int)> {
    match GetMaxResults(s)
    case Err(e) => Err(e)
    case Ok(maxResults) =>
      match Decorators(s, env.policyOf)
      case Err(e) => Err(e)
      case Ok(ds) =>
        var chain := ds + RelatedExclusion(item.related, item.autorelated);
        Ok((DecorateAll(chain, query, env.custom), maxResults))
  }

  /** The search `getResults` issues, if any; `None` when there is nothing to
      search for (no usable metadata, an item that opted out, or an empty
      metadata clause). */
  function RelatedSearch(s: SiteSettings, item: Item, env: Environment): Result<Option<(Query, int)>> {
    var metadata := FilteredMetadata(s.categorization, env.policyOf, item.metadata);
    match ShouldCalculateRelated(item.allowAutorelated, metadata)
    case Err(e) => Err(e)
    case Ok(should) =>
      if !should then Ok(None)
      else
        match item.inputTemplate
        case Err(e) => Err(e)
        case Ok(inputTemplate) =>
          match GetSolrQuery(item.contentId, inputTemplate, metadata, Some(GetMinimumMatch(s)), env.buildClause)
          case None => Ok(None)
          case Some(query) =>
            match DecoratedSearch(s, item, query, env)
            case Err(e) => Err(e)
            case Ok(search) => Ok(Some(search))
  }

  /** The ids `performSearch` keeps for a search. */
  function SearchResults(search: (Query, int), env: Environment): seq<ContentId> {
    Scan(Flatten(env.search(search.0, Wrap32(100 + search.1))), env.existence, search.1, [])
  }

  /** The ids `getResults` returns: the post-processed hits of the related
      search, or none when there is no search. */
  function RelatedResults(s: SiteSettings, item: Item, env: Environment): Result<seq<ContentId>> {
    match RelatedSearch(s, item, env)
    case Err(e) => Err(e)
    case Ok(None) => Ok([])
    case Ok(Some(search)) => Ok(SearchResults(search, env))
  }

  /** The second half of `getResults`, once a query is built: read the
      maximum and the decorators, add the related-content exclusion,
      decorate and search. */
  method SearchWithQuery(s: SiteSettings, item: Item, query: Query, env: Environment) returns (r: Result<seq<ContentId>>)
    ensures DecoratedSearch(s, item, query, env).Err? ==> r == Err(DecoratedSearch(s, item, query, env).error)
    ensures DecoratedSearch(s, item, query, env).Ok? ==> r == Ok(SearchResults(DecoratedSearch(s, item, query, env).value, env))
  {
    var maxResults := GetMaxResults(s);
    if maxResults.Err? {
      return Err(maxResults.error);
    }
    var decorators := GetDecorators(s, env.policyOf);
    if decorators.Err? {
      return Err(decorators.error);
    }
    var chain := ExcludeRelated(item.related, item.autorelated, decorators.value);
    var results := PerformSearch(env.search, env.existence, DecorateAll(chain, query, env.custom), maxResults.value);
    return Ok(results);
  }

  /** `getResults`: filter the metadata by the whitelist, check the opt-out
      rule, read the input template, build the query, then decorate it and
      search. */
  method GetResults(s: SiteSettings, item: Item, env: Environment) returns (r: Result<seq<ContentId>>)
    ensures r == RelatedResults(s, item, env)
  {
    var metadata := FilterMetadata(s.categorization, env.policyOf, item.metadata);
    var should := ShouldCalculateRelated(item.allowAutorelated, metadata);
    if should.Err? {
      return Err(should.error);
    }
    if should.value {
      if item.inputTemplate.Err? {
        return Err(item.inputTemplate.error);
      }
      var query := GetSolrQuery(item.contentId, item.inputTemplate.value, metadata, Some(GetMinimumMatch(s)), env.buildClause);
      if query.Some? {
        r := SearchWithQuery(s, item, query.value, env);
        return;
      }
    }
    r := Ok([]);
  }

  /** What `getResults` returns when it succeeds: no duplicates, only
      content the store reports as existing, no more than the configured
      maximum when that is positive and at most one id otherwise, and nothing
      when the maximum does not parse (no search took place). */
  lemma RelatedResultsProperties(s: SiteSettings, item: Item, env: Environment)
    requires RelatedResults(s, item, env).Ok?
    ensures var r := RelatedResults(s, item, env).value;
      && NoDuplicates(r)
      && (forall id :: id in r ==> env.existence(id) == Exists)
      && (GetMaxResults(s).Ok? && GetMaxResults(s).value >= 1 ==> |r| <= GetMaxResults(s).value)
      && (GetMaxResults(s).Ok? && GetMaxResults(s).value < 1 ==> |r| <= 1)
      && (GetMaxResults(s).Err? ==> r == [])
  {
    var rs := RelatedSearch(s, item, env);
    if rs.value.Some? {
      var search := rs.value.value;
      assert RelatedResults(s, item, env) == Ok(SearchResults(search, env));
      RelatedSearchMaximum(s, item, env);
      ScanProperties(Flatten(env.search(search.0, Wrap32(100 + search.1))), env.existence, search.1);
    }
  }

  /** A related search runs with the configured maximum. */
  lemma RelatedSearchMaximum(s: SiteSettings, item: Item, env: Environment)
    requires RelatedSearch(s, item, env).Ok? && RelatedSearch(s, item, env).value.Some?
    ensures GetMaxResults(s) == Ok(RelatedSearch(s, item, env).value.value.1)
  {
    var query, ds := RelatedSearchParts(s, item, env);
  }

  /** `getResults` returns no ids, without searching, when the filtered
      metadata has no entities, when the item's "allowAutorelated" value is
      set to something other than "true", or when the metadata clause is
      empty. */
  lemma RelatedResultsEmptyWithoutSignal(s: SiteSettings, item: Item, env: Environment)
    ensures var metadata := FilteredMetadata(s.categorization, env.policyOf, item.metadata);
      !HasMetadata(metadata)
      || (item.allowAutorelated.Ok? && item.allowAutorelated.value.Some?
          && item.allowAutorelated.value.value != "" && !EqualsIgnoreCase(item.allowAutorelated.value.value, "true"))
      || (ShouldCalculateRelated(item.allowAutorelated, metadata).Ok? && item.inputTemplate.Ok? && env.buildClause(metadata) == "")
      ==> RelatedSearch(s, item, env) == Ok(None) && RelatedResults(s, item, env) == Ok([])
  {
  }

  /** `getResults` fails exactly when reading "allowAutorelated" fails for
      content with metadata, or, when related content is to be calculated,
      when reading the input template fails, or, once there is a query, when
      the maximum does not parse or the decorators cannot be read (the
      source list or, for a non-empty one, the version information or a
      source policy). A whitelist that cannot be read fails nothing here:
      the metadata is then left unfiltered. */
  lemma RelatedResultsFailIff(s: SiteSettings, item: Item, env: Environment)
    ensures var metadata := FilteredMetadata(s.categorization, env.policyOf, item.metadata);
      RelatedResults(s, item, env).Err? <==>
        (HasMetadata(metadata) && item.allowAutorelated.Err?)
        || (ShouldCalculateRelated(item.allowAutorelated, metadata) == Ok(true)
            && (item.inputTemplate.Err?
                || (env.buildClause(metadata) != ""
                    && (GetMaxResults(s).Err?
                        || s.sources.Err?
                        || (s.sources.value != []
                            && (s.committed.Err?
                                || exists i :: 0 <= i < |s.sources.value|
                                     && env.policyOf(DecoratorRef(s.committed.value, s.sources.value[i])).Err?))))))
  {
    DecoratorsFailIff(s, env.policyOf);
  }

  /** The related search excludes the hand-picked "related" and
      "autorelated" ids, after whatever else it excludes, and searches with
      the configured maximum and a page-size hint of `100 + maxResults`. */
  lemma RelatedSearchExcludesRelated(s: SiteSettings, item: Item, env: Environment)
    requires RelatedSearch(s, item, env).Ok? && RelatedSearch(s, item, env).value.Some?
    ensures var (q, n) := RelatedSearch(s, item, env).value.value;
      && GetMaxResults(s) == Ok(n)
      && (forall id :: id in RelatedIds(item.related, item.autorelated) ==> id.idString in ExcludedIdStrings(q.filters))
      && RelatedResults(s, item, env) == Ok(Scan(Flatten(env.search(q, Wrap32(100 + n))), env.existence, n, []))
  {
    var (q, n) := RelatedSearch(s, item, env).value.value;
    var query, ds := RelatedSearchParts(s, item, env);
    var ids := RelatedIds(item.related, item.autorelated);
    RelatedExclusionExcludes(ds, item.related, item.autorelated, query, env.custom);
    assert ExcludedIdStrings(q.filters) == ExcludedIdStrings(DecorateAll(ds, query, env.custom).filters) + IdStrings(ids);
    forall id | id in ids
      ensures id.idString in ExcludedIdStrings(q.filters)
    {
      var i :| 0 <= i < |ids| && ids[i] == id;
      assert IdStrings(ids)[i] == id.idString;
    }
  }

  /** The pieces of a related search that takes place: the query
      `getSolrQuery` built and the configured decorators it is decorated with. */
  lemma RelatedSearchParts(s: SiteSettings, item: Item, env: Environment) returns (query: Query, ds: seq<Decorator>)
    requires RelatedSearch(s, item, env).Ok? && RelatedSearch(s, item, env).value.Some?
    ensures var metadata := FilteredMetadata(s.categorization, env.policyOf, item.metadata);
      && item.inputTemplate.Ok?
      && GetSolrQuery(item.contentId, item.inputTemplate.value, metadata, Some(GetMinimumMatch(s)), env.buildClause) == Some(query)
      && Decorators(s, env.policyOf) == Ok(ds)
      && GetMaxResults(s).Ok?
      && RelatedSearch(s, item, env) == Ok(Some((DecorateAll(ds + RelatedExclusion(item.related, item.autorelated), query, env.custom),
                                                 GetMaxResults(s).value)))
  {
    var metadata := FilteredMetadata(s.categorization, env.policyOf, item.metadata);
    query := GetSolrQuery(item.contentId, item.inputTemplate.value, metadata, Some(GetMinimumMatch(s)), env.buildClause).value;
    ds := Decorators(s, env.policyOf).value;
  }

  /** When the custom decorators keep the filters they are given, the
      related search also excludes the item itself, ahead of any other
      exclusion. */
  lemma RelatedSearchExcludesSelf(s: SiteSettings, item: Item, env: Environment)
    requires KeepsFilters(env.custom)
    requires RelatedSearch(s, item, env).Ok? && RelatedSearch(s, item, env).value.Some?
    ensures var q := RelatedSearch(s, item, env).value.value.0;
      |ExcludedIdStrings(q.filters)| >= 1 && ExcludedIdStrings(q.filters)[0] == item.contentId.idString
  {
    var query, ds := RelatedSearchParts(s, item, env);
    DecorateAllKeepsExclusions(ds + RelatedExclusion(item.related, item.autorelated), query, env.custom);
  }

  // ---------------------------------------------------------------------
  // The results cache and populateModelBeforeCacheKey

  /** The results cache, from cache key to result ids. Loading a missing
      key runs `getResults`; a failing load caches nothing. */
  class IdsCache {
    var entries: map<string, seq<ContentId>>

    /** Every cached list is duplicate-free, as `getResults` guarantees. */
    predicate Valid()
      reads this
    {
      forall k :: k in entries ==> NoDuplicates(entries[k])
    }

    constructor()
      ensures entries == map[] && Valid()
    {
      entries := map[];
    }

    /** `getResultsFromCacheOrLoadIt`: the cached ids for the key, or the ids
        `getResults` loads, which are then cached. A checked failure of the
        load reaches the caller as a `CMException`; an unchecked one (the
        `NumberFormatException` of the maximum) propagates wrapped in an
        `UncheckedExecutionException`, of which the model keeps the kind. */
    method GetOrLoad(key: string, s: SiteSettings, item: Item, env: Environment) returns (r: Result<seq<ContentId>>)
      requires Valid()
      modifies this
      ensures Valid()
      ensures key in old(entries) ==> r == Ok(old(entries)[key]) && entries == old(entries)
      ensures key !in old(entries) ==> r == RelatedResults(s, item, env)
      ensures key !in old(entries) && r.Ok? ==> entries == old(entries)[key := r.value]
      ensures key !in old(entries) && r.Err? ==> entries == old(entries)
    {
      if key in entries {
        return Ok(entries[key]);
      }
      r := GetResults(s, item, env);
      if r.Ok? {
        RelatedResultsProperties(s, item, env);
        entries := entries[key := r.value];
      }
    }
  }

  /** What the model's "related" entry becomes for a `getResultsFromCacheOrLoadIt`
      outcome: set to the ids when there are some, left unset when there are
      none or a `CMException` was caught, and any other failure propagates. */
  function RelatedEntry(results: Result<seq<ContentId>>): (r: Result<Option<seq<ContentId>>>)
    ensures r.Ok? && r.value.Some? <==> results.Ok? && results.value != []
    ensures r.Ok? && r.value.Some? ==> r.value.value == results.value
    ensures r.Err? <==> results.Err? && results.error != CMException
  {
    match results
    case Err(CMException) => Ok(None)
    case Err(e) => Err(e)
    case Ok(ids) => if |ids| > 0 then Ok(Some(ids)) else Ok(None)
  }

  /** `populateModelBeforeCacheKey`, from the site settings on: nothing
      unless the settings exist and are enabled and the item's policy could
      be fetched; otherwise the cache is consulted under the results key and
      "related" is set only when there are results. */
  method PopulateRelated(cache: IdsCache, settings: Option<SiteSettings>, item: Option<Item>, env: Environment)
    returns (related: Result<Option<seq<ContentId>>>)
    requires cache.Valid()
    modifies cache
    ensures cache.Valid()
    ensures settings.None? || !IsEnabled(settings.value) || item.None? ==> related == Ok(None) && cache.entries == old(cache.entries)
    ensures settings.Some? && IsEnabled(settings.value) && item.Some? ==>
      var s := settings.value;
      match ResultsKey(s, item.value, env)
      case Err(e) => related == RelatedEntry(Err(e)) && cache.entries == old(cache.entries)
      case Ok(key) =>
        if key in old(cache.entries) then related == RelatedEntry(Ok(old(cache.entries)[key])) && cache.entries == old(cache.entries)
        else
          var results := RelatedResults(s, item.value, env);
          && related == RelatedEntry(results)
          && (results.Ok? ==> cache.entries == old(cache.entries)[key := results.value])
          && (results.Err? ==> cache.entries == old(cache.entries))
    ensures related.Ok? && related.value.Some? ==> related.value.value != [] && NoDuplicates(related.value.value)
    ensures related.Err? ==> related.error == NumberFormatException
  {
    if settings.None? || !IsEnabled(settings.value) || item.None? {
      return Ok(None);
    }
    var s := settings.value;
    var settingsKey := SettingsCacheKey(s, env);
    if settingsKey.Err? {
      return RelatedEntry(Err(settingsKey.error));
    }
    var key := CacheKeyOf(settingsKey.value, item.value.versionedIdString);
    var results := cache.GetOrLoad(key, s, item.value, env);
    if results.Ok? && key !in old(cache.entries) {
      RelatedResultsProperties(s, item.value, env);
    }
    related := RelatedEntry(results);
  }
}
