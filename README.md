# Auto-related content for Polopoly, modelled in Dafny

This project models how the "autorelated" plugin of a Polopoly site decides
which content items to show as related to the one being rendered. It covers
four parts:

- **Site settings** are read from the `autorelated` settings content: whether
  the feature is on, the maximum number of results, the cache time, the Solr
  minimum match, the dimension whitelist and the query-decorator sources.
- **Metadata filtering** keeps only the item's metadata dimensions that the
  whitelist names, in whitelist order.
- **Query synthesis** builds an extended-dismax Solr query from the metadata
  clause. The query is restricted to the item's input template and excludes
  the item itself. It is decorated by the configured decorators and by a
  `WithoutContentId` decorator for hand-picked "related" and "autorelated"
  content.
- **Result post-processing** walks the ranked hit pages. It keeps content
  that still exists, skips duplicates and stops at the maximum. The ids are
  cached under a key built from the settings and the item.

The content store, the Solr client, the metadata query builder, the custom
decorators and `SolrQuery.toString` are parameters of the model, bundled in
`AutoRelatedController.Environment`. Java exceptions are values of
`Wrappers.Result`: a `CMException` or a `NumberFormatException`.

Modules, one per file:

- `Wrappers`: `Option`, `Result` and the failure kinds.
- `JavaLang`: the `java.lang` behaviour the code depends on. This covers
  `Integer.parseInt`, `Integer.toString`, 32-bit wrap-around,
  `Boolean.parseBoolean` and `Boolean.toString`.
- `Types`: content ids, metadata dimensions, Solr queries, decorators and
  policies.
- `WithoutContentIdDecorator`: the plugin's `WithoutContentId` query decorator.
- `QueryDecorators`: a `WithDecorators` chain applied to a query.
- `SiteSettingsPolicy`: the settings getters and `getDecorators`.
- `SearchUtil`: `hasMetadata`, `excludeRelated`, `filterMetadata` with
  `from`, and `getSolrQuery`.
- `ResultScan`: the hit scan of `performSearch`, written as a function, and
  its guarantees.
- `CacheKey`: the whitelist rendering, the settings fingerprint and the
  cache key.
- `AutoRelatedController`: `performSearch`, `shouldCalculateRelated`,
  `getSettingsCacheKey`, `getResults`, the results cache and the "related"
  outcome of `populateModelBeforeCacheKey`.

Each loop of the source that builds a result is a method. Its `ensures`
equates the result with a recursive specification function, and the
properties the source promises are lemmas about that function. The one
exception is the early-exit scan of `hasMetadata`, which computes only a
boolean; it is the recursive function `SearchUtil.HasMetadata`.

## Model

| member | source | states |
|---|---|---|
| JavaLang.Wrap32 | src/main/java/com/atex/plugins/autorelated/SiteSettingsPolicy.java:39 | an `int` product is reduced into the 32-bit range, is congruent to the exact value modulo 2^32, and equals it exactly when the exact value fits |
| JavaLang.ParseInt | src/main/java/com/atex/plugins/autorelated/SiteSettingsPolicy.java:34 | `Integer.parseInt` yields a 32-bit value, rejects the empty string with a `NumberFormatException`, and a leading minus gives a non-positive value |
| JavaLang.ParseIntExact | src/main/java/com/atex/plugins/autorelated/SiteSettingsPolicy.java:34 | `Integer.parseInt` fails with a `NumberFormatException` exactly when the text is not an optional sign followed by at least one digit, or its value is outside the 32-bit range; otherwise it yields that value |
| JavaLang.ParseIntOfIntToString | src/main/java/com/atex/plugins/autorelated/SiteSettingsPolicy.java:34 | parsing the decimal rendering of any `int` gives that `int` back |
| JavaLang.IntToStringInjective | src/main/java/com/atex/plugins/autorelated/AutoRelatedController.java:118 | different `int`s are appended to the settings key as different strings |
| JavaLang.ParseBoolean | src/main/java/com/atex/plugins/autorelated/SiteSettingsPolicy.java:69 | `Boolean.parseBoolean` is true exactly for "true" in any letter case |
| JavaLang.BooleanToString | src/main/java/com/atex/plugins/autorelated/SiteSettingsPolicy.java:69 | the default rendered by `Boolean.toString` parses back to the same boolean |
| WithoutContentIdDecorator.ExclusionFilter | src/main/java/com/atex/plugins/autorelated/decorators/WithoutContentId.java:30 | the filter `-(contentId:"<id>")` reads back as an exclusion of exactly that id |
| WithoutContentIdDecorator.ExclusionFilters | src/main/java/com/atex/plugins/autorelated/decorators/WithoutContentId.java:29-31 | one filter per id, the i-th excluding the i-th id, so the filters exclude exactly the ids in order |
| WithoutContentIdDecorator.FromContentId | src/main/java/com/atex/plugins/autorelated/decorators/WithoutContentId.java:18-24 | the single-id constructor equals the array constructor given a one-element array, and adds exactly that id's filter |
| WithoutContentIdDecorator.ExcludedIdStringsAppend | src/main/java/com/atex/plugins/autorelated/decorators/WithoutContentId.java:29-31 | exclusions of appended filter lists are the concatenation of the exclusions |
| WithoutContentIdDecorator.Decorate | src/main/java/com/atex/plugins/autorelated/decorators/WithoutContentId.java:26-34 | appends one exclusion filter per id in array order and leaves query, params, sorts and earlier filters alone; a null array returns the query unchanged; the result is the `Decorated` query that a `WithoutContentId` link of a decorator chain produces |
| QueryDecorators.InputTemplateFilter | src/main/java/com/atex/plugins/autorelated/SearchUtil.java:168 | the input-template restriction is never mistaken for a content exclusion |
| QueryDecorators.DecorateAllAppend | src/main/java/com/atex/plugins/autorelated/SearchUtil.java:167-170 | decorating with a chain extended by more decorators applies the first chain, then the rest |
| QueryDecorators.DecorateAllExtendsFilters | src/main/java/com/atex/plugins/autorelated/SearchUtil.java:167-170 | when custom decorators keep existing filters, a chain only appends filters; a chain of built-in decorators keeps the main query, params and sorts |
| QueryDecorators.DecorateAllKeepsExclusions | src/main/java/com/atex/plugins/autorelated/SearchUtil.java:167-170 | when custom decorators keep existing filters, exclusions already in the query stay first |
| SiteSettingsPolicy.GetChildValueAsBoolean | src/main/java/com/atex/plugins/autorelated/SiteSettingsPolicy.java:68-70 | the default when unset, otherwise whether the stored value is "true" in any letter case |
| SiteSettingsPolicy.IsEnabled | src/main/java/com/atex/plugins/autorelated/SiteSettingsPolicy.java:25-27 | true exactly when "enabled" is stored as "true" in any letter case |
| SiteSettingsPolicy.IsAjax | src/main/java/com/atex/plugins/autorelated/SiteSettingsPolicy.java:29-31 | true exactly when "ajax" is stored as "true" in any letter case |
| SiteSettingsPolicy.GetMaxResults | src/main/java/com/atex/plugins/autorelated/SiteSettingsPolicy.java:33-35 | 5 when unset; otherwise exactly `Integer.parseInt` of the stored text, a 32-bit value or a `NumberFormatException` |
| SiteSettingsPolicy.MaxResultsOfStoredText | src/main/java/com/atex/plugins/autorelated/SiteSettingsPolicy.java:33-35 | a stored maximum that is not a signed run of digits, or is out of the 32-bit range, gives a `NumberFormatException`; any other gives its value |
| SiteSettingsPolicy.MaxResultsOfStoredInt | src/main/java/com/atex/plugins/autorelated/SiteSettingsPolicy.java:33-35 | a maximum stored as the decimal text of an `int` is read back as that `int` |
| SiteSettingsPolicy.GetCacheTime | src/main/java/com/atex/plugins/autorelated/SiteSettingsPolicy.java:37-40 | 0 when unset; otherwise the stored seconds times 1000 wrapped to 32 bits; a malformed value gives a `NumberFormatException` |
| SiteSettingsPolicy.CacheTimeExactIff | src/main/java/com/atex/plugins/autorelated/SiteSettingsPolicy.java:37-40 | the cache time is the exact millisecond count if and only if the stored seconds lie within ±2147483 |
| SiteSettingsPolicy.GetCacheTimeMillis | src/main/java/com/atex/plugins/autorelated/SiteSettingsPolicy.java:37-40 | the corrected cache time: 0 when unset, exactly seconds times 1000, a whole number of seconds, within the `long` range |
| SiteSettingsPolicy.GetMinimumMatch | src/main/java/com/atex/plugins/autorelated/SiteSettingsPolicy.java:42-44 | "" when unset, the stored value otherwise |
| SiteSettingsPolicy.SourceDecoratorsFailIff | src/main/java/com/atex/plugins/autorelated/SiteSettingsPolicy.java:54-79 | collecting the decorators fails exactly when some source entry's lookup fails |
| SiteSettingsPolicy.SourceDecoratorsExact | src/main/java/com/atex/plugins/autorelated/SiteSettingsPolicy.java:54-79 | the collected decorators are exactly those of the entries that resolve to a decorator policy, at most one per entry; the lookup uses the plain id when committed and the latest version otherwise |
| SiteSettingsPolicy.DecoratorsFailIff | src/main/java/com/atex/plugins/autorelated/SiteSettingsPolicy.java:46-79 | reading the decorators fails exactly when the source list cannot be read, or it is non-empty and the version information or some source's policy cannot be read |
| SiteSettingsPolicy.GetDecorators | src/main/java/com/atex/plugins/autorelated/SiteSettingsPolicy.java:50-79 | reads the source list, then iterates over it, returning the decorators of the decorator-policy entries in list order, or the first failure of the list read, the version-information read or a policy lookup |
| SearchUtil.HasMetadata | src/main/java/com/atex/plugins/autorelated/SearchUtil.java:72-81 | true exactly when some dimension has at least one entity |
| SearchUtil.ExcludeRelated | src/main/java/com/atex/plugins/autorelated/SearchUtil.java:95-116 | adds at most one decorator: a `WithoutContentId` over the "related" then "autorelated" ids, none when there are no ids, and none when reading either list throws |
| SearchUtil.RelatedExclusionExcludes | src/main/java/com/atex/plugins/autorelated/SearchUtil.java:97-112 | after `excludeRelated`, the decorated query excludes what it excluded before, followed by exactly the related ids in list order |
| SearchUtil.ConfiguredDimensionsFailIff | src/main/java/com/atex/plugins/autorelated/SearchUtil.java:123-131 | resolving the whitelist fails exactly when some entry's policy lookup fails |
| SearchUtil.ConfiguredDimensionsExact | src/main/java/com/atex/plugins/autorelated/SearchUtil.java:123-131 | the resolved whitelist dimensions are exactly those of the entries whose policy is a category dimension, at most one per entry |
| SearchUtil.FilterMetadata | src/main/java/com/atex/plugins/autorelated/SearchUtil.java:118-154 | the loops return the input unchanged when the whitelist cannot be read, a whitelist lookup throws or no entry is a category dimension, and otherwise the selected dimensions |
| SearchUtil.SelectDimensionsSound | src/main/java/com/atex/plugins/autorelated/SearchUtil.java:133-140 | every kept dimension is an input dimension whose id is whitelisted, at most one per whitelisted dimension |
| SearchUtil.SelectDimensionsComplete | src/main/java/com/atex/plugins/autorelated/SearchUtil.java:133-140 | every whitelisted dimension the input has is kept |
| SearchUtil.DimensionById | src/main/java/com/atex/plugins/autorelated/SearchUtil.java:135 | a found dimension is in the metadata with the requested id, and nothing is found exactly when no dimension has that id |
| SearchUtil.SelectDimensionsLookup | src/main/java/com/atex/plugins/autorelated/SearchUtil.java:133-140 | for any whitelist, duplicates included, looking an id up in the filtered metadata finds what the input has when the whitelist names the id, and nothing otherwise |
| SearchUtil.FilterMetadataIdempotent | src/main/java/com/atex/plugins/autorelated/SearchUtil.java:118-146 | for any whitelist, filtering filtered metadata again changes nothing |
| SearchUtil.GetSolrQuery | src/main/java/com/atex/plugins/autorelated/SearchUtil.java:156-192 | no query exactly when the metadata clause is empty; otherwise the clause, no sorts, the input-template filter then the self-exclusion, `defType=edismax`, the two boosts, and `mm` exactly when a minimum match is configured |
| ResultScan.ScanBound | src/main/java/com/atex/plugins/autorelated/AutoRelatedController.java:207-209 | starting below the maximum, the scan never exceeds it |
| ResultScan.ScanKeepsAcc | src/main/java/com/atex/plugins/autorelated/AutoRelatedController.java:195-201 | the scan only appends to the results, and what it appends is a subsequence of the hits |
| ResultScan.ScanDistinctExisting | src/main/java/com/atex/plugins/autorelated/AutoRelatedController.java:199-201 | the scan adds no duplicate and only ids the store reports as existing |
| ResultScan.ScanComplete | src/main/java/com/atex/plugins/autorelated/AutoRelatedController.java:195-209 | if the scan ends below the maximum, every existing hit is among the results |
| ResultScan.ScanIgnoresLaterHits | src/main/java/com/atex/plugins/autorelated/AutoRelatedController.java:207-209 | once the maximum is reached, later hits make no difference |
| ResultScan.ScanProperties | src/main/java/com/atex/plugins/autorelated/AutoRelatedController.java:188-214 | at most the maximum; when the maximum is below 1, exactly the first hit if it exists and nothing otherwise; no duplicates, only existing ids, in hit order, complete below the maximum |
| CacheKey.ContentListToString | src/main/java/com/atex/plugins/autorelated/AutoRelatedController.java:128-139 | the builder loop yields "[" + the ids joined by "," + "]" |
| CacheKey.SplitJoinComma | src/main/java/com/atex/plugins/autorelated/AutoRelatedController.java:130-136 | splitting at commas undoes the comma join for comma-free parts |
| CacheKey.ListStringRoundTrip | src/main/java/com/atex/plugins/autorelated/AutoRelatedController.java:128-139 | for non-empty, comma-free content ids the whitelist rendering reads back as the ids in order |
| CacheKey.SettingsKeyDistinguishesMinimumMatch | src/main/java/com/atex/plugins/autorelated/AutoRelatedController.java:115-126 | fingerprints that differ only in the minimum match differ |
| CacheKey.SettingsKeyDistinguishesMaxResults | src/main/java/com/atex/plugins/autorelated/AutoRelatedController.java:115-126 | fingerprints that differ only in the maximum differ |
| CacheKey.CacheKeyDistinguishesSettings | src/main/java/com/atex/plugins/autorelated/AutoRelatedController.java:102 | for the same item, different fingerprints give different keys |
| CacheKey.CacheKeyDistinguishesContent | src/main/java/com/atex/plugins/autorelated/AutoRelatedController.java:102 | for the same fingerprint, different items give different keys |
| AutoRelatedController.PerformSearch | src/main/java/com/atex/plugins/autorelated/AutoRelatedController.java:188-214 | the nested page and hit loops with the early return compute the scan of the pages the search returns for a page-size hint of `100 + maxResults` in `int` arithmetic |
| AutoRelatedController.ShouldCalculateRelated | src/main/java/com/atex/plugins/autorelated/AutoRelatedController.java:164-170 | false without metadata; a read failure propagates; otherwise true exactly when the value is missing, empty or "true" in any letter case |
| AutoRelatedController.SettingsCacheKey | src/main/java/com/atex/plugins/autorelated/AutoRelatedController.java:115-126 | the builder yields the id, maximum, minimum match, whitelist rendering and decorated empty query joined by ";", failing first on the maximum, then on the whitelist read, then on the decorators |
| AutoRelatedController.ResultsKeyDistinguishesMinimumMatch | src/main/java/com/atex/plugins/autorelated/AutoRelatedController.java:102-126 | changing only the minimum-match setting changes the cache key, so cached results are never shared between two minimum matches |
| AutoRelatedController.ResultsKeyDistinguishesItems | src/main/java/com/atex/plugins/autorelated/AutoRelatedController.java:94-102 | under the same settings, items whose policies report different ids have different cache keys |
| AutoRelatedController.SearchWithQuery | src/main/java/com/atex/plugins/autorelated/AutoRelatedController.java:151-156 | reads the maximum and the decorators, adds the related exclusion, decorates and searches; a failure of either read propagates |
| AutoRelatedController.GetResults | src/main/java/com/atex/plugins/autorelated/AutoRelatedController.java:141-162 | filters the metadata, applies the opt-out rule, reads the input template, builds, decorates and runs the query, and returns the searched ids or none |
| AutoRelatedController.RelatedResultsProperties | src/main/java/com/atex/plugins/autorelated/AutoRelatedController.java:141-162 | successful results are duplicate-free and exist; they number at most the configured maximum, or one when it is below 1, and none when the maximum does not parse |
| AutoRelatedController.RelatedResultsEmptyWithoutSignal | src/main/java/com/atex/plugins/autorelated/AutoRelatedController.java:148-161 | no search and no results when the filtered metadata has no entities, the item opted out, or the metadata clause is empty |
| AutoRelatedController.RelatedResultsFailIff | src/main/java/com/atex/plugins/autorelated/AutoRelatedController.java:141-170 | `getResults` fails exactly when reading the opt-out fails for content with metadata; or, when related content is to be calculated, when the input template cannot be read; or, when the metadata clause is non-empty, when the maximum does not parse, the source list cannot be read, or for a non-empty source list the version information or a source policy cannot be read |
| AutoRelatedController.RelatedSearchExcludesRelated | src/main/java/com/atex/plugins/autorelated/AutoRelatedController.java:152-155 | the search uses the configured maximum and excludes every hand-picked related id |
| AutoRelatedController.RelatedSearchExcludesSelf | src/main/java/com/atex/plugins/autorelated/AutoRelatedController.java:150-155 | when custom decorators keep existing filters, the first exclusion of the search is the item itself |
| AutoRelatedController.IdsCache.GetOrLoad | src/main/java/com/atex/plugins/autorelated/AutoRelatedController.java:98-113 | a cached key returns its ids and changes nothing; a missing key runs `getResults` and caches a success only; cached lists stay duplicate-free |
| AutoRelatedController.RelatedEntry | src/main/java/com/atex/plugins/autorelated/AutoRelatedController.java:78-86 | "related" is set exactly when there are results, to those results; a caught `CMException` leaves it unset; other failures propagate |
| AutoRelatedController.PopulateRelated | src/main/java/com/atex/plugins/autorelated/AutoRelatedController.java:61-88 | nothing happens unless the settings exist and are enabled and the item's policy was fetched; otherwise the outcome follows the cache under the results key, and on a miss a successful load is cached and a failed one caches nothing; "related" is never set to an empty or duplicated list |

## Left out

- The results cache's size bound of 1000, its ten-minute expiry after access and its single-flight loading are not modelled. These are Guava behaviour plus concurrency and wall-clock time. The cache is a map that only grows.
- `OSearchResultWidget` is not part of this model. It is an Orchid UI widget and repeats the `SearchUtil` calls.
- The Solr search client is not modelled. It is a function from a query and a page-size hint to the hit pages. The metadata query builder is a function from metadata to the clause. `SolrQuery.toString` is a function from a query to a string. The custom decorators of decorator sources are a function from source and query to query.
- The recency boosts are constant strings passed to Solr. Their date arithmetic is not modelled.
- `getSiteSettings`, `getMetadata`, `getSiteSettingsPolicy` and `getContentListModel` are not modelled, nor the page and application checks at the top of `populateModelBeforeCacheKey`. The settings, the item's metadata and whether the item's policy could be fetched are inputs.
- The `CMRuntimeException` catch in `getResults` (AutoRelatedController.java:146-161) is not modelled. In the source, such an exception from any call the `try` covers (`filterMetadata`, the component read of `shouldCalculateRelated`, `getSolrQuery`, `performSearch` and the foreign calls they make) becomes an empty result list, which is then cached under the key. The model's collaborators raise no runtime exceptions, so that path does not arise in it.
- AutoRelatedController.RelatedResultsFailIff: a `CMException` from reading one entry of a content list (`ContentList.getEntry` at AutoRelatedController.java:134 and SearchUtil.java:124, the sources iterator at SiteSettingsPolicy.java:57-59) is not modelled. A content list whose read succeeded is modelled as the sequence of its entries; only the failure of reading the list itself is.
- `getChildValue` is assumed to return its default only when nothing is stored. A stored empty string is then parsed, so `GetMaxResults` and `GetCacheTime` give a `NumberFormatException` for it.
- `Metadata.getDimensionById` is assumed to return the first dimension with the id, and `Metadata.addDimension` to append.
- `StringUtil.isEmpty` is assumed to mean null or empty, so a missing or empty "allowAutorelated" value allows related content.
- Logging is not modelled.
- `getIdsCacheKey` returns the policy's (possibly versioned) content-id string. That string is an input of the item.
- Field names are fixed as "contentId", "publishingDate" and "inputTemplate". The filter of `WithInputTemplate` is written as `inputTemplate:"<template>"`. These come from libraries outside this model.
- JavaLang.ParseInt: accepts only the ASCII digits 0-9. `Integer.parseInt` accepts any Unicode decimal digit (through `Character.digit`), so "١٢" reads as 12 in Java but gives a `NumberFormatException` in the model.
- AutoRelatedController.IdsCache.GetOrLoad: a `NumberFormatException` of the load propagates as itself. Guava wraps it in an `UncheckedExecutionException`; either way it escapes the `CMException` catch of `populateModelBeforeCacheKey`.
- `excludeRelated` adds to the `WithDecorators` chain in place. The model returns the extended chain instead. The chain comes fresh from `getDecorators` on every call, so no other holder sees the change.
- AutoRelatedController.RelatedSearchExcludesSelf: the self-exclusion is proved only for custom decorators that keep existing filters. A source decorator may rewrite the query arbitrarily.
- CacheKey.ListStringRoundTrip: stated only for content ids that are non-empty and contain no comma. Content-id strings have that form ("1.234").

## Findings

| source | as written | input that shows it | evidently intended | confidence | as-written member | corrected member |
|---|---|---|---|---|---|---|
| src/main/java/com/atex/plugins/autorelated/SiteSettingsPolicy.java:37-40 | `value * 1000` is multiplied as an `int` and then widened to the `long` return type, so it wraps for stored seconds beyond ±2147483 | cacheTime "2147484" gives -2147483296 instead of 2147484000 | the product computed as a `long`, exact for every stored `int` | medium, not executed | SiteSettingsPolicy.CacheTimeExactIff | SiteSettingsPolicy.GetCacheTimeMillis |
