/** `SiteSettingsPolicy`: the per-site settings of the plugin, read from the
    settings content's child values and content lists, with their defaults. */
module SiteSettingsPolicy {
  import opened Wrappers
  import opened JavaLang
  import opened Types

  /** The settings content: its id, its stored child values, whether the
      current version is committed, and the two content lists
      "autorelatedCategorization" (the dimension whitelist) and
      "autorelatedSources" (the decorator sources). Reading the version
      info or either content list goes to the store and may throw. */
  datatype SiteSettings = SiteSettings(
    contentId: ContentId,
    childValues: map<string, string>,
    committed: Result<bool>,
    categorization: Result<seq<ContentId>>,
    sources: Result<seq<ContentId>>)

  /** How the content store resolves a policy reference. */
  type PolicyLookup = PolicyRef -> Result<Policy>

  /** `getChildValue(name, default)`: the stored value, or the default when
      nothing is stored under `name`. */
  function GetChildValue(s: SiteSettings, name: string, default: string): string {
    if name in s.childValues then s.childValues[name] else default
  }

  /** `getChildValueAsBoolean`: the default when unset, otherwise whether the
      stored value is "true" in some letter case. */
  function GetChildValueAsBoolean(s: SiteSettings, name: string, default: bool): (r: bool)
    ensures name !in s.childValues ==> r == default
    ensures name in s.childValues ==> (r <==> EqualsIgnoreCase(s.childValues[name], "true"))
  {
    ParseBoolean(GetChildValue(s, name, BooleanToString(default)))
  }

  /** `isEnabled`: false unless "enabled" is stored as "true" in some letter case. */
  function IsEnabled(s: SiteSettings): (r: bool)
    ensures r <==> "enabled" in s.childValues && EqualsIgnoreCase(s.childValues["enabled"], "true")
  {
    GetChildValueAsBoolean(s, "enabled", false)
  }

  /** `isAjax`: false unless "ajax" is stored as "true" in some letter case. */
  function IsAjax(s: SiteSettings): (r: bool)
    ensures r <==> "ajax" in s.childValues && EqualsIgnoreCase(s.childValues["ajax"], "true")
  {
    GetChildValueAsBoolean(s, "ajax", false)
  }

  /** `getMaxResults`: 5 when unset, otherwise `Integer.parseInt` of the
      stored value, which throws on a malformed number. */
  function GetMaxResults(s: SiteSettings): (r: Result<int>)
    ensures "maxResults" !in s.childValues ==> r == Ok(5)
    ensures "maxResults" in s.childValues ==> r == ParseInt(s.childValues["maxResults"])
    ensures r.Ok? ==> IsInt32(r.value)
    ensures r.Err? ==> r.error == NumberFormatException
  {
    ParseInt(GetChildValue(s, "maxResults", "5"))
  }

  /** A maximum stored as the decimal text of an `int` reads back as that `int`. */
  lemma MaxResultsOfStoredInt(s: SiteSettings, n: int)
    requires IsInt32(n) && "maxResults" in s.childValues && s.childValues["maxResults"] == IntToString(n)
    ensures GetMaxResults(s) == Ok(n)
  {
    ParseIntOfIntToString(n);
  }

  /** A stored maximum that is not an optional sign followed by decimal
      digits, or whose value does not fit in an `int`, makes `getMaxResults`
      throw; a well-formed one that fits is read as its value. */
  lemma MaxResultsOfStoredText(s: SiteSettings)
    requires "maxResults" in s.childValues
    ensures var v := s.childValues["maxResults"];
      && (!WellFormedInt(v) ==> GetMaxResults(s) == Err(NumberFormatException))
      && (WellFormedInt(v) && !IsInt32(SignedValue(v)) ==> GetMaxResults(s) == Err(NumberFormatException))
      && (WellFormedInt(v) && IsInt32(SignedValue(v)) ==> GetMaxResults(s) == Ok(SignedValue(v)))
  {
    ParseIntExact(s.childValues["maxResults"]);
  }

  /** `getCacheTime`, as written: seconds times 1000, multiplied as an `int`
      (so it wraps) and only then widened to `long`; 0 when unset. */
  function GetCacheTime(s: SiteSettings): (r: Result<int>)
    ensures "cacheTime" !in s.childValues ==> r == Ok(0)
    ensures r.Ok? ==> IsInt32(r.value)
    ensures forall v :: ParseInt(GetChildValue(s, "cacheTime", "0")) == Ok(v) ==> r == Ok(Wrap32(v * 1000))
    ensures ParseInt(GetChildValue(s, "cacheTime", "0")).Err? ==> r == Err(NumberFormatException)
  {
    match ParseInt(GetChildValue(s, "cacheTime", "0"))
    case Err(e) => Err(e)
    case Ok(value) => Ok(Wrap32(value * 1000))
  }

  /** The milliseconds `getCacheTime` returns are the stored seconds times
      1000 exactly when the stored value is within ±2147483; beyond that the
      `int` product wraps. */
  lemma CacheTimeExactIff(s: SiteSettings, v: int)
    requires ParseInt(GetChildValue(s, "cacheTime", "0")) == Ok(v)
    ensures GetCacheTime(s) == Ok(v * 1000) <==> -2147483 <= v <= 2147483
  {
    assert IsInt32(v * 1000) <==> -2147483 <= v <= 2147483;
  }

  /** `getCacheTime` with the multiplication done in `long`, as the `long`
      return type evidently intends: exact for every stored `int`. */
  function GetCacheTimeMillis(s: SiteSettings): (r: Result<int>)
    ensures "cacheTime" !in s.childValues ==> r == Ok(0)
    ensures forall v :: ParseInt(GetChildValue(s, "cacheTime", "0")) == Ok(v) ==> r == Ok(v * 1000)
    ensures r.Ok? ==> -MaxInt64 <= r.value <= MaxInt64
    ensures r.Ok? ==> r.value % 1000 == 0
  {
    match ParseInt(GetChildValue(s, "cacheTime", "0"))
    case Err(e) => Err(e)
    case Ok(value) => Ok(value * 1000)
  }

  /** `getMinimumMatch`: the stored value, or "" when unset. */
  function GetMinimumMatch(s: SiteSettings): (r: string)
    ensures "minimumMatch" !in s.childValues ==> r == ""
    ensures "minimumMatch" in s.childValues ==> r == s.childValues["minimumMatch"]
  {
    GetChildValue(s, "minimumMatch", "")
  }

  /** `getDecorator`'s lookup key: the plain content id when the settings
      content is committed, the latest version of it otherwise. */
  function DecoratorRef(committed: bool, cid: ContentId): PolicyRef {
    if committed then Plain(cid) else LatestVersionOf(cid)
  }

  /** The decorators `getDecorators` collects: each source entry's policy is
      looked up in list order; the decorator of a decorator policy is kept,
      any other policy is skipped, and a failing lookup throws. */
  function SourceDecorators(sources: seq<ContentId>, committed: bool, policyOf: PolicyLookup): Result<seq<Decorator>> {
    if sources == [] then Ok([])
    else
      match SourceDecorators(sources[..|sources| - 1], committed, policyOf)
      case Err(e) => Err(e)
      case Ok(ds) =>
        match policyOf(DecoratorRef(committed, sources[|sources| - 1]))
        case Err(e) => Err(e)
        case Ok(p) => Ok(if p.DecoratorPolicy? then ds + [p.decorator] else ds)
  }

  /** `getDecorators` throws exactly when some source entry fails to resolve. */
  lemma {:induction false} SourceDecoratorsFailIff(sources: seq<ContentId>, committed: bool, policyOf: PolicyLookup)
    ensures SourceDecorators(sources, committed, policyOf).Err? <==>
      exists i :: 0 <= i < |sources| && policyOf(DecoratorRef(committed, sources[i])).Err?
  {
    if sources != [] {
      var prefix := sources[..|sources| - 1];
      SourceDecoratorsFailIff(prefix, committed, policyOf);
      if exists i :: 0 <= i < |prefix| && policyOf(DecoratorRef(committed, prefix[i])).Err? {
        var i :| 0 <= i < |prefix| && policyOf(DecoratorRef(committed, prefix[i])).Err?;
        assert sources[i] == prefix[i];
      }
      if exists i :: 0 <= i < |sources| && policyOf(DecoratorRef(committed, sources[i])).Err? {
        var i :| 0 <= i < |sources| && policyOf(DecoratorRef(committed, sources[i])).Err?;
        if i < |prefix| {
          assert prefix[i] == sources[i];
        }
      }
    }
  }

  /** When `getDecorators` succeeds, its decorators are exactly those of the
      source entries that resolve to a decorator policy: no more than one per
      entry, each taken from some entry, and every such entry's included. */
  lemma {:induction false} SourceDecoratorsExact(sources: seq<ContentId>, committed: bool, policyOf: PolicyLookup)
    requires SourceDecorators(sources, committed, policyOf).Ok?
    ensures var ds := SourceDecorators(sources, committed, policyOf).value;
      && |ds| <= |sources|
      && (forall d :: d in ds ==>
            exists i :: 0 <= i < |sources| && policyOf(DecoratorRef(committed, sources[i])) == Ok(DecoratorPolicy(d)))
      && (forall i, d :: 0 <= i < |sources| && policyOf(DecoratorRef(committed, sources[i])) == Ok(DecoratorPolicy(d)) ==>
            d in ds)
  {
    if sources != [] {
      var prefix := sources[..|sources| - 1];
      var last := sources[|sources| - 1];
      SourceDecoratorsExact(prefix, committed, policyOf);
      var before := SourceDecorators(prefix, committed, policyOf).value;
      var ds := SourceDecorators(sources, committed, policyOf).value;
      forall d | d in ds
        ensures exists i :: 0 <= i < |sources| && policyOf(DecoratorRef(committed, sources[i])) == Ok(DecoratorPolicy(d))
      {
        if d in before {
          var i :| 0 <= i < |prefix| && policyOf(DecoratorRef(committed, prefix[i])) == Ok(DecoratorPolicy(d));
          assert sources[i] == prefix[i];
        } else {
          assert policyOf(DecoratorRef(committed, sources[|sources| - 1])) == Ok(DecoratorPolicy(d));
        }
      }
      forall i, d | 0 <= i < |sources| && policyOf(DecoratorRef(committed, sources[i])) == Ok(DecoratorPolicy(d))
        ensures d in ds
      {
        if i < |prefix| {
          assert prefix[i] == sources[i];
        }
      }
    }
  }

  /** A failure on a prefix of the source list is the failure of the whole list. */
  lemma {:induction false} SourceDecoratorsPrefixFailure(sources: seq<ContentId>, k: nat, committed: bool, policyOf: PolicyLookup)
    requires k <= |sources| && SourceDecorators(sources[..k], committed, policyOf).Err?
    ensures SourceDecorators(sources, committed, policyOf) == SourceDecorators(sources[..k], committed, policyOf)
    decreases |sources| - k
  {
    if k < |sources| {
      var prefix := sources[..|sources| - 1];
      assert prefix[..k] == sources[..k];
      SourceDecoratorsPrefixFailure(prefix, k, committed, policyOf);
    } else {
      assert sources[..k] == sources;
    }
  }

  /** What `getDecorators` returns: reading the source list may throw; each
      entry's lookup first reads the version info, which may throw too, and
      then resolves the entry. */
  function Decorators(s: SiteSettings, policyOf: PolicyLookup): Result<seq<Decorator>> {
    match s.sources
    case Err(e) => Err(e)
    case Ok(sources) =>
      if sources == [] then Ok([])
      else
        match s.committed
        case Err(e) => Err(e)
        case Ok(committed) => SourceDecorators(sources, committed, policyOf)
  }

  /** `getDecorators` throws exactly when the source list cannot be read, or
      it has entries and the version info cannot be read or some entry
      fails to resolve. */
  lemma DecoratorsFailIff(s: SiteSettings, policyOf: PolicyLookup)
    ensures Decorators(s, policyOf).Err? <==>
      s.sources.Err?
      || (s.sources.value != []
          && (s.committed.Err?
              || exists i :: 0 <= i < |s.sources.value| && policyOf(DecoratorRef(s.committed.value, s.sources.value[i])).Err?))
  {
    if s.sources.Ok? && s.sources.value != [] && s.committed.Ok? {
      SourceDecoratorsFailIff(s.sources.value, s.committed.value, policyOf);
    }
  }

  /** `getDecorators`: reads the source list, then walks it with an
      iterator, looking up each entry and adding the decorator of each entry
      whose policy is a decorator. */
  method GetDecorators(s: SiteSettings, policyOf: PolicyLookup) returns (r: Result<seq<Decorator>>)
    ensures r == Decorators(s, policyOf)
  {
    if s.sources.Err? {
      return Err(s.sources.error);
    }
    var sources := s.sources.value;
    var decorators: seq<Decorator> := [];
    var i := 0;
    while i < |sources|
      invariant 0 <= i <= |sources|
      invariant i == 0 ==> decorators == []
      invariant i > 0 ==> s.committed.Ok? && SourceDecorators(sources[..i], s.committed.value, policyOf) == Ok(decorators)
    {
      if s.committed.Err? {
        return Err(s.committed.error);
      }
      var committed := s.committed.value;
      assert sources[..i + 1][..i] == sources[..i];
      var decorator := policyOf(DecoratorRef(committed, sources[i]));
      if decorator.Err? {
        SourceDecoratorsPrefixFailure(sources, i + 1, committed, policyOf);
        return Err(decorator.error);
      }
      if decorator.value.DecoratorPolicy? {
        decorators := decorators + [decorator.value.decorator];
      }
      i := i + 1;
    }
    assert sources[..i] == sources;
    r := Ok(decorators);
  }
}
