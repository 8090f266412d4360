/** The strings `AutoRelatedController` builds for its results cache: the
    whitelist rendering of `getContentListToString`, the settings fingerprint
    of `getSettingsCacheKey` and the full key. */
module CacheKey {
  import opened Wrappers
  import opened JavaLang
  import opened Types
  import opened WithoutContentIdDecorator

  /** The strings joined with "," between consecutive ones. */
  function JoinComma(parts: seq<string>): string {
    if parts == [] then ""
    else if |parts| == 1 then parts[0]
    else parts[0] + "," + JoinComma(parts[1..])
  }

  /** `getContentListToString`: "[" + the entries' content-id strings joined
      by "," + "]". */
  function ListString(ids: seq<ContentId>): string {
    "[" + JoinComma(IdStrings(ids)) + "]"
  }

  lemma {:induction false} JoinCommaSnoc(parts: seq<string>, x: string)
    requires parts != []
    ensures JoinComma(parts + [x]) == JoinComma(parts) + "," + x
  {
    if |parts| == 1 {
      assert (parts + [x])[1..] == [x];
    } else {
      assert (parts + [x])[1..] == parts[1..] + [x];
      JoinCommaSnoc(parts[1..], x);
    }
  }

  /** `getContentListToString`: the StringBuilder loop, a comma before every
      entry but the first. */
  method ContentListToString(list: seq<ContentId>) returns (s: string)
    ensures s == ListString(list)
  {
    var sb := "[";
    var idx := 0;
    while idx < |list|
      invariant 0 <= idx <= |list|
      invariant sb == "[" + JoinComma(IdStrings(list[..idx]))
    {
      assert list[..idx + 1] == list[..idx] + [list[idx]];
      assert IdStrings(list[..idx + 1]) == IdStrings(list[..idx]) + [list[idx].idString];
      if idx > 0 {
        JoinCommaSnoc(IdStrings(list[..idx]), list[idx].idString);
        sb := sb + ",";
      } else {
        assert IdStrings(list[..idx]) == [];
      }
      sb := sb + list[idx].idString;
      idx := idx + 1;
    }
    assert list[..idx] == list;
    s := sb + "]";
  }

  // ---------------------------------------------------------------------
  // Reading a whitelist rendering back

  predicate CommaFree(s: string) {
    forall i :: 0 <= i < |s| ==> s[i] != ','
  }

  function FirstComma(s: string): (k: nat)
    requires !CommaFree(s)
    ensures k < |s| && s[k] == ',' && CommaFree(s[..k])
  {
    if s[0] == ',' then 0 else 1 + FirstComma(s[1..])
  }

  /** The pieces of `s` between commas. */
  function SplitComma(s: string): seq<string>
    decreases |s|
  {
    if CommaFree(s) then [s]
    else
      var k := FirstComma(s);
      [s[..k]] + SplitComma(s[k + 1..])
  }

  /** Splitting at commas undoes joining with commas, for comma-free parts. */
  lemma {:induction false} SplitJoinComma(parts: seq<string>)
    requires parts != [] && forall i :: 0 <= i < |parts| ==> CommaFree(parts[i])
    ensures SplitComma(JoinComma(parts)) == parts
  {
    if |parts| > 1 {
      var a := parts[0];
      var s := JoinComma(parts);
      assert s == a + "," + JoinComma(parts[1..]);
      assert s[|a|] == ',';
      var k := FirstComma(s);
      assert s[..k] == a;
      assert s[k + 1..] == JoinComma(parts[1..]);
      SplitJoinComma(parts[1..]);
      assert parts == [a] + parts[1..];
    }
  }

  /** The content-id strings a whitelist rendering lists. */
  function ParseListString(s: string): Option<seq<string>> {
    if |s| >= 2 && s[0] == '[' && s[|s| - 1] == ']' then
      var inner := s[1..|s| - 1];
      if inner == "" then Some([]) else Some(SplitComma(inner))
    else None
  }

  /** The whitelist rendering is unambiguous for real content ids (non-empty,
      no commas): it reads back as the listed ids, in order. */
  lemma ListStringRoundTrip(ids: seq<ContentId>)
    requires forall i :: 0 <= i < |ids| ==> ids[i].idString != "" && CommaFree(ids[i].idString)
    ensures ParseListString(ListString(ids)) == Some(IdStrings(ids))
  {
    var parts := IdStrings(ids);
    var inner := JoinComma(parts);
    var s := "[" + inner + "]";
    assert s == ListString(ids);
    assert s[1..|s| - 1] == inner;
    if ids == [] {
      assert inner == "";
    } else {
      PartsCommaFree(ids);
      JoinCommaNonEmpty(parts);
      SplitJoinComma(parts);
    }
  }

  lemma PartsCommaFree(ids: seq<ContentId>)
    requires forall i :: 0 <= i < |ids| ==> ids[i].idString != "" && CommaFree(ids[i].idString)
    ensures forall i :: 0 <= i < |IdStrings(ids)| ==> CommaFree(IdStrings(ids)[i])
    ensures ids != [] ==> IdStrings(ids)[0] != ""
  {
  }

  lemma JoinCommaNonEmpty(parts: seq<string>)
    requires parts != [] && parts[0] != ""
    ensures JoinComma(parts) != ""
  {
    if |parts| > 1 {
      assert JoinComma(parts) == parts[0] + "," + JoinComma(parts[1..]);
    }
  }

  // ---------------------------------------------------------------------
  // The keys

  /** `getSettingsCacheKey`'s fingerprint: the settings id, the maximum, the
      minimum match, the whitelist rendering and the rendering of an empty
      query decorated by the configured decorators, joined with ";". */
  function SettingsKeyOf(settingsId: string, maxResults: int, minimumMatch: string, whitelist: string, decorated: string): string {
    settingsId + ";" + IntToString(maxResults) + ";" + minimumMatch + ";" + whitelist + ";" + decorated
  }

  /** The cache key of line 102: settings fingerprint, "-", content id string. */
  function CacheKeyOf(settingsKey: string, idsKey: string): string {
    settingsKey + "-" + idsKey
  }

  /** Changing one middle piece of a concatenation changes the result. */
  lemma ConcatDistinct(p: string, x: string, y: string, t: string)
    requires x != y
    ensures p + x + t != p + y + t
  {
    if |x| == |y| {
      var i :| 0 <= i < |x| && x[i] != y[i];
      assert (p + x + t)[|p| + i] == x[i];
      assert (p + y + t)[|p| + i] == y[i];
    } else {
      assert |p + x + t| != |p + y + t|;
    }
  }

  /** Settings that differ only in their minimum match get different keys. */
  lemma SettingsKeyDistinguishesMinimumMatch(id: string, n: int, mm1: string, mm2: string, w: string, d: string)
    requires mm1 != mm2
    ensures SettingsKeyOf(id, n, mm1, w, d) != SettingsKeyOf(id, n, mm2, w, d)
  {
    var p := id + ";" + IntToString(n) + ";";
    var t := ";" + w + ";" + d;
    ConcatDistinct(p, mm1, mm2, t);
    assert SettingsKeyOf(id, n, mm1, w, d) == p + mm1 + t;
    assert SettingsKeyOf(id, n, mm2, w, d) == p + mm2 + t;
  }

  /** Settings that differ only in their maximum get different keys. */
  lemma SettingsKeyDistinguishesMaxResults(id: string, n1: int, n2: int, mm: string, w: string, d: string)
    requires IsInt32(n1) && IsInt32(n2) && n1 != n2
    ensures SettingsKeyOf(id, n1, mm, w, d) != SettingsKeyOf(id, n2, mm, w, d)
  {
    IntToStringInjective(n1, n2);
    var p := id + ";";
    var t := ";" + mm + ";" + w + ";" + d;
    ConcatDistinct(p, IntToString(n1), IntToString(n2), t);
    assert SettingsKeyOf(id, n1, mm, w, d) == p + IntToString(n1) + t;
    assert SettingsKeyOf(id, n2, mm, w, d) == p + IntToString(n2) + t;
  }

  /** For the same content item, different settings fingerprints give
      different keys. */
  lemma CacheKeyDistinguishesSettings(a: string, b: string, idsKey: string)
    requires a != b
    ensures CacheKeyOf(a, idsKey) != CacheKeyOf(b, idsKey)
  {
    if |a| == |b| {
      var i :| 0 <= i < |a| && a[i] != b[i];
      assert CacheKeyOf(a, idsKey)[i] == a[i];
      assert CacheKeyOf(b, idsKey)[i] == b[i];
    } else {
      assert |CacheKeyOf(a, idsKey)| != |CacheKeyOf(b, idsKey)|;
    }
  }

  /** Under the same settings, different content items get different keys. */
  lemma CacheKeyDistinguishesContent(settingsKey: string, a: string, b: string)
    requires a != b
    ensures CacheKeyOf(settingsKey, a) != CacheKeyOf(settingsKey, b)
  {
    ConcatDistinct(settingsKey + "-", a, b, "");
    assert CacheKeyOf(settingsKey, a) == settingsKey + "-" + a + "";
    assert CacheKeyOf(settingsKey, b) == settingsKey + "-" + b + "";
  }
}
