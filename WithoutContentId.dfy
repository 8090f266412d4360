/** The `WithoutContentId` query decorator: one negative filter query per
    content id it was built with. */
module WithoutContentIdDecorator {
  import opened Wrappers
  import opened Types

  /** The name `IndexFields.CONTENT_ID` prints as. */
  const ContentIdField: string := "contentId"
  const FilterPrefix: string := "-(" + ContentIdField + ":\""
  const FilterSuffix: string := "\")"

  /** The content-id string a filter query excludes, when the filter has the
      shape `-(contentId:"…")`. */
  function ExcludedIdString(f: string): Option<string> {
    if |f| >= |FilterPrefix| + |FilterSuffix|
       && f[..|FilterPrefix|] == FilterPrefix
       && f[|f| - |FilterSuffix|..] == FilterSuffix
    then Some(f[|FilterPrefix|..|f| - |FilterSuffix|])
    else None
  }

  /** The filter query excluding one content id. */
  function ExclusionFilter(id: ContentId): (f: string)
    ensures ExcludedIdString(f) == Some(id.idString)
  {
    var f := FilterPrefix + id.idString + FilterSuffix;
    assert f[..|FilterPrefix|] == FilterPrefix;
    assert f[|f| - |FilterSuffix|..] == FilterSuffix;
    assert f[|FilterPrefix|..|f| - |FilterSuffix|] == id.idString;
    f
  }

  /** The content-id strings excluded by a list of filter queries, in order. */
  function ExcludedIdStrings(fs: seq<string>): seq<string> {
    if fs == [] then []
    else
      var rest := ExcludedIdStrings(fs[..|fs| - 1]);
      match ExcludedIdString(fs[|fs| - 1])
      case Some(k) => rest + [k]
      case None => rest
  }

  function IdStrings(ids: seq<ContentId>): (r: seq<string>)
    ensures |r| == |ids| && forall i :: 0 <= i < |ids| ==> r[i] == ids[i].idString
  {
    if ids == [] then [] else IdStrings(ids[..|ids| - 1]) + [ids[|ids| - 1].idString]
  }

  /** The filter queries `decorate` appends for `ids`, one per id in order;
      read back, they exclude exactly those ids. */
  function ExclusionFilters(ids: seq<ContentId>): (fs: seq<string>)
    ensures |fs| == |ids|
    ensures forall i :: 0 <= i < |ids| ==> ExcludedIdString(fs[i]) == Some(ids[i].idString)
    ensures ExcludedIdStrings(fs) == IdStrings(ids)
  {
    if ids == [] then []
    else
      var fs := ExclusionFilters(ids[..|ids| - 1]) + [ExclusionFilter(ids[|ids| - 1])];
      assert fs[..|fs| - 1] == ExclusionFilters(ids[..|ids| - 1]);
      fs
  }

  /** The filter queries appended by a decorator whose id array may be null. */
  function FiltersFor(contentIds: Option<seq<ContentId>>): seq<string> {
    match contentIds
    case None => []
    case Some(ids) => ExclusionFilters(ids)
  }

  /** The array constructor, `new WithoutContentId(ContentId[])`. */
  function FromContentIds(contentIds: Option<seq<ContentId>>): Decorator {
    WithoutContentId(contentIds)
  }

  /** The single-id constructor, `new WithoutContentId(ContentId)`: the same
      decorator as the array constructor given a one-element array. */
  function FromContentId(id: ContentId): (d: Decorator)
    ensures d == FromContentIds(Some([id]))
    ensures FiltersFor(d.contentIds) == [ExclusionFilter(id)]
  {
    WithoutContentId(Some([id]))
  }

  /** Excluded ids of concatenated filter lists concatenate. */
  lemma {:induction false} ExcludedIdStringsAppend(a: seq<string>, b: seq<string>)
    ensures ExcludedIdStrings(a + b) == ExcludedIdStrings(a) + ExcludedIdStrings(b)
  {
    if b != [] {
      var b' := b[..|b| - 1];
      assert (a + b)[..|a + b| - 1] == a + b';
      assert (a + b)[|a + b| - 1] == b[|b| - 1];
      ExcludedIdStringsAppend(a, b');
    } else {
      assert a + b == a;
    }
  }

  /** What `decorate` makes of a query: the query with the decorator's
      exclusion filters appended. */
  function Decorated(contentIds: Option<seq<ContentId>>, query: Query): Query {
    query.(filters := query.filters + FiltersFor(contentIds))
  }

  /** `WithoutContentId.decorate`: appends one exclusion filter per content
      id, in array order, and changes nothing else; with a null array the
      query comes back unchanged. */
  method Decorate(contentIds: Option<seq<ContentId>>, query: Query) returns (r: Query)
    ensures r == Decorated(contentIds, query)
    ensures r.q == query.q && r.params == query.params && r.sorts == query.sorts
    ensures r.filters == query.filters + FiltersFor(contentIds)
    ensures contentIds.None? ==> r == query
    ensures contentIds.Some? ==>
      ExcludedIdStrings(r.filters) == ExcludedIdStrings(query.filters) + IdStrings(contentIds.value)
  {
    r := query;
    if contentIds.Some? {
      var ids := contentIds.value;
      var i := 0;
      while i < |ids|
        invariant 0 <= i <= |ids|
        invariant r == query.(filters := query.filters + ExclusionFilters(ids[..i]))
      {
        assert ids[..i + 1][..i] == ids[..i];
        r := r.(filters := r.filters + [ExclusionFilter(ids[i])]);
        i := i + 1;
      }
      assert ids[..i] == ids;
      ExcludedIdStringsAppend(query.filters, ExclusionFilters(ids));
    } else {
      assert query.filters + [] == query.filters;
    }
  }
}
