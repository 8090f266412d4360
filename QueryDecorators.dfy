/** A `WithDecorators` chain: decorators applied to a query one after the
    other, in the order they were added. */
module QueryDecorators {
  import opened Wrappers
  import opened Types
  import opened WithoutContentIdDecorator

  /** What a decorator taken from a configured decorator source does to a
      query; the decorator's code is not part of this model. */
  type CustomDecorate = (ContentId, Query) -> Query

  /** Stands in for the custom decorators where a chain has none. */
  const NoCustom: CustomDecorate := (src: ContentId, q: Query) => q

  /** The name `IndexFields.INPUT_TEMPLATE` prints as. */
  const InputTemplateField: string := "inputTemplate"

  /** The filter query `WithInputTemplate` adds: restrict to one input template. */
  function InputTemplateFilter(inputTemplate: string): (f: string)
    ensures ExcludedIdString(f).None?
  {
    var f := InputTemplateField + ":\"" + inputTemplate + "\"";
    assert f[0] == 'i' && FilterPrefix[0] == '-';
    f
  }

  /** `QueryDecorator.decorate` for one decorator; a `WithoutContentId`
      decorator does what its `Decorate` method computes. */
  function Apply(d: Decorator, q: Query, custom: CustomDecorate): Query {
    match d
    case WithoutContentId(ids) => Decorated(ids, q)
    case WithInputTemplate(t) => q.(filters := q.filters + [InputTemplateFilter(t)])
    case SourceDecorator(src) => custom(src, q)
  }

  /** `WithDecorators.decorate`: the decorators applied in chain order. */
  function DecorateAll(chain: seq<Decorator>, q: Query, custom: CustomDecorate): Query {
    if chain == [] then q
    else Apply(chain[|chain| - 1], DecorateAll(chain[..|chain| - 1], q, custom), custom)
  }

  /** A custom decorator that keeps the filter queries already present. */
  ghost predicate KeepsFilters(custom: CustomDecorate) {
    forall src: ContentId, q: Query :: |q.filters| <= |custom(src, q).filters| && custom(src, q).filters[..|q.filters|] == q.filters
  }

  predicate IsPrefix<T(==)>(a: seq<T>, b: seq<T>) {
    |a| <= |b| && b[..|a|] == a
  }

  /** Decorating with `a + b` is decorating with `a`, then with `b`. */
  lemma {:induction false} DecorateAllAppend(a: seq<Decorator>, b: seq<Decorator>, q: Query, custom: CustomDecorate)
    ensures DecorateAll(a + b, q, custom) == DecorateAll(b, DecorateAll(a, q, custom), custom)
  {
    if b == [] {
      assert a + b == a;
    } else {
      assert (a + b)[..|a + b| - 1] == a + b[..|b| - 1];
      assert (a + b)[|a + b| - 1] == b[|b| - 1];
      DecorateAllAppend(a, b[..|b| - 1], q, custom);
    }
  }

  /** A chain whose custom decorators keep existing filters only ever appends
      filter queries; a chain of built-in decorators also leaves the main
      query, the parameters and the sort clauses alone. */
  lemma {:induction false} DecorateAllExtendsFilters(chain: seq<Decorator>, q: Query, custom: CustomDecorate)
    requires KeepsFilters(custom)
    ensures IsPrefix(q.filters, DecorateAll(chain, q, custom).filters)
    ensures (forall i :: 0 <= i < |chain| ==> !chain[i].SourceDecorator?) ==>
      var r := DecorateAll(chain, q, custom);
      r.q == q.q && r.params == q.params && r.sorts == q.sorts
  {
    if chain != [] {
      var prefix := chain[..|chain| - 1];
      DecorateAllExtendsFilters(prefix, q, custom);
      var p := DecorateAll(prefix, q, custom);
      var r := Apply(chain[|chain| - 1], p, custom);
      assert IsPrefix(p.filters, r.filters);
    }
  }

  /** Every content id a query excluded stays excluded, in the same place,
      after a chain whose custom decorators keep existing filters. */
  lemma DecorateAllKeepsExclusions(chain: seq<Decorator>, q: Query, custom: CustomDecorate)
    requires KeepsFilters(custom)
    ensures IsPrefix(ExcludedIdStrings(q.filters), ExcludedIdStrings(DecorateAll(chain, q, custom).filters))
  {
    var r := DecorateAll(chain, q, custom);
    DecorateAllExtendsFilters(chain, q, custom);
    assert r.filters == q.filters + r.filters[|q.filters|..];
    ExcludedIdStringsAppend(q.filters, r.filters[|q.filters|..]);
  }
}
