/** The entities the related-content engine works on: content ids, metadata
    dimensions, search queries, query decorators and the policies the
    content store hands back. */
module Types {
  import opened Wrappers

  /** A Polopoly content id, identified by its content-id string
      (`getContentIdString()`, e.g. "1.234"). */
  datatype ContentId = ContentId(idString: string)

  /** What `PolicyCMServer.getPolicy` is asked for: a plain content id, or
      the versioned id naming the latest version of it. */
  datatype PolicyRef = Plain(id: ContentId) | LatestVersionOf(id: ContentId)

  /** A metadata dimension: its id and the ids of its entities. */
  datatype Dimension = Dimension(id: string, entities: seq<string>)

  /** Metadata is an ordered list of dimensions. */
  type Metadata = seq<Dimension>

  /** A Solr query: the main query string, the filter queries in the order
      they were added, the named parameters and the sort clauses. */
  datatype Query = Query(q: string, filters: seq<string>, params: map<string, string>, sorts: seq<string>)

  /** `new SolrQuery(q)`. */
  function NewQuery(q: string): Query {
    Query(q, [], map[], [])
  }

  /** A query decorator: the two built-in ones the plugin creates itself, and
      a decorator obtained from a configured decorator source, whose effect
      is outside this model and is identified by the source's content id. */
  datatype Decorator =
    | WithoutContentId(contentIds: Option<seq<ContentId>>)
    | WithInputTemplate(inputTemplate: string)
    | SourceDecorator(source: ContentId)

  /** The capability of a policy returned by the content store, standing for
      the `instanceof` tests of the source. */
  datatype Policy =
    | CategoryDimensionPolicy(dimension: Dimension)  // converted from its categorization
    | DecoratorPolicy(decorator: Decorator)
    | OtherPolicy

  /** Outcome of `PolicyCMServer.contentExists` for one id. */
  datatype Existence = Exists | Missing | StoreError
}
