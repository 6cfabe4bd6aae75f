/**
 * The inputs of the query compiler: the Dari query (predicate tree, sorters,
 * options), the metadata every query key resolves to, and the capabilities of
 * the environment (index catalog, physical index tables, vendor).
 * All of them are read-only for the compiler.
 */
module DariQuery {
  import opened Wrappers

  /** Operator of a compound predicate (AND, OR, NOT, or anything else). */
  datatype LogicalOp = AndOp | OrOp | NotOp | OtherLogical(name: string)

  /**
   * Operator of a comparison. `Relational` stands for every operator the
   * operator-to-condition lookup (SqlQueryComparison.find) recognises, and
   * `Unrecognized` for one it does not.
   */
  datatype ComparisonOp = EqualsAny | NotEqualsAll | Relational(name: string) | Unrecognized(name: string)

  /** A geospatial point; its floating-point coordinates are not modelled. */
  datatype Location = Location(id: nat)

  /** A geospatial region, known by identity and by how many locations it has. */
  datatype Region = Region(id: nat, locationCount: nat)

  /** A value a comparison was resolved to. */
  datatype Value =
    | NullValue
    | Missing                      // Query.MISSING_VALUE, "the field is absent"
    | RegionValue(region: Region)
    | LocationValue(location: Location)
    | Plain(text: string)          // any other value, passed to the value encoder

  /**
   * A predicate node. `valueQuery` is the correlated sub-query the mapped key
   * produces for this comparison (getSubQueryWithComparison), resolved ahead.
   */
  datatype Predicate =
    | Compound(op: LogicalOp, children: seq<Predicate>)
    | Comparison(key: string, cmp: ComparisonOp, values: seq<Value>, valueQuery: Option<Query>)
    | OtherPredicate(name: string)

  datatype SortOp = Ascending | Descending | Closest | Farthest | OtherSort(name: string)

  /**
   * A sorter: its operator, its query key (first option), the location of a
   * closest/farthest sort (second option) and the sub-query the key produces
   * for sorting (getSubQueryWithSorter), resolved ahead.
   */
  datatype Sorter = Sorter(op: SortOp, key: string, location: Option<Location>, subQuery: Option<Query>)

  /** Raw SQL extension options; each is opaque text when present. */
  datatype Options = Options(
    extraJoins: Option<string>,
    extraWhere: Option<string>,
    extraHaving: Option<string>,
    extraColumns: Option<string>)

  /** The physical index table family a storage type maps to. */
  datatype SqlIndexType = StringIndex | NumberIndex | UuidIndex | LocationIndex | OtherIndexType(name: string)

  /** A composite index of the catalog: its name, its field names and its version. */
  datatype Index = Index(name: string, fields: seq<string>, version: nat)

  /**
   * What a query key resolves to: the internal name of its field (absent for
   * keys that are not fields), its candidate indexes, its index table family,
   * whether the field holds a collection, and the sub-query used when the key
   * is grouped on (getSubQueryWithGroupBy).
   */
  datatype MappedKey = MappedKey(
    field: Option<string>,
    indexes: seq<Index>,
    sqlIndex: SqlIndexType,
    isCollection: bool,
    groupBySubQuery: Option<Query>)

  /**
   * A Dari query: its predicate (`where`), sorters, requested fields (None = all
   * fields), concrete type ids, the "from all" flag, options, and the keys
   * it references, already mapped (mapEmbeddedKeys).
   */
  datatype Query = Query(
    where: Option<Predicate>,
    sorters: seq<Sorter>,
    fields: Option<seq<string>>,
    typeIds: set<string>,
    fromAll: bool,
    options: Options,
    mapped: map<string, MappedKey>)

  /** The traits of a physical index table (SqlIndex.Table), where one exists. */
  datatype IndexTable = IndexTable(version: nat, needsIndexTable: bool, needsIsNotNull: bool, hasTypeId: bool)

  /**
   * The environment, as uninterpreted functions: the table a join of a given
   * family and selected index reads, the index key (symbol) of a mapped key
   * for its selected index, how a key the query does not reference resolves
   * (mapEmbeddedKey), and whether the vendor supports geospatial SQL.
   */
  datatype Env = Env(
    tableFor: (SqlIndexType, Option<Index>) -> Option<IndexTable>,
    indexKeyOf: (MappedKey, Option<Index>) -> Option<string>,
    resolve: (Query, string) -> MappedKey,
    geoSupported: bool)

  /** The compile-time errors the compiler throws. */
  datatype CompileError =
    | UnsupportedPredicate(node: Predicate)
    | UnsupportedSorter(sorter: Sorter)
    | UnsupportedIndex(key: string)
    | NullGroupKeys
    | EmptyGroupKeys
    | UnmappedKey(key: string)          // dereference of a null MappedKey
    | MissingIndexTable(key: string)    // dereference of a null index table
}
