/**
 * The state of one compiler (an SqlQuery instance) as a value, and the small
 * state changes the compiler makes: recording a key's index, finding or
 * creating a join, registering a correlated sub-query.
 */
module QueryState {
  import opened Wrappers
  import opened DariQuery
  import opened Conditions
  import opened Joins
  import IndexSelection

  /** A correlated sub-query: the child query and how its records tie to the outer value column. */
  datatype SubQueryEntry = SubQueryEntry(query: Query, correlation: Correlation)

  /** A cached nested compiler: its alias prefix and its state once its clauses were built. */
  datatype Nested = Nested(prefix: string, state: CompilerState)

  datatype CompilerState = CompilerState(
    mappedKeys: map<string, MappedKey>,
    selectedIndexes: map<string, Index>,
    joins: seq<Join>,
    subQueries: seq<SubQueryEntry>,          // insertion-ordered map from child query to correlation
    subSqlQueries: map<Query, Nested>,
    needsDistinct: bool,
    orderByFields: seq<SortField>,
    fromClause: seq<FromItem>,
    whereCondition: Cond,
    havingCondition: Option<string>,
    ignorePrimaryDisabled: bool,             // mysqlIgnoreIndexPrimaryDisabled
    forceLeftJoins: bool)

  /** The outcome of one compilation step and the state it leaves. */
  datatype Step<T> = Step(res: Result<T, CompileError>, st: CompilerState)

  /** What a compiler is constructed with: the environment, its query and its alias prefix. */
  datatype Ctx = Ctx(env: Env, query: Query, prefix: string)

  /** A join position and the state after finding or creating it. */
  datatype Pick = Pick(index: nat, st: CompilerState)

  /** The index selectIndex records for each key, all keys being selected against the same key set. */
  function SelectAll(mapped: map<string, MappedKey>): (sel: map<string, Index>)
    ensures forall k | k in sel :: k in mapped && IndexSelection.SelectedIndex(mapped[k].indexes, mapped) == Some(sel[k])
    ensures forall k | k in mapped && IndexSelection.SelectedIndex(mapped[k].indexes, mapped).Some? :: k in sel
  {
    map k | k in mapped && IndexSelection.SelectedIndex(mapped[k].indexes, mapped).Some?
      :: IndexSelection.SelectedIndex(mapped[k].indexes, mapped).value
  }

  /** The state right after construction: every mapped key went through selectIndex. */
  function FreshState(mapped: map<string, MappedKey>, forceLeftJoins: bool): CompilerState {
    CompilerState(mapped, SelectAll(mapped), [], [], map[], false, [], [], TrueCond, None, false, forceLeftJoins)
  }

  /** selectIndex for one key: records the selected index, or leaves any earlier record when there is none. */
  function SelectIndexSpec(st: CompilerState, key: string, mk: MappedKey): (r: CompilerState)
    ensures r == st.(selectedIndexes := r.selectedIndexes)
    ensures IndexSelection.SelectedIndex(mk.indexes, st.mappedKeys).Some? ==>
              r.selectedIndexes == st.selectedIndexes[key := IndexSelection.SelectedIndex(mk.indexes, st.mappedKeys).value]
    ensures IndexSelection.SelectedIndex(mk.indexes, st.mappedKeys).None? ==> r.selectedIndexes == st.selectedIndexes
  {
    var sel := IndexSelection.SelectedIndex(mk.indexes, st.mappedKeys);
    if sel.Some? then st.(selectedIndexes := st.selectedIndexes[key := sel.value]) else st
  }

  /** A key resolved late (extra-join placeholder, group key): mapped, then its index selected against the grown key set. */
  function AddKey(st: CompilerState, key: string, mk: MappedKey): (r: CompilerState)
    ensures key in r.mappedKeys && r.mappedKeys[key] == mk
    ensures r == st.(mappedKeys := st.mappedKeys[key := mk], selectedIndexes := r.selectedIndexes)
    ensures Grows(st, r)
  {
    SelectIndexSpec(st.(mappedKeys := st.mappedKeys[key := mk]), key, mk)
  }

  /** The index recorded for a key, if any. */
  function Selected(st: CompilerState, key: string): Option<Index> {
    if key in st.selectedIndexes then Some(st.selectedIndexes[key]) else None
  }

  /** The symbol a new join for `key` starts filtering on: the key's index key for its selected index, if it has one. */
  function FirstSymbol(env: Env, st: CompilerState, key: string): Option<string>
    requires key in st.mappedKeys
  {
    env.indexKeyOf(st.mappedKeys[key], Selected(st, key))
  }

  /**
   * A new join for `key`, appended: inner, for the key's table family, reading
   * the table the environment gives for that family and the selected index,
   * and filtering on the key exactly when the key has a symbol.
   */
  function AppendJoin(env: Env, st: CompilerState, key: string, isolated: bool): (p: Pick)
    requires key in st.mappedKeys
    ensures p.index == |st.joins| && |p.st.joins| == |st.joins| + 1
    ensures p.st.joins == st.joins + [p.st.joins[p.index]]
    ensures p.st.joins[p.index].key == key && p.st.joins[p.index].isolated == isolated
    ensures p.st.joins[p.index].kind == InnerJoin && p.st.joins[p.index].parent.None?
    ensures p.st.joins[p.index].indexKeys == if FirstSymbol(env, st, key).Some? then {key} else {}
    ensures p.st == st.(joins := p.st.joins)
    ensures Grows(st, p.st)
  {
    var mk := st.mappedKeys[key];
    var j := NewJoin(key, mk, env.tableFor(mk.sqlIndex, Selected(st, key)), FirstSymbol(env, st, key), isolated);
    JoinsGrowAppend(st.joins, st.joins + [j]);
    Pick(|st.joins|, st.(joins := st.joins + [j]))
  }

  /**
   * SqlQueryJoin.findOrCreate, as the calls at SqlQuery.java:169, :419, :427
   * and :667 use it (its own source is not part of this model): the first
   * join findOrCreate itself created for the key is reused, and a join made
   * by create is never reused; when there is none, a new one is appended.
   */
  function FindOrCreateSpec(env: Env, st: CompilerState, key: string): (p: Pick)
    requires key in st.mappedKeys
    ensures p.index < |p.st.joins| && p.st.joins[p.index].key == key && !p.st.joins[p.index].isolated
    ensures p.st == st.(joins := p.st.joins)
    ensures p.index < |st.joins| <==> p.st.joins == st.joins
    ensures p.index < |st.joins| ==> p.index == FindJoin(st.joins, key)
    ensures p.index == |st.joins| ==> FindJoin(st.joins, key) == |st.joins| && p.st.joins == st.joins + [p.st.joins[p.index]]
    ensures p.index == |st.joins| ==> p.st.joins[p.index].indexKeys == if FirstSymbol(env, st, key).Some? then {key} else {}
    ensures Grows(st, p.st)
  {
    var i := FindJoin(st.joins, key);
    if i < |st.joins| then Pick(i, st) else AppendJoin(env, st, key, false)
  }

  /** SqlQueryJoin.create, as the call at SqlQuery.java:424 uses it: always a new join, private to the comparison that asked for it. */
  function CreateSpec(env: Env, st: CompilerState, key: string): (p: Pick)
    requires key in st.mappedKeys
    ensures p.index == |st.joins| && |p.st.joins| == |st.joins| + 1
    ensures p.st.joins[p.index].key == key && p.st.joins[p.index].isolated
    ensures p.st == st.(joins := p.st.joins) && p.st.joins == st.joins + [p.st.joins[p.index]]
    ensures Grows(st, p.st)
  {
    AppendJoin(env, st, key, true)
  }

  /** Position of the entry for `q` (|entries| if none). */
  function EntryOf(entries: seq<SubQueryEntry>, q: Query): (i: nat)
    ensures i <= |entries|
    ensures i < |entries| ==> entries[i].query == q
    ensures forall k | 0 <= k < i :: entries[k].query != q
    decreases |entries|
  {
    if entries == [] then 0
    else if entries[0].query == q then 0
    else 1 + EntryOf(entries[1..], q)
  }

  /** No child query has two entries. */
  predicate DistinctQueries(entries: seq<SubQueryEntry>) {
    forall i, k | 0 <= i < k < |entries| :: entries[i].query != entries[k].query
  }

  /**
   * Map.put on the insertion-ordered sub-query map: every earlier entry keeps
   * its place and its child, the entries of other children are untouched, a
   * new child goes last, and no child ever gets a second entry.
   */
  function PutEntry(entries: seq<SubQueryEntry>, q: Query, c: Correlation): (r: seq<SubQueryEntry>)
    ensures |r| == |entries| + (if exists i | 0 <= i < |entries| :: entries[i].query == q then 0 else 1)
    ensures forall i | 0 <= i < |entries| :: r[i].query == entries[i].query
    ensures forall i | 0 <= i < |entries| && entries[i].query != q :: r[i] == entries[i]
    ensures |r| > |entries| ==> r[|entries|] == SubQueryEntry(q, c)
    ensures DistinctQueries(entries) ==> DistinctQueries(r)
  {
    var i := EntryOf(entries, q);
    if i < |entries| then entries[i := SubQueryEntry(q, c)] else entries + [SubQueryEntry(q, c)]
  }

  /** After a put, the child is found, with the correlation just put. */
  lemma PutFinds(entries: seq<SubQueryEntry>, q: Query, c: Correlation)
    ensures var r := PutEntry(entries, q, c);
      EntryOf(r, q) < |r| && r[EntryOf(r, q)] == SubQueryEntry(q, c)
  {
    var r := PutEntry(entries, q, c);
    var i := EntryOf(entries, q);
    if i == |entries| {
      assert r[|entries|].query == q;
    } else {
      assert r[i].query == q;
    }
  }

  /** Every registered correlated sub-query has a cached nested compiler. */
  predicate Wf(st: CompilerState) {
    forall i | 0 <= i < |st.subQueries| :: st.subQueries[i].query in st.subSqlQueries
  }

  /**
   * What compilation may do to a state: set flags (never clear them), grow
   * the joins as JoinsGrow allows, map more keys, append to ORDER BY, and cache more nested
   * compilers without ever replacing a cached one.
   */
  predicate Grows(a: CompilerState, b: CompilerState) {
    && (a.needsDistinct ==> b.needsDistinct)
    && (a.ignorePrimaryDisabled ==> b.ignorePrimaryDisabled)
    && b.forceLeftJoins == a.forceLeftJoins
    && a.mappedKeys.Keys <= b.mappedKeys.Keys
    && JoinsGrow(a.joins, b.joins)
    && a.orderByFields <= b.orderByFields
    && (forall q | q in a.subSqlQueries :: q in b.subSqlQueries && b.subSqlQueries[q] == a.subSqlQueries[q])
  }

  lemma GrowsRefl(a: CompilerState)
    ensures Grows(a, a)
  {
    JoinsGrowRefl(a.joins);
  }

  /** Noting that duplicates are possible (never un-noting it). */
  function SetDistinct(st: CompilerState, when: bool): (r: CompilerState)
    ensures r == st.(needsDistinct := st.needsDistinct || when)
    ensures Grows(st, r)
  {
    GrowsRefl(st);
    st.(needsDistinct := st.needsDistinct || when)
  }

  lemma GrowsTrans(a: CompilerState, b: CompilerState, c: CompilerState)
    requires Grows(a, b) && Grows(b, c)
    ensures Grows(a, c)
  {
    JoinsGrowTrans(a.joins, b.joins, c.joins);
  }
}
