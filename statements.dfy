/**
 * The statements a compiler writes, each after building its clauses: the
 * count, delete, last-update, group and select statements, with the
 * DISTINCT decisions, the select list, the wrapping of a DISTINCT select
 * that returns more than the record ids, and the primary-index hint on the
 * record table. (The sub-query statement is in CompilerSpec, because the
 * predicate compiler inlines it.)
 */
module Statements {
  import opened Wrappers
  import opened DariQuery
  import opened Conditions
  import opened Joins
  import opened QueryState
  import opened CompilerSpec
  import opened Text

  /** A column of a select list: the record id and type id, the data column of the record alias, or a named column. */
  datatype SelectField = RecordId | RecordTypeId | DataColumn(alias: string) | NamedColumn(name: string)

  /** The outer select a DISTINCT select is wrapped in: its alias for the inner select and its full select list. */
  datatype Wrap = Wrap(alias: string, fields: seq<SelectField>)

  datatype Statement =
    | CountStatement(distinct: bool, from: seq<FromItem>, where: Cond)
    | DeleteStatement(from: seq<FromItem>, where: Cond)
    | LastUpdateStatement(alias: string, from: seq<FromItem>, where: Cond)
    | GroupStatement(distinct: bool, groupBy: seq<FieldRef>, from: seq<FromItem>, where: Cond,
                     having: Option<string>, orderBy: seq<SortField>)
    | SelectStatement(distinct: bool, columns: seq<SelectField>, ignorePrimary: bool, wrap: Option<Wrap>,
                      from: seq<FromItem>, where: Cond, having: Option<string>, orderBy: seq<SortField>)

  // ---------------------------------------------------------------------------
  // count, delete, last update

  /** The count statement: COUNT(DISTINCT id) exactly when duplicates are possible. */
  function Count(ctx: Ctx, st: CompilerState): (r: Step<Statement>)
    requires Wf(st)
    ensures Wf(r.st) && Grows(st, r.st)
    ensures r.res.Success? ==> r.res.value.CountStatement? && r.res.value.distinct == r.st.needsDistinct
    ensures r.res.Failure? <==> Initialize(ctx, st).res.Failure?
  {
    var init := Initialize(ctx, st);
    if init.res.Failure? then Step(Failure(init.res.error), init.st)
    else Step(Success(CountStatement(init.st.needsDistinct, init.st.fromClause, init.st.whereCondition)), init.st)
  }

  /** The delete statement over the record table and the FROM clause. */
  function Delete(ctx: Ctx, st: CompilerState): (r: Step<Statement>)
    requires Wf(st)
    ensures Wf(r.st) && Grows(st, r.st)
    ensures r.res.Success? ==> r.res.value.DeleteStatement? && r.res.value.where == r.st.whereCondition
  {
    var init := Initialize(ctx, st);
    if init.res.Failure? then Step(Failure(init.res.error), init.st)
    else Step(Success(DeleteStatement(init.st.fromClause, init.st.whereCondition)), init.st)
  }

  /** The last-update statement: the latest update date, read through the update table under the record alias. */
  function LastUpdate(ctx: Ctx, st: CompilerState): (r: Step<Statement>)
    requires Wf(st)
    ensures Wf(r.st) && Grows(st, r.st)
    ensures r.res.Success? ==> r.res.value.LastUpdateStatement? && r.res.value.alias == ctx.prefix + "r"
  {
    var init := Initialize(ctx, st);
    if init.res.Failure? then Step(Failure(init.res.error), init.st)
    else Step(Success(LastUpdateStatement(ctx.prefix + "r", init.st.fromClause, init.st.whereCondition)), init.st)
  }

  // ---------------------------------------------------------------------------
  // group

  /** The value columns of a nested compiler's joins, for `key`. */
  function ChildColumns(n: Nested, key: string): (cs: seq<FieldRef>)
    ensures |cs| == |n.state.joins|
    ensures forall i | 0 <= i < |cs| :: cs[i] == ValueColumn(n.prefix, i, key)
  {
    seq(|n.state.joins|, i requires 0 <= i < |n.state.joins| => ValueColumn(n.prefix, i, key))
  }

  /**
   * One group key: resolved, mapped and its index selected; its join found
   * or created; grouped by its value column, or, when the key groups
   * through a sub-query, by the value columns of all the nested compiler's
   * joins, the sub-query being correlated on the outer value column.
   */
  function GroupKey(ctx: Ctx, key: string, st: CompilerState): (r: Step<seq<FieldRef>>)
    requires Wf(st)
    ensures Wf(r.st) && Grows(st, r.st)
    ensures key in r.st.mappedKeys && r.st.mappedKeys[key] == ctx.env.resolve(ctx.query, key)
    ensures ctx.env.resolve(ctx.query, key).groupBySubQuery.None? ==>
      && r.res.Success? && |r.res.value| == 1
      && r.res.value[0].prefix == ctx.prefix && r.res.value[0].key == key
      && r.res.value[0].join < |r.st.joins| && r.st.joins[r.res.value[0].join].key == key
  {
    var mk := ctx.env.resolve(ctx.query, key);
    var st1 := AddKey(st, key, mk);
    var pick := FindOrCreateSpec(ctx.env, st1, key);
    GrowsTrans(st, st1, pick.st);
    var field := ValueColumn(ctx.prefix, pick.index, key);
    if mk.groupBySubQuery.None? then Step(Success([field]), pick.st)
    else
      var r := GroupBySubQuery(ctx, key, mk.groupBySubQuery.value, field, pick.st);
      GrowsTrans(st, pick.st, r.st);
      r
  }

  /** A key grouped through a sub-query: its nested compiler (LEFT OUTER joins forced), correlated on the key's value column. */
  function GroupBySubQuery(ctx: Ctx, key: string, sq: Query, field: FieldRef, st: CompilerState): (r: Step<seq<FieldRef>>)
    requires Wf(st)
    ensures Wf(r.st) && Grows(st, r.st)
    ensures r.st.joins == st.joins && r.st.mappedKeys == st.mappedKeys
    ensures r.res.Failure? ==> r.st.subQueries == st.subQueries
    ensures r.res.Success? ==>
      var i := EntryOf(r.st.subQueries, sq);
      && sq in r.st.subSqlQueries && r.res.value == ChildColumns(r.st.subSqlQueries[sq], key)
      && i < |r.st.subQueries| && r.st.subQueries[i] == SubQueryEntry(sq, Correlation(field, false))
  {
    var g := GetOrCreate(ctx, sq, true, st);
    if g.res.Failure? then Step(Failure(g.res.error), g.st)
    else
      PutFinds(g.st.subQueries, sq, Correlation(field, false)); Step(Success(ChildColumns(g.res.value, key)), g.st.(subQueries := PutEntry(g.st.subQueries, sq, Correlation(field, false))))
  }

  /** The group-key loop over the first `n` keys. */
  function GroupKeys(ctx: Ctx, keys: seq<string>, n: nat, st: CompilerState): (r: Step<seq<FieldRef>>)
    requires n <= |keys| && Wf(st)
    ensures Wf(r.st) && Grows(st, r.st)
    decreases n
  {
    if n == 0 then Step(Success([]), st)
    else
      var prev := GroupKeys(ctx, keys, n - 1, st);
      if prev.res.Failure? then prev
      else
        var g := GroupKey(ctx, keys[n - 1], prev.st);
        GrowsTrans(st, prev.st, g.st);
        if g.res.Failure? then Step(Failure(g.res.error), g.st)
        else Step(Success(prev.res.value + g.res.value), g.st)
  }

  /**
   * The group statement: a null key list and an empty one are rejected
   * before anything changes; otherwise the keys are added, the clauses
   * built, and the rows counted (DISTINCT when duplicates are possible) per
   * group.
   */
  function Group(ctx: Ctx, keys: Option<seq<string>>, st: CompilerState): (r: Step<Statement>)
    requires Wf(st)
    ensures Wf(r.st) && Grows(st, r.st)
    ensures keys.None? ==> r == Step(Failure(NullGroupKeys), st)
    ensures keys == Some([]) ==> r == Step(Failure(EmptyGroupKeys), st)
    ensures r.res.Success? ==> r.res.value.GroupStatement? && r.res.value.distinct == r.st.needsDistinct
  {
    if keys.None? then Step(Failure(NullGroupKeys), st)
    else if keys.value == [] then Step(Failure(EmptyGroupKeys), st)
    else
      var g := GroupKeys(ctx, keys.value, |keys.value|, st);
      if g.res.Failure? then Step(Failure(g.res.error), g.st)
      else
        var init := Initialize(ctx, g.st);
        GrowsTrans(st, g.st, init.st);
        if init.res.Failure? then Step(Failure(init.res.error), init.st)
        else
          var s := init.st;
          Step(Success(GroupStatement(s.needsDistinct, g.res.value, s.fromClause, s.whereCondition, s.havingCondition, s.orderByFields)), s)
  }

  // ---------------------------------------------------------------------------
  // select

  function Named(names: seq<string>): (fs: seq<SelectField>)
    ensures |fs| == |names|
    ensures forall i | 0 <= i < |fs| :: fs[i] == NamedColumn(names[i])
  {
    seq(|names|, i requires 0 <= i < |names| => NamedColumn(names[i]))
  }

  /** The extra-columns option: nothing when absent or blank, else its trimmed text split at runs of spaces. */
  function ExtraColumns(extra: Option<string>): seq<SelectField> {
    if extra.None? || IsBlank(extra.value) then [] else Named(SplitSpaces(Trim(extra.value)))
  }

  /** The select list: id and type id, then the data column (all fields) or the requested fields, then the extra columns. */
  function SelectFields(ctx: Ctx): (fs: seq<SelectField>)
    ensures |fs| >= 2 && fs[..2] == [RecordId, RecordTypeId]
  {
    var q := ctx.query;
    [RecordId, RecordTypeId]
    + (if q.fields.None? then [DataColumn(ctx.prefix + "r")] else Named(q.fields.value))
    + ExtraColumns(q.options.extraColumns)
  }

  /** A FROM item whose text contains "left outer join", in any case. */
  predicate MentionsOuter(item: FromItem)
    decreases item
  {
    match item
    case JoinItem(kind, _, _, _, _, _) => kind == LeftOuterJoin
    case SubQueryJoin(_, _, sub) => exists k | 0 <= k < |sub| :: MentionsOuter(sub[k])
    case ExtraJoins(frags) => exists k | 0 <= k < |frags| :: frags[k].Text? && MentionsLeftOuterJoin(frags[k].text)
  }

  /** The record table is read IGNORE INDEX (PRIMARY): something is joined, nothing LEFT OUTER, and no join's table is too old. */
  predicate IgnoresPrimary(st: CompilerState) {
    && |st.fromClause| > 0
    && (forall k | 0 <= k < |st.fromClause| :: !MentionsOuter(st.fromClause[k]))
    && !st.ignorePrimaryDisabled
  }

  /**
   * The select statement. Without duplicates it selects the select list;
   * with them it selects DISTINCT id and type id, and when the list asks
   * for more than that, that select becomes a derived table joined back to
   * the record table, from which the whole list is selected.
   */
  function Select(ctx: Ctx, st: CompilerState): (r: Step<Statement>)
    requires Wf(st)
    ensures Wf(r.st) && Grows(st, r.st)
    ensures r.res.Success? ==> r.res.value.SelectStatement? && r.res.value.distinct == r.st.needsDistinct
  {
    var init := Initialize(ctx, st);
    if init.res.Failure? then Step(Failure(init.res.error), init.st)
    else
      var s := init.st;
      var fields := SelectFields(ctx);
      var columns := if s.needsDistinct then [RecordId, RecordTypeId] else fields;
      var wrap := if s.needsDistinct && |fields| > 2 then Some(Wrap(ctx.prefix + "d", fields)) else None;
      Step(Success(SelectStatement(s.needsDistinct, columns, IgnoresPrimary(s), wrap, s.fromClause, s.whereCondition, s.havingCondition, s.orderByFields)), s)
  }

  /** The columns a select statement returns: the outer select's list when wrapped, its own otherwise. */
  function OutputColumns(stmt: Statement): seq<SelectField>
    requires stmt.SelectStatement?
  {
    if stmt.wrap.Some? then stmt.wrap.value.fields else stmt.columns
  }
}
