/**
 * What one compiler does, as functions from its state to its new state:
 * createWhereCondition over the predicate tree, getOrCreateSubSqlQuery's
 * cache of nested compilers, the sorter loop and the FROM builder of
 * initializeClauses, and the bare-id sub-query statement that an inlined
 * sub-query embeds. These call each other through nested queries, and
 * terminate because every nested query is part of the node that asks for it.
 */
module CompilerSpec {
  import opened Wrappers
  import opened DariQuery
  import opened Conditions
  import opened Joins
  import opened QueryState
  import opened ValueConditions
  import opened FromClause
  import opened ExtraJoins
  import opened Similar
  import opened Text

  // ---------------------------------------------------------------------------
  // Joins for a comparison

  /**
   * The join a comparison reads. Under an OR node, a field shares the first
   * join already bound to that OR node on the same table family (which then
   * also filters on this key, and duplicates become possible); failing that
   * it finds or creates a join and binds it to the OR node. Outside an OR
   * node a collection field always gets a join of its own, anything else
   * finds or creates one.
   */
  function ChooseJoin(env: Env, st: CompilerState, key: string, orParent: Option<seq<nat>>): (p: Pick)
    requires key in st.mappedKeys
    ensures p.index < |p.st.joins|
    ensures p.st == st.(joins := p.st.joins, needsDistinct := p.st.needsDistinct)
    ensures Grows(st, p.st)
  {
    var mk := st.mappedKeys[key];
    if mk.field.Some? && orParent.Some? then
      var i := FindSibling(st.joins, orParent.value, mk.sqlIndex);
      if i < |st.joins| then ShareJoin(st, i, key)
      else BindToOr(FindOrCreateSpec(env, st, key), orParent.value)
    else if mk.isCollection then CreateSpec(env, st, key)
    else FindOrCreateSpec(env, st, key)
  }

  /** A sibling's join taken over: it also filters on this key, and duplicates become possible. */
  function ShareJoin(st: CompilerState, i: nat, key: string): (p: Pick)
    requires i < |st.joins|
    ensures p.index == i && |p.st.joins| == |st.joins|
    ensures p.st == st.(joins := p.st.joins, needsDistinct := true)
    ensures p.st.joins == st.joins[i := st.joins[i].(indexKeys := st.joins[i].indexKeys + {key})]
    ensures Grows(st, p.st)
  {
    JoinsGrowUpdate(st.joins, i, st.joins[i].(indexKeys := st.joins[i].indexKeys + {key}));
    Pick(i, st.(needsDistinct := true, joins := st.joins[i := st.joins[i].(indexKeys := st.joins[i].indexKeys + {key})]))
  }

  /** A found or created join bound to the OR node at `parent`. */
  function BindToOr(p: Pick, parent: seq<nat>): (r: Pick)
    requires p.index < |p.st.joins|
    ensures r.index == p.index && |r.st.joins| == |p.st.joins|
    ensures r.st == p.st.(joins := r.st.joins)
    ensures r.st.joins == p.st.joins[p.index := p.st.joins[p.index].(parent := Some(parent))]
    ensures Grows(p.st, r.st)
  {
    JoinsGrowUpdate(p.st.joins, p.index, p.st.joins[p.index].(parent := Some(parent)));
    Pick(p.index, p.st.(joins := p.st.joins[p.index := p.st.joins[p.index].(parent := Some(parent))]))
  }

  /** The join at `j` turned LEFT OUTER. */
  function Outer(st: CompilerState, j: nat, when: bool): (r: CompilerState)
    requires j < |st.joins|
    ensures r == if when then st.(joins := MakeOuter(st.joins, j)) else st
    ensures Grows(st, r)
  {
    if when then
      JoinsGrowUpdate(st.joins, j, st.joins[j].(kind := LeftOuterJoin));
      st.(joins := MakeOuter(st.joins, j))
    else
      GrowsRefl(st);
      st
  }


  /**
   * The finishing touches on a comparison without a missing-value test: the
   * index-key filter when the join's table needs one and the key has a symbol,
   * then the IS NOT NULL guard when the table needs it.
   */
  function Guarded(env: Env, st: CompilerState, prefix: string, key: string, j: nat, base: Cond): Cond
    requires j < |st.joins| && key in st.mappedKeys
  {
    var t := st.joins[j].table;
    var indexKey := env.indexKeyOf(st.mappedKeys[key], Selected(st, key));
    var c1 := if t.Some? && t.value.needsIndexTable && indexKey.Some? then And(KeyEq(prefix, j, indexKey.value), base) else base;
    if t.Some? && t.value.needsIsNotNull then And(IsNotNull(ValueColumn(prefix, j, key)), c1) else c1
  }

  // ---------------------------------------------------------------------------
  // createWhereCondition

  /**
   * The condition of predicate node `p` (at `path` from the root), compiled
   * under `orParent` (the path of its parent when that is an OR node) and
   * with `usesLeftJoin` set by the compounds above it. None is the source's
   * null condition.
   */
  function Compile(ctx: Ctx, p: Predicate, path: seq<nat>, orParent: Option<seq<nat>>, usesLeftJoin: bool, st: CompilerState): (r: Step<Option<Cond>>)
    requires Wf(st)
    ensures Wf(r.st) && Grows(st, r.st)
    ensures r.st.orderByFields == st.orderByFields
    decreases p, 2
  {
    match p
    case Compound(op, children) =>
      if op.NotOp? || op.OrOp? then
        var many := |children| > 1;
        var st1 := SetDistinct(st, many);
        var f := CompileChildren(ctx, p, path, if op.OrOp? then Some(path) else None, many || op.NotOp?, |children|, st1);
        if f.res.Failure? then Step(Failure(f.res.error), f.st)
        else
          var c := Combine(false, f.res.value);
          Step(Success(if op.NotOp? && c.Some? then Some(Not(c.value)) else c), f.st)
      else if op.AndOp? then
        var f := CompileChildren(ctx, p, path, None, usesLeftJoin, |children|, st);
        if f.res.Failure? then Step(Failure(f.res.error), f.st)
        else Step(Success(Combine(true, f.res.value)), f.st)
      else Step(Failure(UnsupportedPredicate(p)), st)
    case Comparison(_, _, _, _) => CompileComparison(ctx, p, orParent, usesLeftJoin, st)
    case OtherPredicate(_) => Step(Failure(UnsupportedPredicate(p)), st)
  }

  /** The compound loop: the first `n` children of `p`, left to right, each result kept (absent ones too). */
  function CompileChildren(ctx: Ctx, p: Predicate, path: seq<nat>, orParent: Option<seq<nat>>, usesLeftJoin: bool, n: nat, st: CompilerState): (r: Step<seq<Option<Cond>>>)
    requires p.Compound? && n <= |p.children| && Wf(st)
    ensures Wf(r.st) && Grows(st, r.st)
    ensures r.st.orderByFields == st.orderByFields
    ensures r.res.Success? ==> |r.res.value| == n
    decreases p, 1, n
  {
    if n == 0 then Step(Success([]), st)
    else
      var prev := CompileChildren(ctx, p, path, orParent, usesLeftJoin, n - 1, st);
      if prev.res.Failure? then prev
      else
        var c := Compile(ctx, p.children[n - 1], path + [n - 1], orParent, usesLeftJoin, prev.st);
        GrowsTrans(st, prev.st, c.st);
        if c.res.Failure? then Step(Failure(c.res.error), c.st)
        else Step(Success(prev.res.value + [c.res.value]), c.st)
  }

  /** A comparison: its join, then either its sub-query (inlined or joined) or its per-value conditions. */
  function CompileComparison(ctx: Ctx, p: Predicate, orParent: Option<seq<nat>>, usesLeftJoin: bool, st: CompilerState): (r: Step<Option<Cond>>)
    requires p.Comparison? && Wf(st)
    ensures Wf(r.st) && Grows(st, r.st)
    ensures r.st.orderByFields == st.orderByFields
    ensures p.key !in st.mappedKeys ==> r == Step(Failure(UnmappedKey(p.key)), st)
    ensures p.key in st.mappedKeys && usesLeftJoin ==>
      var i := PrepareJoin(ctx.env, st, p.key, orParent, usesLeftJoin).index;
      i < |r.st.joins| && r.st.joins[i].kind == LeftOuterJoin
    decreases p, 1
  {
    if p.key !in st.mappedKeys then Step(Failure(UnmappedKey(p.key)), st)
    else
      var mk := st.mappedKeys[p.key];
      var pick := PrepareJoin(ctx.env, st, p.key, orParent, usesLeftJoin);
      var field := ValueColumn(ctx.prefix, pick.index, p.key);
      if p.valueQuery.Some? then
        var r := CompileSubQueryComparison(ctx, p, mk, pick.st.joins[pick.index], field, pick.st);
        GrowsTrans(st, pick.st, r.st);
        r
      else
        var r := CompileValues(ctx, p, pick.index, pick.st);
        GrowsTrans(st, pick.st, r.st);
        r
  }

  /**
   * The join of a comparison made ready: chosen, made LEFT OUTER when a
   * compound above asks for it, and duplicates noted for a collection field
   * whose table is missing or older than version 2.
   */
  function PrepareJoin(env: Env, st: CompilerState, key: string, orParent: Option<seq<nat>>, usesLeftJoin: bool): (p: Pick)
    requires key in st.mappedKeys
    ensures p.index < |p.st.joins|
    ensures p.st == st.(joins := p.st.joins, needsDistinct := p.st.needsDistinct)
    ensures Grows(st, p.st)
    ensures usesLeftJoin ==> p.st.joins[p.index].kind == LeftOuterJoin
  {
    var pick := ChooseJoin(env, st, key, orParent);
    var j := pick.index;
    var st2 := Outer(pick.st, j, usesLeftJoin);
    var join := st2.joins[j];
    var st3 := SetDistinct(st2, st.mappedKeys[key].isCollection && (join.table.None? || join.table.value.version < 2));
    GrowsTrans(st, pick.st, st2);
    GrowsTrans(st, st2, st3);
    Pick(j, st3)
  }

  /**
   * A comparison without a sub-query: one condition per value, combined;
   * the join turned LEFT OUTER and duplicates noted as the values ask (as
   * far as the loop got, when a value fails); and,
   * unless a missing-value test is among them, the index-key and IS NOT NULL
   * guards, with duplicates noted for more than one condition.
   */
  function CompileValues(ctx: Ctx, p: Predicate, j: nat, st: CompilerState): (r: Step<Option<Cond>>)
    requires p.Comparison? && p.key in st.mappedKeys && j < |st.joins| && Wf(st)
    ensures Wf(r.st) && Grows(st, r.st)
    ensures r.st.orderByFields == st.orderByFields
    ensures r.st == st.(joins := r.st.joins, needsDistinct := r.st.needsDistinct)
  {
    var mk := st.mappedKeys[p.key];
    var join := st.joins[j];
    var nea := p.cmp.NotEqualsAll?;
    var vc := ValueContext(p.cmp, mk.isCollection, ValueColumn(ctx.prefix, j, p.key), join.sqlIndex, ctx.env.geoSupported, p.key);
    var out := CollectValues(vc, p.values, |p.values|);
    var o := Reached(vc, p.values, |p.values|);
    var st1 := Outer(st, j, o.outer);
    var st2 := SetDistinct(st1, o.distinct);
    GrowsTrans(st, st1, st2);
    if out.Failure? then Step(Failure(out.error), st2)
    else
      if o.conds == [] then Step(Success(Some(CombineValues(nea, []))), st2)
      else if o.hasMissing then Step(Success(Some(CombineValues(nea, o.conds))), st2)
      else
        var st3 := SetDistinct(st2, |o.conds| > 1);
        GrowsTrans(st, st2, st3);
        Step(Success(Some(Guarded(ctx.env, st2, ctx.prefix, p.key, j, CombineValues(nea, o.conds)))), st3)
  }

  /**
   * A comparison whose key yields a sub-query: inlined as IN / NOT IN over a
   * fresh compiler's sub-query statement when the field is compared elsewhere
   * without one, joined through the cache of nested compilers otherwise.
   */
  function CompileSubQueryComparison(ctx: Ctx, p: Predicate, mk: MappedKey, join: Join, field: FieldRef, st: CompilerState): (r: Step<Option<Cond>>)
    requires p.Comparison? && p.valueQuery.Some? && Wf(st)
    ensures Wf(r.st) && Grows(st, r.st)
    ensures r.st.orderByFields == st.orderByFields
    ensures r.st.joins == st.joins
    ensures p.cmp.NotEqualsAll? || mk.isCollection ==> r.st.needsDistinct
    decreases p, 0
  {
    var vq := p.valueQuery.value;
    var nea := p.cmp.NotEqualsAll?;
    var st1 := SetDistinct(st, nea || mk.isCollection);
    var sim := if ctx.query.where.Some? then FindSimilar(st1.mappedKeys, mk.field, ctx.query.where.value) else Success(false);
    if sim.Failure? then Step(Failure(sim.error), st1)
    else if sim.value then InlineSubQuery(ctx, vq, field, nea, st1)
    else
      var r := JoinSubQuery(ctx, vq, join.kind == LeftOuterJoin, field, nea, st1);
      GrowsTrans(st, st1, r.st);
      r
  }

  /** The sub-query compiled on its own, by a compiler with an empty alias prefix, and the field compared against its ids. */
  function InlineSubQuery(ctx: Ctx, vq: Query, field: FieldRef, nea: bool, st: CompilerState): (r: Step<Option<Cond>>)
    requires Wf(st)
    ensures r.st == st
    ensures r.res.Failure? <==> SubQueryStatement(Ctx(ctx.env, vq, ""), FreshState(vq.mapped, false)).res.Failure?
    ensures r.res.Success? ==>
      r.res.value == Some(InSubQuery(field, SubQueryStatement(Ctx(ctx.env, vq, ""), FreshState(vq.mapped, false)).res.value, nea))
    decreases vq, 6
  {
    var sub := SubQueryStatement(Ctx(ctx.env, vq, ""), FreshState(vq.mapped, false));
    if sub.res.Failure? then Step(Failure(sub.res.error), st)
    else Step(Success(Some(InSubQuery(field, sub.res.value, nea))), st)
  }

  /** The sub-query's nested compiler (LEFT OUTER joins forced when the field's join is), correlated on the field; its WHERE is the condition. */
  function JoinSubQuery(ctx: Ctx, vq: Query, forceLeftJoins: bool, field: FieldRef, nea: bool, st: CompilerState): (r: Step<Option<Cond>>)
    requires Wf(st)
    ensures Wf(r.st) && Grows(st, r.st)
    ensures r.st.orderByFields == st.orderByFields
    ensures r.st.joins == st.joins
    ensures r.res.Failure? <==> GetOrCreate(ctx, vq, forceLeftJoins, st).res.Failure?
    ensures r.res.Failure? ==> r.st.subQueries == st.subQueries
    ensures r.res.Success? ==>
      var i := EntryOf(r.st.subQueries, vq);
      && vq in r.st.subSqlQueries && r.res.value == Some(r.st.subSqlQueries[vq].state.whereCondition)
      && i < |r.st.subQueries| && r.st.subQueries[i] == SubQueryEntry(vq, Correlation(field, nea))
    decreases vq, 6
  {
    var g := GetOrCreate(ctx, vq, forceLeftJoins, st);
    if g.res.Failure? then Step(Failure(g.res.error), g.st)
    else
      PutFinds(g.st.subQueries, vq, Correlation(field, nea));
      var st2 := g.st.(subQueries := PutEntry(g.st.subQueries, vq, Correlation(field, nea)));
      Step(Success(Some(g.res.value.state.whereCondition)), st2)
  }


  // ---------------------------------------------------------------------------
  // getOrCreateSubSqlQuery

  /**
   * The nested compiler for `q`: the cached one if there is one (whatever
   * `forceLeftJoins` says now), else a new one with the next alias prefix,
   * its clauses built, then cached.
   */
  function GetOrCreate(ctx: Ctx, q: Query, forceLeftJoins: bool, st: CompilerState): (r: Step<Nested>)
    requires Wf(st)
    ensures Wf(r.st) && Grows(st, r.st)
    ensures r.res.Success? ==> q in r.st.subSqlQueries && r.st.subSqlQueries[q] == r.res.value
    ensures r.st == st.(subSqlQueries := r.st.subSqlQueries)
    decreases q, 5
  {
    if q in st.subSqlQueries then Step(Success(st.subSqlQueries[q]), st)
    else
      var prefix := ctx.prefix + "s" + NatToString(|st.subSqlQueries|);
      var child := Initialize(Ctx(ctx.env, q, prefix), FreshState(q.mapped, forceLeftJoins));
      if child.res.Failure? then Step(Failure(child.res.error), st)
      else
        var n := Nested(prefix, child.st);
        Step(Success(n), st.(subSqlQueries := st.subSqlQueries[q := n]))
  }

  // ---------------------------------------------------------------------------
  // initializeClauses

  /** initializeClauses: substitution, WHERE, ORDER BY, FROM, then the clauses are stored. */
  function Initialize(ctx: Ctx, st: CompilerState): (r: Step<()>)
    requires Wf(st)
    ensures Wf(r.st) && Grows(st, r.st)
    decreases ctx.query, 4, 1
  {
    var e := ExpandExtraJoins(ctx, st);
    var w := BuildWhere(ctx, e.1);
    GrowsTrans(st, e.1, w.st);
    if w.res.Failure? then Step(Failure(w.res.error), w.st)
    else
      var f := FinishClauses(ctx, e.0, w.res.value, w.st);
      GrowsTrans(st, w.st, f.st);
      f
  }

  /** The clauses after WHERE: the sorters, then the FROM clause, then the extra HAVING text unless blank. */
  function FinishClauses(ctx: Ctx, extraJoins: Option<seq<Fragment>>, where: Cond, st: CompilerState): (r: Step<()>)
    requires Wf(st)
    ensures Wf(r.st) && Grows(st, r.st)
    decreases ctx.query, 4, 0
  {
    var s := AddSorters(ctx, |ctx.query.sorters|, st);
    if s.res.Failure? then Step(Failure(s.res.error), s.st)
    else
      var f := BuildFrom(ctx, extraJoins, s.st);
      GrowsTrans(st, s.st, f.st);
      if f.res.Failure? then Step(Failure(f.res.error), f.st)
      else
        var having := ctx.query.options.extraHaving;
        Step(Success(()), f.st.(whereCondition := where,
                                havingCondition := if having.Some? && !IsBlank(having.value) then having else None,
                                fromClause := f.res.value))
  }

  /** The WHERE condition: the type filter, AND the predicate's condition when there is one, AND the extra WHERE text unless blank. */
  function BuildWhere(ctx: Ctx, st: CompilerState): (r: Step<Cond>)
    requires Wf(st)
    ensures Wf(r.st) && Grows(st, r.st)
    ensures r.st.orderByFields == st.orderByFields
    decreases ctx.query, 3
  {
    var q := ctx.query;
    var base := if q.fromAll then TrueCond else TypeIdIn(ctx.prefix, q.typeIds);
    var c := if q.where.Some? then Compile(ctx, q.where.value, [], None, false, st) else Step(Success(None), st);
    if c.res.Failure? then Step(Failure(c.res.error), c.st)
    else
      var w1 := if c.res.value.Some? then And(base, c.res.value.value) else base;
      var extra := q.options.extraWhere;
      Step(Success(if extra.Some? && !IsBlank(extra.value) then And(w1, Raw(extra.value)) else w1), c.st)
  }

  /** The sorter loop over the first `n` sorters. */
  function AddSorters(ctx: Ctx, n: nat, st: CompilerState): (r: Step<()>)
    requires n <= |ctx.query.sorters| && Wf(st)
    ensures Wf(r.st) && Grows(st, r.st)
    decreases ctx.query, 3, n
  {
    if n == 0 then Step(Success(()), st)
    else
      var prev := AddSorters(ctx, n - 1, st);
      if prev.res.Failure? then prev
      else
        var s := AddSorter(ctx, ctx.query.sorters[n - 1], prev.st);
        GrowsTrans(st, prev.st, s.st);
        s
  }

  /**
   * One sorter: an unknown operator fails; otherwise the key's join is found
   * or created, and the sorter's sub-query (joined, its ORDER BY taken over)
   * or the value column (ascending, descending) or the vendor's distance
   * expression (closest, farthest) is added to ORDER BY.
   */
  function AddSorter(ctx: Ctx, s: Sorter, st: CompilerState): (r: Step<()>)
    requires Wf(st)
    ensures Wf(r.st) && Grows(st, r.st)
    decreases s, 1
  {
    if s.op.OtherSort? then Step(Failure(UnsupportedSorter(s)), st)
    else if s.key !in st.mappedKeys then Step(Failure(UnmappedKey(s.key)), st)
    else
      var pick := FindOrCreateSpec(ctx.env, st, s.key);
      var r := if s.subQuery.Some? then SortBySubQuery(ctx, s, pick) else SortByValue(ctx, s, pick);
      GrowsTrans(st, pick.st, r.st);
      r
  }

  /** A sorter with a sub-query: the nested compiler joined on the sorter's value column, its ORDER BY taken over. */
  function SortBySubQuery(ctx: Ctx, s: Sorter, pick: Pick): (r: Step<()>)
    requires s.subQuery.Some? && Wf(pick.st)
    ensures Wf(r.st) && Grows(pick.st, r.st)
    ensures r.st.joins == pick.st.joins
    ensures r.res.Failure? ==> r.st.orderByFields == pick.st.orderByFields && r.st.subQueries == pick.st.subQueries
    ensures r.res.Success? ==>
      var q := s.subQuery.value;
      var i := EntryOf(r.st.subQueries, q);
      && q in r.st.subSqlQueries
      && i < |r.st.subQueries| && r.st.subQueries[i] == SubQueryEntry(q, Correlation(ValueColumn(ctx.prefix, pick.index, s.key), false))
      && r.st.orderByFields == pick.st.orderByFields + r.st.subSqlQueries[q].state.orderByFields
    decreases s, 0
  {
    var field := ValueColumn(ctx.prefix, pick.index, s.key);
    var g := GetOrCreate(ctx, s.subQuery.value, true, pick.st);
    if g.res.Failure? then Step(Failure(g.res.error), g.st)
    else
      PutFinds(g.st.subQueries, s.subQuery.value, Correlation(field, false));
      Step(Success(()), g.st.(subQueries := PutEntry(g.st.subQueries, s.subQuery.value, Correlation(field, false)),
                              orderByFields := g.st.orderByFields + g.res.value.state.orderByFields))
  }

  /** A sorter without a sub-query: the value column ascending or descending, or the vendor's distance expression. */
  function SortByValue(ctx: Ctx, s: Sorter, pick: Pick): (r: Step<()>)
    requires Wf(pick.st)
    ensures Wf(r.st) && Grows(pick.st, r.st)
    ensures r.res.Failure? <==> !s.op.Ascending? && !s.op.Descending? && !ctx.env.geoSupported
    ensures r.res.Failure? ==> r == Step(Failure(UnsupportedIndex(s.key)), pick.st)
    ensures r.res.Success? ==>
      && r.st == pick.st.(orderByFields := r.st.orderByFields)
      && |r.st.orderByFields| == |pick.st.orderByFields| + 1 && pick.st.orderByFields <= r.st.orderByFields
  {
    var field := ValueColumn(ctx.prefix, pick.index, s.key);
    if s.op.Ascending? then Step(Success(()), pick.st.(orderByFields := pick.st.orderByFields + [Asc(FieldExpr(field))]))
    else if s.op.Descending? then Step(Success(()), pick.st.(orderByFields := pick.st.orderByFields + [Desc(FieldExpr(field))]))
    else if !ctx.env.geoSupported then Step(Failure(UnsupportedIndex(s.key)), pick.st)
    else
      var nearest := NearestExpr(field, s.location);
      Step(Success(()), pick.st.(orderByFields := pick.st.orderByFields + [if s.op.Closest? then Asc(nearest) else Desc(nearest)]))
  }

  /**
   * The FROM items of the first `n` correlated sub-queries, and whether one
   * of their compilers needs duplicate elimination: item k is entry k's
   * nested FROM clause, aliased by the nested prefix and "r" and joined on
   * its correlation.
   */
  function JoinSubQueries(st: CompilerState, n: nat): (r: (seq<FromItem>, bool))
    requires n <= |st.subQueries| && Wf(st)
    ensures |r.0| == n
    ensures forall k | 0 <= k < n ::
      var nested := st.subSqlQueries[st.subQueries[k].query];
      r.0[k] == SubQueryJoin(nested.prefix + "r", st.subQueries[k].correlation, nested.state.fromClause)
    ensures r.1 <==> exists k | 0 <= k < n :: st.subSqlQueries[st.subQueries[k].query].state.needsDistinct
    decreases n
  {
    if n == 0 then ([], false)
    else
      var prev := JoinSubQueries(st, n - 1);
      var entry := st.subQueries[n - 1];
      var nested := st.subSqlQueries[entry.query];
      (prev.0 + [SubQueryJoin(nested.prefix + "r", entry.correlation, nested.state.fromClause)],
       prev.1 || nested.state.needsDistinct)
  }

  /** The FROM builder: the joins, then the correlated sub-queries, then the substituted extra joins. */
  function BuildFrom(ctx: Ctx, extra: Option<seq<Fragment>>, st: CompilerState): (r: Step<seq<FromItem>>)
    requires Wf(st)
    ensures Wf(r.st) && Grows(st, r.st)
    ensures r.st == st.(needsDistinct := r.st.needsDistinct, ignorePrimaryDisabled := r.st.ignorePrimaryDisabled)
  {
    var e := EmitJoins(ctx.prefix, st.forceLeftJoins, st.joins, |st.joins|);
    if e.Failure? then Step(Failure(e.error), st)
    else
      var subs := JoinSubQueries(st, |st.subQueries|);
      var st1 := st.(ignorePrimaryDisabled := st.ignorePrimaryDisabled || e.value.disabled,
                     needsDistinct := st.needsDistinct || subs.1);
      Step(Success(e.value.items + subs.0 + (if extra.Some? then [ExtraJoins(extra.value)] else [])), st1)
  }

  // ---------------------------------------------------------------------------
  // subQueryStatement

  /** subQueryStatement: the clauses are built, then the record ids are selected, DISTINCT exactly when duplicates are possible. */
  function SubQueryStatement(ctx: Ctx, st: CompilerState): (r: Step<SubSelect>)
    requires Wf(st)
    ensures Wf(r.st) && Grows(st, r.st)
    ensures r.res.Success? ==> r.res.value.distinct == r.st.needsDistinct && r.res.value.prefix == ctx.prefix
    decreases ctx.query, 5
  {
    var init := Initialize(ctx, st);
    if init.res.Failure? then Step(Failure(init.res.error), init.st)
    else
      var s := init.st;
      Step(Success(SubSelect(s.needsDistinct, ctx.prefix, s.fromClause, s.whereCondition, s.havingCondition, s.orderByFields)), s)
  }
}
