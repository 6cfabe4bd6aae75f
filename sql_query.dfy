/**
 * The compiler object itself: an SqlQuery holds its query, its alias prefix
 * and the state it builds (mapped keys, selected indexes, joins, correlated
 * sub-queries, the cache of nested compilers, the flags and the clauses),
 * and its methods update that state in place, step by step, as the source
 * does. Every method is proved to leave exactly the state, and return
 * exactly the result, that the functions of CompilerSpec and Statements
 * give for the state it started from; the properties proved about those
 * functions therefore hold of the object.
 */
module Compiler {
  import opened Wrappers
  import opened DariQuery
  import opened Conditions
  import opened Joins
  import opened QueryState
  import opened ValueConditions
  import opened FromClause
  import opened Placeholders
  import opened Similar
  import opened Text
  import IndexSelection
  import ExtraJoins
  import CompilerSpec
  import Statements

  class SqlQuery {
    const env: Env
    const query: Query
    const aliasPrefix: string

    var mappedKeys: map<string, MappedKey>
    var selectedIndexes: map<string, Index>
    var joins: seq<Join>
    var subQueries: seq<SubQueryEntry>
    var subSqlQueries: map<Query, Nested>
    var needsDistinct: bool
    var orderByFields: seq<SortField>
    var fromClause: seq<FromItem>
    var whereCondition: Cond
    var havingCondition: Option<string>
    var ignorePrimaryDisabled: bool
    var forceLeftJoins: bool

    /** The object's state as a value. */
    function State(): CompilerState
      reads this
    {
      CompilerState(mappedKeys, selectedIndexes, joins, subQueries, subSqlQueries, needsDistinct,
                    orderByFields, fromClause, whereCondition, havingCondition, ignorePrimaryDisabled, forceLeftJoins)
    }

    function Context(): Ctx {
      Ctx(env, query, aliasPrefix)
    }

    /** The keys of the query mapped, and an index selected for each of them. */
    constructor (env: Env, query: Query, aliasPrefix: string)
      ensures this.env == env && this.query == query && this.aliasPrefix == aliasPrefix
      ensures State() == FreshState(query.mapped, false)
    {
      this.env := env;
      this.query := query;
      this.aliasPrefix := aliasPrefix;
      mappedKeys := query.mapped;
      selectedIndexes := map[];
      joins := [];
      subQueries := [];
      subSqlQueries := map[];
      needsDistinct := false;
      orderByFields := [];
      fromClause := [];
      whereCondition := TrueCond;
      havingCondition := None;
      ignorePrimaryDisabled := false;
      forceLeftJoins := false;
      new;
      var todo := mappedKeys.Keys;
      while todo != {}
        invariant todo <= query.mapped.Keys
        invariant State() == FreshState(query.mapped, false).(selectedIndexes := selectedIndexes)
        invariant selectedIndexes == SelectedAmong(query.mapped, query.mapped.Keys - todo)
        decreases |todo|
      {
        var key :| key in todo;
        ghost var done := query.mapped.Keys - todo;
        SelectIndex(key, mappedKeys[key]);
        SelectedAmongAdd(query.mapped, done, key);
        todo := todo - {key};
        assert query.mapped.Keys - todo == done + {key};
      }
      assert query.mapped.Keys - todo == query.mapped.Keys;
      SelectedAmongAll(query.mapped);
    }

    /** selectIndex: the candidate index chosen for `key` is recorded, if there is one. */
    method SelectIndex(key: string, mk: MappedKey)
      modifies this
      ensures State() == SelectIndexSpec(old(State()), key, mk)
    {
      var selected := IndexSelection.ChooseIndex(mk.indexes, mappedKeys);
      if selected.Some? {
        selectedIndexes := selectedIndexes[key := selected.value];
      }
    }

    // -------------------------------------------------------------------------
    // Joins

    method AppendJoin(key: string, isolated: bool) returns (i: nat)
      requires key in mappedKeys
      modifies this
      ensures Pick(i, State()) == QueryState.AppendJoin(env, old(State()), key, isolated)
    {
      var mk := mappedKeys[key];
      var selected := if key in selectedIndexes then Some(selectedIndexes[key]) else None;
      var symbol := env.indexKeyOf(mk, selected);
      joins := joins + [NewJoin(key, mk, env.tableFor(mk.sqlIndex, selected), symbol, isolated)];
      i := |joins| - 1;
    }

    /** findOrCreate: the first join findOrCreate already made for `key` (never one made by create), else a new one. */
    method FindOrCreate(key: string) returns (i: nat)
      requires key in mappedKeys
      modifies this
      ensures Pick(i, State()) == FindOrCreateSpec(env, old(State()), key)
    {
      i := 0;
      while i < |joins|
        invariant i <= |joins|
        invariant forall k | 0 <= k < i :: joins[k].key != key || joins[k].isolated
      {
        if joins[i].key == key && !joins[i].isolated {
          return;
        }
        i := i + 1;
      }
      i := AppendJoin(key, false);
    }

    /** create: a new join of the comparison's own. */
    method Create(key: string) returns (i: nat)
      requires key in mappedKeys
      modifies this
      ensures Pick(i, State()) == CreateSpec(env, old(State()), key)
    {
      i := AppendJoin(key, true);
    }

    /** The join a comparison reads: shared with an OR sibling, bound to the OR node, private, or found or created. */
    method ChooseJoin(key: string, orParent: Option<seq<nat>>) returns (i: nat)
      requires key in mappedKeys
      modifies this
      ensures Pick(i, State()) == CompilerSpec.ChooseJoin(env, old(State()), key, orParent)
    {
      var mk := mappedKeys[key];
      if mk.field.Some? && orParent.Some? {
        i := 0;
        while i < |joins|
          invariant i <= |joins|
          invariant forall k | 0 <= k < i :: joins[k].parent != orParent || joins[k].sqlIndex != mk.sqlIndex
        {
          if joins[i].parent == orParent && joins[i].sqlIndex == mk.sqlIndex {
            needsDistinct := true;
            joins := joins[i := joins[i].(indexKeys := joins[i].indexKeys + {key})];
            return;
          }
          i := i + 1;
        }
        i := FindOrCreate(key);
        joins := joins[i := joins[i].(parent := orParent)];
      } else if mk.isCollection {
        i := Create(key);
      } else {
        i := FindOrCreate(key);
      }
    }

    /** The comparison's join made LEFT OUTER when asked, and duplicates noted for a collection on an old or missing table. */
    method PrepareJoin(key: string, orParent: Option<seq<nat>>, usesLeftJoin: bool) returns (i: nat)
      requires key in mappedKeys
      modifies this
      ensures Pick(i, State()) == CompilerSpec.PrepareJoin(env, old(State()), key, orParent, usesLeftJoin)
    {
      i := ChooseJoin(key, orParent);
      MakeJoinOuter(i, usesLeftJoin);
      var join := joins[i];
      NoteDistinct(mappedKeys[key].isCollection && (join.table.None? || join.table.value.version < 2));
    }

    // -------------------------------------------------------------------------
    // createWhereCondition

    /** The condition of a predicate node (None when it has none). */
    method CreateWhereCondition(p: Predicate, path: seq<nat>, orParent: Option<seq<nat>>, usesLeftJoin: bool)
      returns (r: Result<Option<Cond>, CompileError>)
      requires Wf(State())
      modifies this
      ensures r == CompilerSpec.Compile(Context(), p, path, orParent, usesLeftJoin, old(State())).res
      ensures State() == CompilerSpec.Compile(Context(), p, path, orParent, usesLeftJoin, old(State())).st
      decreases p, 2
    {
      match p
      case Compound(op, children) =>
        if op.NotOp? || op.OrOp? {
          var many := |children| > 1;
          NoteDistinct(many);
          var cs := CompileChildren(p, path, if op.OrOp? then Some(path) else None, many || op.NotOp?);
          if cs.Failure? {
            return Failure(cs.error);
          }
          var c := Combine(false, cs.value);
          r := Success(if op.NotOp? && c.Some? then Some(Not(c.value)) else c);
        } else if op.AndOp? {
          var cs := CompileChildren(p, path, None, usesLeftJoin);
          if cs.Failure? {
            return Failure(cs.error);
          }
          r := Success(Combine(true, cs.value));
        } else {
          r := Failure(UnsupportedPredicate(p));
        }
      case Comparison(_, _, _, _) =>
        r := CompileComparison(p, orParent, usesLeftJoin);
      case OtherPredicate(_) =>
        r := Failure(UnsupportedPredicate(p));
    }

    /** The children of a compound, left to right, every result kept. */
    method CompileChildren(p: Predicate, path: seq<nat>, orParent: Option<seq<nat>>, usesLeftJoin: bool)
      returns (r: Result<seq<Option<Cond>>, CompileError>)
      requires p.Compound? && Wf(State())
      modifies this
      ensures r == CompilerSpec.CompileChildren(Context(), p, path, orParent, usesLeftJoin, |p.children|, old(State())).res
      ensures State() == CompilerSpec.CompileChildren(Context(), p, path, orParent, usesLeftJoin, |p.children|, old(State())).st
      decreases p, 1
    {
      ghost var st0 := State();
      ghost var ctx := Context();
      r := Success([]);
      var i := 0;
      while i < |p.children| && r.Success?
        invariant 0 <= i <= |p.children| && Wf(State())
        invariant CompilerSpec.CompileChildren(ctx, p, path, orParent, usesLeftJoin, i, st0) == Step(r, State())
      {
        ghost var before := State();
        var c := CreateWhereCondition(p.children[i], path + [i], orParent, usesLeftJoin);
        ChildrenLoopStep(ctx, p, path, orParent, usesLeftJoin, i, st0, r.value, before, c, State());
        r := if c.Failure? then Failure(c.error) else Success(r.value + [c.value]);
        i := i + 1;
      }
      if r.Failure? {
        ChildrenFailureSticks(ctx, p, path, orParent, usesLeftJoin, i, |p.children|, st0);
      }
    }

    /** A comparison: its join, then its sub-query or its per-value conditions. */
    method CompileComparison(p: Predicate, orParent: Option<seq<nat>>, usesLeftJoin: bool)
      returns (r: Result<Option<Cond>, CompileError>)
      requires p.Comparison? && Wf(State())
      modifies this
      ensures r == CompilerSpec.CompileComparison(Context(), p, orParent, usesLeftJoin, old(State())).res
      ensures State() == CompilerSpec.CompileComparison(Context(), p, orParent, usesLeftJoin, old(State())).st
      decreases p, 1
    {
      if p.key !in mappedKeys {
        return Failure(UnmappedKey(p.key));
      }
      var mk := mappedKeys[p.key];
      var j := PrepareJoin(p.key, orParent, usesLeftJoin);
      var field := ValueColumn(aliasPrefix, j, p.key);
      if p.valueQuery.Some? {
        r := CompileSubQueryComparison(p, mk, joins[j], field);
      } else {
        r := CompileValues(p, j);
      }
    }

    /** A comparison with a sub-query: inlined when the field is compared elsewhere without one, joined otherwise. */
    method CompileSubQueryComparison(p: Predicate, mk: MappedKey, join: Join, field: FieldRef)
      returns (r: Result<Option<Cond>, CompileError>)
      requires p.Comparison? && p.valueQuery.Some? && Wf(State())
      modifies this
      ensures r == CompilerSpec.CompileSubQueryComparison(Context(), p, mk, join, field, old(State())).res
      ensures State() == CompilerSpec.CompileSubQueryComparison(Context(), p, mk, join, field, old(State())).st
      decreases p, 0
    {
      var valueQuery := p.valueQuery.value;
      var nea := p.cmp.NotEqualsAll?;
      NoteDistinct(nea || mk.isCollection);
      var similar := if query.where.Some? then FindSimilar(mappedKeys, mk.field, query.where.value) else Success(false);
      if similar.Failure? {
        return Failure(similar.error);
      }
      if similar.value {
        r := InlineSubQuery(valueQuery, field, nea);
      } else {
        r := JoinSubQuery(valueQuery, join.kind == LeftOuterJoin, field, nea);
      }
    }

    /** The sub-query compiled by a compiler of its own, with an empty alias prefix. */
    method InlineSubQuery(valueQuery: Query, field: FieldRef, nea: bool) returns (r: Result<Option<Cond>, CompileError>)
      requires Wf(State())
      ensures r == CompilerSpec.InlineSubQuery(Context(), valueQuery, field, nea, State()).res
      decreases valueQuery, 6
    {
      var inlined := new SqlQuery(env, valueQuery, "");
      var sub := inlined.SubQueryStatement();
      if sub.Failure? {
        return Failure(sub.error);
      }
      r := Success(Some(InSubQuery(field, sub.value, nea)));
    }

    /** The sub-query's nested compiler, correlated on the field. */
    method JoinSubQuery(valueQuery: Query, forceLeftJoins: bool, field: FieldRef, nea: bool) returns (r: Result<Option<Cond>, CompileError>)
      requires Wf(State())
      modifies this
      ensures r == CompilerSpec.JoinSubQuery(Context(), valueQuery, forceLeftJoins, field, nea, old(State())).res
      ensures State() == CompilerSpec.JoinSubQuery(Context(), valueQuery, forceLeftJoins, field, nea, old(State())).st
      decreases valueQuery, 6
    {
      var nested := GetOrCreateSubSqlQuery(valueQuery, forceLeftJoins);
      if nested.Failure? {
        return Failure(nested.error);
      }
      Correlate(valueQuery, Correlation(field, nea));
      r := Success(Some(nested.value.state.whereCondition));
    }

    /** A comparison without a sub-query: the value loop, then the flags and the guards. */
    method CompileValues(p: Predicate, j: nat) returns (r: Result<Option<Cond>, CompileError>)
      requires p.Comparison? && p.key in mappedKeys && j < |joins| && Wf(State())
      modifies this
      ensures r == CompilerSpec.CompileValues(Context(), p, j, old(State())).res
      ensures State() == CompilerSpec.CompileValues(Context(), p, j, old(State())).st
    {
      var mk := mappedKeys[p.key];
      var nea := p.cmp.NotEqualsAll?;
      var vc := ValueContext(p.cmp, mk.isCollection, ValueColumn(aliasPrefix, j, p.key), joins[j].sqlIndex, env.geoSupported, p.key);
      var out, o := CollectValueConditions(vc, p.values);
      MakeJoinOuter(j, o.outer);
      NoteDistinct(o.distinct);
      if out.Failure? {
        return Failure(out.error);
      }
      if o.conds == [] {
        r := Success(Some(CombineValues(nea, [])));
      } else if o.hasMissing {
        r := Success(Some(CombineValues(nea, o.conds)));
      } else {
        r := Success(Some(CompilerSpec.Guarded(env, State(), aliasPrefix, p.key, j, CombineValues(nea, o.conds))));
        NoteDistinct(|o.conds| > 1);
      }
    }

    // -------------------------------------------------------------------------
    // getOrCreateSubSqlQuery

    /** The cached nested compiler for `q`, or a new one, its clauses built, then cached. */
    method GetOrCreateSubSqlQuery(q: Query, forceLeftJoins: bool) returns (r: Result<Nested, CompileError>)
      requires Wf(State())
      modifies this
      ensures r == CompilerSpec.GetOrCreate(Context(), q, forceLeftJoins, old(State())).res
      ensures State() == CompilerSpec.GetOrCreate(Context(), q, forceLeftJoins, old(State())).st
      decreases q, 5
    {
      if q in subSqlQueries {
        return Success(subSqlQueries[q]);
      }
      var prefix := aliasPrefix + "s" + NatToString(|subSqlQueries|);
      var child := new SqlQuery(env, q, prefix);
      child.forceLeftJoins := forceLeftJoins;
      var init := child.InitializeClauses();
      if init.Failure? {
        return Failure(init.error);
      }
      var nested := Nested(prefix, child.State());
      Cache(q, nested);
      r := Success(nested);
    }

    // -------------------------------------------------------------------------
    // initializeClauses

    /** initializeClauses: placeholders, WHERE, ORDER BY, FROM, then the clauses are stored. */
    method InitializeClauses() returns (r: Result<(), CompileError>)
      requires Wf(State())
      modifies this
      ensures r == CompilerSpec.Initialize(Context(), old(State())).res
      ensures State() == CompilerSpec.Initialize(Context(), old(State())).st
      decreases query, 4
    {
      var extraJoins := ExpandExtraJoins();
      var where := BuildWhere();
      if where.Failure? {
        return Failure(where.error);
      }
      r := FinishClauses(extraJoins, where.value);
    }

    /** The clauses after WHERE: the sorters, the FROM clause and the extra HAVING text. */
    method FinishClauses(extraJoins: Option<seq<Fragment>>, where: Cond) returns (r: Result<(), CompileError>)
      requires Wf(State())
      modifies this
      ensures r == CompilerSpec.FinishClauses(Context(), extraJoins, where, old(State())).res
      ensures State() == CompilerSpec.FinishClauses(Context(), extraJoins, where, old(State())).st
      decreases query, 4, 0
    {
      var sorted := AddSorters();
      if sorted.Failure? {
        return Failure(sorted.error);
      }
      var from := BuildFrom(extraJoins);
      if from.Failure? {
        return Failure(from.error);
      }
      var having := query.options.extraHaving;
      SetClauses(where, if having.Some? && !IsBlank(having.value) then having else None, from.value);
      r := Success(());
    }

    /** Stores the built WHERE, HAVING and FROM clauses. */
    method SetClauses(where: Cond, having: Option<string>, from: seq<FromItem>)
      modifies this
      ensures State() == old(State()).(whereCondition := where, havingCondition := having, fromClause := from)
    {
      whereCondition := where;
      havingCondition := having;
      fromClause := from;
    }

    /** Notes that rows may repeat, when `when` holds. */
    method NoteDistinct(when: bool)
      modifies this
      ensures State() == SetDistinct(old(State()), when)
    {
      if when {
        needsDistinct := true;
      }
    }

    /** Turns join `j` into a LEFT OUTER JOIN, when `when` holds. */
    method MakeJoinOuter(j: nat, when: bool)
      requires j < |joins|
      modifies this
      ensures State() == CompilerSpec.Outer(old(State()), j, when)
    {
      if when {
        joins := MakeOuter(joins, j);
      }
    }

    /** Records the correlation of a sub-query's nested compiler. */
    method Correlate(q: Query, c: Correlation)
      modifies this
      ensures State() == old(State()).(subQueries := PutEntry(old(subQueries), q, c))
    {
      subQueries := PutEntry(subQueries, q, c);
    }

    /** Caches the nested compiler built for `q`. */
    method Cache(q: Query, nested: Nested)
      modifies this
      ensures State() == old(State()).(subSqlQueries := old(subSqlQueries)[q := nested])
    {
      subSqlQueries := subSqlQueries[q := nested];
    }

    /** Appends ORDER BY fields after the ones already there. */
    method AppendOrderBy(fields: seq<SortField>)
      modifies this
      ensures State() == old(State()).(orderByFields := old(orderByFields) + fields)
    {
      orderByFields := orderByFields + fields;
    }

    /** The `${key}` placeholders of the extra-joins option replaced by their joins' value columns. */
    method ExpandExtraJoins() returns (r: Option<seq<Fragment>>)
      modifies this
      ensures (r, State()) == ExtraJoins.ExpandExtraJoins(Context(), old(State()))
    {
      if query.options.extraJoins.None? {
        return None;
      }
      ghost var st0 := State();
      ghost var ctx := Context();
      var pieces := Tokenize(query.options.extraJoins.value, 0);
      var frags: seq<Fragment> := [];
      var i := 0;
      while i < |pieces|
        invariant 0 <= i <= |pieces|
        invariant ExtraJoins.ExpandPieces(ctx, pieces, i, st0) == ExtraJoins.Expanded(frags, State())
      {
        ghost var before := State();
        var frag := ExpandPiece(pieces[i]);
        ExpandLoopStep(ctx, pieces, i, st0, frags, before, ExtraJoins.Expanded([frag], State()));
        frags := frags + [frag];
        i := i + 1;
      }
      r := Some(frags);
    }

    /** One piece of the extra-joins text: a literal kept, a placeholder's key mapped and its join made LEFT OUTER. */
    method ExpandPiece(piece: Piece) returns (frag: Fragment)
      modifies this
      ensures ExtraJoins.Expanded([frag], State()) == ExtraJoins.ExpandPiece(Context(), old(State()), piece)
    {
      match piece {
        case Lit(text) =>
          frag := Text(text);
        case Key(key) =>
          AddKey(key, env.resolve(query, key));
          var j := FindOrCreate(key);
          joins := joins[j := joins[j].(kind := LeftOuterJoin)];
          frag := ValueRef(ValueColumn(aliasPrefix, j, key));
      }
    }

    /** A key resolved late: mapped, then its index selected against the grown key set. */
    method AddKey(key: string, mk: MappedKey)
      modifies this
      ensures State() == QueryState.AddKey(old(State()), key, mk)
    {
      mappedKeys := mappedKeys[key := mk];
      SelectIndex(key, mk);
    }

    /** The WHERE condition: the type filter, the predicate's condition, the extra WHERE text. */
    method BuildWhere() returns (r: Result<Cond, CompileError>)
      requires Wf(State())
      modifies this
      ensures r == CompilerSpec.BuildWhere(Context(), old(State())).res
      ensures State() == CompilerSpec.BuildWhere(Context(), old(State())).st
      decreases query, 3
    {
      var where := if query.fromAll then TrueCond else TypeIdIn(aliasPrefix, query.typeIds);
      if query.where.Some? {
        var c := CreateWhereCondition(query.where.value, [], None, false);
        if c.Failure? {
          return Failure(c.error);
        }
        if c.value.Some? {
          where := And(where, c.value.value);
        }
      }
      var extra := query.options.extraWhere;
      if extra.Some? && !IsBlank(extra.value) {
        where := And(where, Raw(extra.value));
      }
      r := Success(where);
    }

    /** The sorter loop. */
    method AddSorters() returns (r: Result<(), CompileError>)
      requires Wf(State())
      modifies this
      ensures r == CompilerSpec.AddSorters(Context(), |query.sorters|, old(State())).res
      ensures State() == CompilerSpec.AddSorters(Context(), |query.sorters|, old(State())).st
      decreases query, 3
    {
      ghost var st0 := State();
      ghost var ctx := Context();
      r := Success(());
      var i := 0;
      while i < |query.sorters| && r.Success?
        invariant 0 <= i <= |query.sorters| && Wf(State())
        invariant CompilerSpec.AddSorters(ctx, i, st0) == Step(r, State())
      {
        r := AddSorterAt(ctx, i, st0);
        i := i + 1;
      }
      if r.Failure? {
        SortersFailureSticks(ctx, i, |query.sorters|, st0);
      }
    }

    /** The i-th sorter of the query, added after the ones before it succeeded. */
    method AddSorterAt(ghost ctx: Ctx, i: nat, ghost st0: CompilerState) returns (r: Result<(), CompileError>)
      requires ctx == Context() && i < |query.sorters| && Wf(st0)
      requires Wf(State())
      requires CompilerSpec.AddSorters(ctx, i, st0).res.Success? && CompilerSpec.AddSorters(ctx, i, st0).st == State()
      modifies this
      ensures Wf(State())
      ensures CompilerSpec.AddSorters(ctx, i + 1, st0) == Step(r, State())
      decreases query, 2
    {
      ghost var before := State();
      r := AddSorter(query.sorters[i]);
      SortersLoopStep(ctx, i, st0, before, r, State());
    }

    /** One sorter: its join, then its sub-query's ORDER BY, its value column, or its distance expression. */
    method AddSorter(s: Sorter) returns (r: Result<(), CompileError>)
      requires Wf(State())
      modifies this
      ensures r == CompilerSpec.AddSorter(Context(), s, old(State())).res
      ensures State() == CompilerSpec.AddSorter(Context(), s, old(State())).st
      decreases s, 1
    {
      if s.op.OtherSort? {
        return Failure(UnsupportedSorter(s));
      }
      if s.key !in mappedKeys {
        return Failure(UnmappedKey(s.key));
      }
      var j := FindOrCreate(s.key);
      if s.subQuery.Some? {
        r := SortBySubQuery(s, j);
      } else {
        r := SortByValue(s, j);
      }
    }

    method SortBySubQuery(s: Sorter, j: nat) returns (r: Result<(), CompileError>)
      requires s.subQuery.Some? && Wf(State())
      modifies this
      ensures r == CompilerSpec.SortBySubQuery(Context(), s, Pick(j, old(State()))).res
      ensures State() == CompilerSpec.SortBySubQuery(Context(), s, Pick(j, old(State()))).st
      decreases s, 0
    {
      var field := ValueColumn(aliasPrefix, j, s.key);
      var nested := GetOrCreateSubSqlQuery(s.subQuery.value, true);
      if nested.Failure? {
        return Failure(nested.error);
      }
      Correlate(s.subQuery.value, Correlation(field, false));
      AppendOrderBy(nested.value.state.orderByFields);
      r := Success(());
    }

    method SortByValue(s: Sorter, j: nat) returns (r: Result<(), CompileError>)
      requires Wf(State())
      modifies this
      ensures r == CompilerSpec.SortByValue(Context(), s, Pick(j, old(State()))).res
      ensures State() == CompilerSpec.SortByValue(Context(), s, Pick(j, old(State()))).st
    {
      var field := ValueColumn(aliasPrefix, j, s.key);
      if s.op.Ascending? {
        AppendOrderBy([Asc(FieldExpr(field))]);
      } else if s.op.Descending? {
        AppendOrderBy([Desc(FieldExpr(field))]);
      } else if !env.geoSupported {
        return Failure(UnsupportedIndex(s.key));
      } else {
        var nearest := NearestExpr(field, s.location);
        AppendOrderBy([if s.op.Closest? then Asc(nearest) else Desc(nearest)]);
      }
      r := Success(());
    }

    /** The FROM builder: one JOIN per join that filters on a symbol, the correlated sub-queries, the extra joins. */
    method BuildFrom(extraJoins: Option<seq<Fragment>>) returns (r: Result<seq<FromItem>, CompileError>)
      requires Wf(State())
      modifies this
      ensures r == CompilerSpec.BuildFrom(Context(), extraJoins, old(State())).res
      ensures State() == CompilerSpec.BuildFrom(Context(), extraJoins, old(State())).st
    {
      ghost var st0 := State();
      var items: seq<FromItem> := [];
      var disabled := false;
      var i := 0;
      while i < |joins|
        invariant 0 <= i <= |joins| && State() == st0
        invariant EmitJoins(aliasPrefix, forceLeftJoins, joins, i) == Success(Emitted(items, disabled))
      {
        var emitted := EmitJoin(aliasPrefix, forceLeftJoins, joins[i], i);
        if emitted.Failure? {
          EmitJoinsFailureSticks(aliasPrefix, forceLeftJoins, joins, i + 1, |joins|);
          return Failure(emitted.error);
        }
        if emitted.value.Some? {
          items := items + [emitted.value.value.0];
          disabled := disabled || emitted.value.value.1;
        }
        i := i + 1;
      }
      var subs: seq<FromItem> := [];
      var anyDistinct := false;
      var k := 0;
      while k < |subQueries|
        invariant 0 <= k <= |subQueries| && State() == st0
        invariant CompilerSpec.JoinSubQueries(st0, k) == (subs, anyDistinct)
      {
        var entry := subQueries[k];
        var nested := subSqlQueries[entry.query];
        subs := subs + [SubQueryJoin(nested.prefix + "r", entry.correlation, nested.state.fromClause)];
        anyDistinct := anyDistinct || nested.state.needsDistinct;
        k := k + 1;
      }
      SetFromFlags(disabled, anyDistinct);
      r := Success(items + subs + (if extraJoins.Some? then [ExtraJoins(extraJoins.value)] else []));
    }

    /** Notes, after the FROM clause is built, that the primary index is disabled or rows may repeat. */
    method SetFromFlags(disabled: bool, anyDistinct: bool)
      modifies this
      ensures State() == old(State()).(ignorePrimaryDisabled := old(ignorePrimaryDisabled) || disabled,
                                       needsDistinct := old(needsDistinct) || anyDistinct)
    {
      ignorePrimaryDisabled := ignorePrimaryDisabled || disabled;
      needsDistinct := needsDistinct || anyDistinct;
    }

    // -------------------------------------------------------------------------
    // Statements

    /** subQueryStatement: the record ids, DISTINCT when duplicates are possible. */
    method SubQueryStatement() returns (r: Result<SubSelect, CompileError>)
      requires Wf(State())
      modifies this
      ensures r == CompilerSpec.SubQueryStatement(Context(), old(State())).res
      ensures State() == CompilerSpec.SubQueryStatement(Context(), old(State())).st
      decreases query, 5
    {
      var init := InitializeClauses();
      if init.Failure? {
        return Failure(init.error);
      }
      r := Success(SubSelect(needsDistinct, aliasPrefix, fromClause, whereCondition, havingCondition, orderByFields));
    }

    method CountStatement() returns (r: Result<Statements.Statement, CompileError>)
      requires Wf(State())
      modifies this
      ensures r == Statements.Count(Context(), old(State())).res
      ensures State() == Statements.Count(Context(), old(State())).st
    {
      var init := InitializeClauses();
      if init.Failure? {
        return Failure(init.error);
      }
      r := Success(Statements.CountStatement(needsDistinct, fromClause, whereCondition));
    }

    method DeleteStatement() returns (r: Result<Statements.Statement, CompileError>)
      requires Wf(State())
      modifies this
      ensures r == Statements.Delete(Context(), old(State())).res
      ensures State() == Statements.Delete(Context(), old(State())).st
    {
      var init := InitializeClauses();
      if init.Failure? {
        return Failure(init.error);
      }
      r := Success(Statements.DeleteStatement(fromClause, whereCondition));
    }

    method LastUpdateStatement() returns (r: Result<Statements.Statement, CompileError>)
      requires Wf(State())
      modifies this
      ensures r == Statements.LastUpdate(Context(), old(State())).res
      ensures State() == Statements.LastUpdate(Context(), old(State())).st
    {
      var init := InitializeClauses();
      if init.Failure? {
        return Failure(init.error);
      }
      r := Success(Statements.LastUpdateStatement(aliasPrefix + "r", fromClause, whereCondition));
    }

    /** One group key: mapped, its index selected, its join found or created, and its grouping columns. */
    method AddGroupKey(key: string) returns (r: Result<seq<FieldRef>, CompileError>)
      requires Wf(State())
      modifies this
      ensures r == Statements.GroupKey(Context(), key, old(State())).res
      ensures State() == Statements.GroupKey(Context(), key, old(State())).st
    {
      var mk := env.resolve(query, key);
      AddKey(key, mk);
      var j := FindOrCreate(key);
      var field := ValueColumn(aliasPrefix, j, key);
      if mk.groupBySubQuery.None? {
        return Success([field]);
      }
      r := GroupBySubQuery(key, mk.groupBySubQuery.value, field);
    }

    /** The grouping columns of a key grouped through a sub-query: one per join of its nested compiler. */
    method GroupBySubQuery(key: string, subQuery: Query, field: FieldRef) returns (r: Result<seq<FieldRef>, CompileError>)
      requires Wf(State())
      modifies this
      ensures r == Statements.GroupBySubQuery(Context(), key, subQuery, field, old(State())).res
      ensures State() == Statements.GroupBySubQuery(Context(), key, subQuery, field, old(State())).st
    {
      var nested := GetOrCreateSubSqlQuery(subQuery, true);
      if nested.Failure? {
        return Failure(nested.error);
      }
      Correlate(subQuery, Correlation(field, false));
      var columns: seq<FieldRef> := [];
      var i := 0;
      while i < |nested.value.state.joins|
        invariant 0 <= i <= |nested.value.state.joins|
        invariant columns == Statements.ChildColumns(nested.value, key)[..i]
      {
        columns := columns + [ValueColumn(nested.value.prefix, i, key)];
        i := i + 1;
      }
      assert columns == Statements.ChildColumns(nested.value, key);
      r := Success(columns);
    }

    /** groupStatement: the keys checked, added one by one, then the clauses built. */
    method GroupStatement(groupKeys: Option<seq<string>>) returns (r: Result<Statements.Statement, CompileError>)
      requires Wf(State())
      modifies this
      ensures r == Statements.Group(Context(), groupKeys, old(State())).res
      ensures State() == Statements.Group(Context(), groupKeys, old(State())).st
    {
      if groupKeys.None? {
        return Failure(NullGroupKeys);
      }
      var keys := groupKeys.value;
      if keys == [] {
        return Failure(EmptyGroupKeys);
      }
      ghost var st0 := State();
      ghost var ctx := Context();
      var groupBy: Result<seq<FieldRef>, CompileError> := Success([]);
      var i := 0;
      while i < |keys| && groupBy.Success?
        invariant 0 <= i <= |keys| && Wf(State())
        invariant Statements.GroupKeys(ctx, keys, i, st0) == Step(groupBy, State())
      {
        ghost var before := State();
        var columns := AddGroupKey(keys[i]);
        GroupKeysLoopStep(ctx, keys, i, st0, groupBy.value, before, columns, State());
        groupBy := if columns.Failure? then Failure(columns.error) else Success(groupBy.value + columns.value);
        i := i + 1;
      }
      if groupBy.Failure? {
        GroupKeysFailureSticks(ctx, keys, i, |keys|, st0);
        return Failure(groupBy.error);
      }
      var init := InitializeClauses();
      if init.Failure? {
        return Failure(init.error);
      }
      r := Success(Statements.GroupStatement(needsDistinct, groupBy.value, fromClause, whereCondition, havingCondition, orderByFields));
    }

    /** selectStatement: the select list, the primary-index hint, and the DISTINCT select wrapped when the list is wider than the ids. */
    method SelectStatement() returns (r: Result<Statements.Statement, CompileError>)
      requires Wf(State())
      modifies this
      ensures r == Statements.Select(Context(), old(State())).res
      ensures State() == Statements.Select(Context(), old(State())).st
    {
      var init := InitializeClauses();
      if init.Failure? {
        return Failure(init.error);
      }
      var fields := [Statements.RecordId, Statements.RecordTypeId];
      if query.fields.None? {
        fields := fields + [Statements.DataColumn(aliasPrefix + "r")];
      } else {
        var names := query.fields.value;
        var i := 0;
        while i < |names|
          invariant 0 <= i <= |names|
          invariant fields == [Statements.RecordId, Statements.RecordTypeId] + Statements.Named(names[..i])
        {
          fields := fields + [Statements.NamedColumn(names[i])];
          i := i + 1;
        }
        assert names[..i] == names;
      }
      fields := fields + Statements.ExtraColumns(query.options.extraColumns);
      var ignorePrimary := Statements.IgnoresPrimary(State());
      var columns := if needsDistinct then [Statements.RecordId, Statements.RecordTypeId] else fields;
      var wrap := if needsDistinct && |fields| > 2 then Some(Statements.Wrap(aliasPrefix + "d", fields)) else None;
      r := Success(Statements.SelectStatement(needsDistinct, columns, ignorePrimary, wrap, fromClause, whereCondition, havingCondition, orderByFields));
    }
  }

  // ---------------------------------------------------------------------------
  // Helpers for the loops above

  /** The indexes selected for the keys in `done`, each against the whole key set. */
  ghost function SelectedAmong(mapped: map<string, MappedKey>, done: set<string>): map<string, Index> {
    map k | k in done && k in mapped && IndexSelection.SelectedIndex(mapped[k].indexes, mapped).Some?
      :: IndexSelection.SelectedIndex(mapped[k].indexes, mapped).value
  }

  lemma SelectedAmongAdd(mapped: map<string, MappedKey>, done: set<string>, key: string)
    requires key in mapped
    ensures IndexSelection.SelectedIndex(mapped[key].indexes, mapped).Some? ==>
              SelectedAmong(mapped, done + {key}) == SelectedAmong(mapped, done)[key := IndexSelection.SelectedIndex(mapped[key].indexes, mapped).value]
    ensures IndexSelection.SelectedIndex(mapped[key].indexes, mapped).None? ==>
              SelectedAmong(mapped, done + {key}) == SelectedAmong(mapped, done)
  {
  }

  lemma SelectedAmongAll(mapped: map<string, MappedKey>)
    ensures SelectedAmong(mapped, mapped.Keys) == SelectAll(mapped)
  {
  }

  lemma ExpandLoopStep(ctx: Ctx, pieces: seq<Piece>, i: nat, st0: CompilerState, frags: seq<Fragment>, before: CompilerState, e: ExtraJoins.Expanded)
    requires i < |pieces|
    requires ExtraJoins.ExpandPieces(ctx, pieces, i, st0) == ExtraJoins.Expanded(frags, before)
    requires ExtraJoins.ExpandPiece(ctx, before, pieces[i]) == e
    ensures ExtraJoins.ExpandPieces(ctx, pieces, i + 1, st0) == ExtraJoins.Expanded(frags + e.frags, e.st)
  {
  }

  lemma ChildrenLoopStep(ctx: Ctx, p: Predicate, path: seq<nat>, orParent: Option<seq<nat>>, ulc: bool, i: nat, st0: CompilerState,
                     cs: seq<Option<Cond>>, before: CompilerState, res: Result<Option<Cond>, CompileError>, after: CompilerState)
    requires p.Compound? && i < |p.children| && Wf(st0) && Wf(before)
    requires CompilerSpec.CompileChildren(ctx, p, path, orParent, ulc, i, st0).res == Success(cs)
    requires CompilerSpec.CompileChildren(ctx, p, path, orParent, ulc, i, st0).st == before
    requires CompilerSpec.Compile(ctx, p.children[i], path + [i], orParent, ulc, before) == Step(res, after)
    ensures CompilerSpec.CompileChildren(ctx, p, path, orParent, ulc, i + 1, st0)
         == if res.Failure? then Step(Failure(res.error), after) else Step(Success(cs + [res.value]), after)
  {
  }

  lemma SortersLoopStep(ctx: Ctx, i: nat, st0: CompilerState, before: CompilerState, res: Result<(), CompileError>, after: CompilerState)
    requires i < |ctx.query.sorters| && Wf(st0) && Wf(before)
    requires CompilerSpec.AddSorters(ctx, i, st0).res.Success? && CompilerSpec.AddSorters(ctx, i, st0).st == before
    requires CompilerSpec.AddSorter(ctx, ctx.query.sorters[i], before) == Step(res, after)
    ensures CompilerSpec.AddSorters(ctx, i + 1, st0) == Step(res, after)
  {
  }

  lemma GroupKeysLoopStep(ctx: Ctx, keys: seq<string>, i: nat, st0: CompilerState, groupBy: seq<FieldRef>, before: CompilerState,
                      res: Result<seq<FieldRef>, CompileError>, after: CompilerState)
    requires i < |keys| && Wf(st0) && Wf(before)
    requires Statements.GroupKeys(ctx, keys, i, st0).res == Success(groupBy) && Statements.GroupKeys(ctx, keys, i, st0).st == before
    requires Statements.GroupKey(ctx, keys[i], before) == Step(res, after)
    ensures Statements.GroupKeys(ctx, keys, i + 1, st0)
         == if res.Failure? then Step(Failure(res.error), after) else Step(Success(groupBy + res.value), after)
  {
  }

  lemma {:induction false} ChildrenFailureSticks(ctx: Ctx, p: Predicate, path: seq<nat>, orParent: Option<seq<nat>>, ulc: bool, n: nat, m: nat, st: CompilerState)
    requires p.Compound? && n <= m <= |p.children| && Wf(st)
    requires CompilerSpec.CompileChildren(ctx, p, path, orParent, ulc, n, st).res.Failure?
    ensures CompilerSpec.CompileChildren(ctx, p, path, orParent, ulc, m, st) == CompilerSpec.CompileChildren(ctx, p, path, orParent, ulc, n, st)
    decreases m - n
  {
    if n < m {
      ChildrenFailureSticks(ctx, p, path, orParent, ulc, n, m - 1, st);
    }
  }

  lemma {:induction false} SortersFailureSticks(ctx: Ctx, n: nat, m: nat, st: CompilerState)
    requires n <= m <= |ctx.query.sorters| && Wf(st)
    requires CompilerSpec.AddSorters(ctx, n, st).res.Failure?
    ensures CompilerSpec.AddSorters(ctx, m, st) == CompilerSpec.AddSorters(ctx, n, st)
    decreases m - n
  {
    if n < m {
      SortersFailureSticks(ctx, n, m - 1, st);
    }
  }

  lemma {:induction false} GroupKeysFailureSticks(ctx: Ctx, keys: seq<string>, n: nat, m: nat, st: CompilerState)
    requires n <= m <= |keys| && Wf(st)
    requires Statements.GroupKeys(ctx, keys, n, st).res.Failure?
    ensures Statements.GroupKeys(ctx, keys, m, st) == Statements.GroupKeys(ctx, keys, n, st)
    decreases m - n
  {
    if n < m {
      GroupKeysFailureSticks(ctx, keys, n, m - 1, st);
      GroupKeysFailureStep(ctx, keys, m, st);
    }
  }

  lemma GroupKeysFailureStep(ctx: Ctx, keys: seq<string>, m: nat, st: CompilerState)
    requires 0 < m <= |keys| && Wf(st)
    requires Statements.GroupKeys(ctx, keys, m - 1, st).res.Failure?
    ensures Statements.GroupKeys(ctx, keys, m, st) == Statements.GroupKeys(ctx, keys, m - 1, st)
  {
  }

  lemma {:induction false} EmitJoinsFailureSticks(prefix: string, forceLeftJoins: bool, joins: seq<Join>, n: nat, m: nat)
    requires n <= m <= |joins|
    requires EmitJoins(prefix, forceLeftJoins, joins, n).Failure?
    ensures EmitJoins(prefix, forceLeftJoins, joins, m) == EmitJoins(prefix, forceLeftJoins, joins, n)
    decreases m - n
  {
    if n < m {
      EmitJoinsFailureSticks(prefix, forceLeftJoins, joins, n, m - 1);
    }
  }
}
