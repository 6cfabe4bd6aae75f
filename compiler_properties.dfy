/**
 * What the compiler promises, stated over the functions of CompilerSpec and
 * Statements: how compounds combine their children, what a comparison's
 * value conditions become, how OR siblings share a join, the cache of nested
 * compilers, the select list and its wrapping, the group keys, the
 * primary-index hint, and the ORDER BY that a second statement call repeats.
 */
module CompilerProperties {
  import opened Wrappers
  import opened DariQuery
  import opened Conditions
  import opened Joins
  import opened QueryState
  import opened ValueConditions
  import opened FromClause
  import opened ExtraJoins
  import opened Placeholders
  import opened CompilerSpec
  import opened Statements
  import opened Text

  // ---------------------------------------------------------------------------
  // Compounds

  /** The compound loop compiles the children left to right: child `i` is compiled from the state the children before it left. */
  lemma {:induction false} ChildInOrder(ctx: Ctx, p: Predicate, path: seq<nat>, orParent: Option<seq<nat>>, ulc: bool, n: nat, i: nat, st: CompilerState)
    requires p.Compound? && i < n <= |p.children| && Wf(st)
    requires CompileChildren(ctx, p, path, orParent, ulc, n, st).res.Success?
    ensures var before := CompileChildren(ctx, p, path, orParent, ulc, i, st);
      && before.res.Success?
      && Compile(ctx, p.children[i], path + [i], orParent, ulc, before.st).res
         == Success(CompileChildren(ctx, p, path, orParent, ulc, n, st).res.value[i])
    decreases n
  {
    ChildrenStep(ctx, p, path, orParent, ulc, n, st);
    if i < n - 1 {
      ChildInOrder(ctx, p, path, orParent, ulc, n - 1, i, st);
    }
  }

  /** One more child: the earlier results, then the new child's, compiled from the state the earlier ones left. */
  lemma ChildrenStep(ctx: Ctx, p: Predicate, path: seq<nat>, orParent: Option<seq<nat>>, ulc: bool, n: nat, st: CompilerState)
    requires p.Compound? && 0 < n <= |p.children| && Wf(st)
    requires CompileChildren(ctx, p, path, orParent, ulc, n, st).res.Success?
    ensures var prev := CompileChildren(ctx, p, path, orParent, ulc, n - 1, st);
      var c := Compile(ctx, p.children[n - 1], path + [n - 1], orParent, ulc, prev.st);
      && prev.res.Success? && c.res.Success?
      && CompileChildren(ctx, p, path, orParent, ulc, n, st).res.value == prev.res.value + [c.res.value]
  {
  }

  /** OR and NOT with more than one child make duplicates possible, whether or not compilation succeeds. */
  lemma ManyChildrenNeedDistinct(ctx: Ctx, p: Predicate, path: seq<nat>, orParent: Option<seq<nat>>, ulc: bool, st: CompilerState)
    requires Wf(st) && p.Compound? && (p.op.OrOp? || p.op.NotOp?) && |p.children| > 1
    ensures Compile(ctx, p, path, orParent, ulc, st).st.needsDistinct
  {
    var st1 := st.(needsDistinct := true);
    var f := CompileChildren(ctx, p, path, Some(path), true, |p.children|, st1);
    assert Grows(st1, f.st);
  }

  /**
   * An OR node has no condition exactly when none of its children has one,
   * and otherwise its condition holds exactly when some child's does. Its
   * children are compiled bound to it, LEFT OUTER when there are several.
   */
  lemma OrCompound(ctx: Ctx, p: Predicate, path: seq<nat>, orParent: Option<seq<nat>>, ulc: bool, st: CompilerState, atom: Cond -> bool)
    requires Wf(st) && p.Compound? && p.op.OrOp?
    requires Compile(ctx, p, path, orParent, ulc, st).res.Success?
    ensures var st1 := if |p.children| > 1 then st.(needsDistinct := true) else st;
      var cs := CompileChildren(ctx, p, path, Some(path), |p.children| > 1, |p.children|, st1).res.value;
      var c := Compile(ctx, p, path, orParent, ulc, st).res.value;
      && |cs| == |p.children|
      && (c.None? <==> forall i | 0 <= i < |cs| :: cs[i].None?)
      && (c.Some? ==> (Holds(c.value, atom) <==> exists i | 0 <= i < |cs| :: cs[i].Some? && Holds(cs[i].value, atom)))
  {
    var st1 := if |p.children| > 1 then st.(needsDistinct := true) else st;
    var cs := CompileChildren(ctx, p, path, Some(path), |p.children| > 1, |p.children|, st1).res.value;
    CombineAbsent(false, cs);
    if Combine(false, cs).Some? {
      CombineOrHolds(cs, atom);
    }
  }

  /**
   * A NOT node negates the OR of its children: no condition when none of
   * them has one, otherwise one that holds exactly when no child's does.
   * Its children are always compiled LEFT OUTER.
   */
  lemma NotCompound(ctx: Ctx, p: Predicate, path: seq<nat>, orParent: Option<seq<nat>>, ulc: bool, st: CompilerState, atom: Cond -> bool)
    requires Wf(st) && p.Compound? && p.op.NotOp?
    requires Compile(ctx, p, path, orParent, ulc, st).res.Success?
    ensures var st1 := if |p.children| > 1 then st.(needsDistinct := true) else st;
      var cs := CompileChildren(ctx, p, path, None, true, |p.children|, st1).res.value;
      var c := Compile(ctx, p, path, orParent, ulc, st).res.value;
      && |cs| == |p.children|
      && (c.None? <==> forall i | 0 <= i < |cs| :: cs[i].None?)
      && (c.Some? ==> (Holds(c.value, atom) <==> !exists i | 0 <= i < |cs| :: cs[i].Some? && Holds(cs[i].value, atom)))
  {
    var st1 := if |p.children| > 1 then st.(needsDistinct := true) else st;
    var cs := CompileChildren(ctx, p, path, None, true, |p.children|, st1).res.value;
    CombineAbsent(false, cs);
    if Combine(false, cs).Some? {
      CombineOrHolds(cs, atom);
    }
  }

  /**
   * An AND node has no condition exactly when none of its children has one,
   * and otherwise its condition holds exactly when every child condition
   * does; its children inherit LEFT OUTER from above and are bound to no OR
   * node.
   */
  lemma AndCompound(ctx: Ctx, p: Predicate, path: seq<nat>, orParent: Option<seq<nat>>, ulc: bool, st: CompilerState, atom: Cond -> bool)
    requires Wf(st) && p.Compound? && p.op.AndOp?
    requires Compile(ctx, p, path, orParent, ulc, st).res.Success?
    ensures var cs := CompileChildren(ctx, p, path, None, ulc, |p.children|, st).res.value;
      var c := Compile(ctx, p, path, orParent, ulc, st).res.value;
      && |cs| == |p.children|
      && (c.None? <==> forall i | 0 <= i < |cs| :: cs[i].None?)
      && (c.Some? ==> (Holds(c.value, atom) <==> forall i | 0 <= i < |cs| :: cs[i].Some? ==> Holds(cs[i].value, atom)))
  {
    var cs := CompileChildren(ctx, p, path, None, ulc, |p.children|, st).res.value;
    CombineAbsent(true, cs);
    if Combine(true, cs).Some? {
      CombineAndHolds(cs, atom);
    }
  }

  /** Any other compound operator, and any predicate that is neither compound nor comparison, is rejected. */
  lemma UnsupportedPredicates(ctx: Ctx, p: Predicate, path: seq<nat>, orParent: Option<seq<nat>>, ulc: bool, st: CompilerState)
    requires Wf(st) && (p.OtherPredicate? || (p.Compound? && p.op.OtherLogical?))
    ensures Compile(ctx, p, path, orParent, ulc, st) == Step(Failure(UnsupportedPredicate(p)), st)
  {
  }

  // ---------------------------------------------------------------------------
  // Comparisons

  /** The guards only ever narrow a comparison: when the guarded condition holds, so does the bare one. */
  lemma {:induction false} GuardsNarrow(env: Env, st: CompilerState, prefix: string, key: string, j: nat, base: Cond, atom: Cond -> bool)
    requires j < |st.joins| && key in st.mappedKeys
    ensures Holds(Guarded(env, st, prefix, key, j, base), atom) ==> Holds(base, atom)
    ensures st.joins[j].table.None? ==> Guarded(env, st, prefix, key, j, base) == base
  {
    var t := st.joins[j].table;
    var indexKey := env.indexKeyOf(st.mappedKeys[key], Selected(st, key));
    var c1 := if t.Some? && t.value.needsIndexTable && indexKey.Some? then And(KeyEq(prefix, j, indexKey.value), base) else base;
    assert Holds(c1, atom) ==> Holds(base, atom) by {
      if c1 != base {
        assert Holds(c1, atom) == (Holds(KeyEq(prefix, j, indexKey.value), atom) && Holds(base, atom));
      }
    }
    if t.Some? && t.value.needsIsNotNull {
      assert Holds(And(IsNotNull(ValueColumn(prefix, j, key)), c1), atom) ==> Holds(c1, atom);
    }
  }

  /**
   * The per-value conditions of a comparison become its condition: TRUE or
   * FALSE when there are none; combined and left as they are when a
   * missing-value test is among them; otherwise combined, guarded by the
   * index-key filter and the IS NOT NULL test as the join's table asks,
   * and with duplicates noted for more than one condition.
   */
  lemma ComparisonValues(ctx: Ctx, p: Predicate, j: nat, st: CompilerState, atom: Cond -> bool)
    requires p.Comparison? && p.key in st.mappedKeys && j < |st.joins| && Wf(st)
    requires CollectValues(ValueContext(p.cmp, st.mappedKeys[p.key].isCollection, ValueColumn(ctx.prefix, j, p.key),
                                        st.joins[j].sqlIndex, ctx.env.geoSupported, p.key), p.values, |p.values|).Success?
    ensures var o := CollectValues(ValueContext(p.cmp, st.mappedKeys[p.key].isCollection, ValueColumn(ctx.prefix, j, p.key),
                                                st.joins[j].sqlIndex, ctx.env.geoSupported, p.key), p.values, |p.values|).value;
      var r := CompileValues(ctx, p, j, st);
      var nea := p.cmp.NotEqualsAll?;
      && r.res.Success? && r.res.value.Some?
      && (o.conds == [] ==> r.res.value.value == (if nea then TrueCond else FalseCond))
      && (o.conds != [] && o.hasMissing ==>
            r.res.value.value == CombineValues(nea, o.conds) && (r.st.needsDistinct <==> st.needsDistinct || o.distinct))
      && (o.conds != [] && !o.hasMissing ==> (Holds(r.res.value.value, atom) ==> Holds(CombineValues(nea, o.conds), atom)))
      && (!o.hasMissing && |o.conds| > 1 ==> r.st.needsDistinct)
      && (o.outer ==> r.st.joins[j].kind == LeftOuterJoin)
      && (o.distinct ==> r.st.needsDistinct)
  {
    var o := CollectValues(ValueContext(p.cmp, st.mappedKeys[p.key].isCollection, ValueColumn(ctx.prefix, j, p.key),
                                        st.joins[j].sqlIndex, ctx.env.geoSupported, p.key), p.values, |p.values|).value;
    var r := CompileValues(ctx, p, j, st);
    var st2 := SetDistinct(Outer(st, j, o.outer), o.distinct);
    if o.conds != [] && !o.hasMissing {
      GuardsNarrow(ctx.env, st2, ctx.prefix, p.key, j, CombineValues(p.cmp.NotEqualsAll?, o.conds), atom);
    }
  }

  /**
   * A value the vendor cannot compare fails the comparison with
   * UnsupportedIndex for its key, and the join stays LEFT OUTER and
   * duplicates stay noted as the values before it asked: the flags are set
   * inside the loop, before the value that throws.
   */
  lemma ComparisonValuesFailure(ctx: Ctx, p: Predicate, j: nat, st: CompilerState)
    requires p.Comparison? && p.key in st.mappedKeys && j < |st.joins| && Wf(st)
    requires CollectValues(ValueContext(p.cmp, st.mappedKeys[p.key].isCollection, ValueColumn(ctx.prefix, j, p.key),
                                        st.joins[j].sqlIndex, ctx.env.geoSupported, p.key), p.values, |p.values|).Failure?
    ensures var vc := ValueContext(p.cmp, st.mappedKeys[p.key].isCollection, ValueColumn(ctx.prefix, j, p.key),
                                   st.joins[j].sqlIndex, ctx.env.geoSupported, p.key);
      var o := Reached(vc, p.values, |p.values|);
      var r := CompileValues(ctx, p, j, st);
      && r.res == Failure(UnsupportedIndex(p.key))
      && (o.outer ==> r.st.joins[j].kind == LeftOuterJoin)
      && (o.distinct ==> r.st.needsDistinct)
      && |r.st.joins| == |st.joins|
  {
  }

  /** A comparison on a key the compiler has not mapped fails, and changes nothing. */
  lemma UnmappedComparison(ctx: Ctx, p: Predicate, path: seq<nat>, orParent: Option<seq<nat>>, ulc: bool, st: CompilerState)
    requires Wf(st) && p.Comparison? && p.key !in st.mappedKeys
    ensures Compile(ctx, p, path, orParent, ulc, st) == Step(Failure(UnmappedKey(p.key)), st)
  {
  }

  // ---------------------------------------------------------------------------
  // Joins of comparisons

  /**
   * Under an OR node, a field whose table family already has a join bound to
   * that node shares the first such join: no join is added, the key joins
   * that join's symbol filter, and duplicates become possible.
   */
  lemma OrSiblingsShareJoin(env: Env, st: CompilerState, key: string, parent: seq<nat>)
    requires key in st.mappedKeys && st.mappedKeys[key].field.Some?
    requires exists i | 0 <= i < |st.joins| :: st.joins[i].parent == Some(parent) && st.joins[i].sqlIndex == st.mappedKeys[key].sqlIndex
    ensures var p := ChooseJoin(env, st, key, Some(parent));
      && p.index < |st.joins| && |p.st.joins| == |st.joins|
      && st.joins[p.index].parent == Some(parent) && st.joins[p.index].sqlIndex == st.mappedKeys[key].sqlIndex
      && (forall k | 0 <= k < p.index :: st.joins[k].parent != Some(parent) || st.joins[k].sqlIndex != st.mappedKeys[key].sqlIndex)
      && key in p.st.joins[p.index].indexKeys
      && p.st.needsDistinct
  {
    var i :| 0 <= i < |st.joins| && st.joins[i].parent == Some(parent) && st.joins[i].sqlIndex == st.mappedKeys[key].sqlIndex;
    var s := FindSibling(st.joins, parent, st.mappedKeys[key].sqlIndex);
    assert s <= i;
  }

  /** A field under an OR node always ends up with a join bound to that node. */
  lemma OrFieldsBindJoin(env: Env, st: CompilerState, key: string, parent: seq<nat>)
    requires key in st.mappedKeys && st.mappedKeys[key].field.Some?
    ensures var p := ChooseJoin(env, st, key, Some(parent)); p.st.joins[p.index].parent == Some(parent)
  {
  }

  /** Outside an OR node (or for a key that is not a field) a collection always gets a new join of its own. */
  lemma CollectionsGetOwnJoin(env: Env, st: CompilerState, key: string, orParent: Option<seq<nat>>)
    requires key in st.mappedKeys && st.mappedKeys[key].isCollection
    requires orParent.None? || st.mappedKeys[key].field.None?
    ensures var p := ChooseJoin(env, st, key, orParent);
      p.index == |st.joins| && |p.st.joins| == |st.joins| + 1 && p.st.joins[p.index].isolated
  {
  }

  /**
   * Anything else reuses the first join findOrCreate created for its key,
   * under the reuse rule `QueryState.FindOrCreateSpec` assumes for
   * SqlQueryJoin.findOrCreate: joins made by create are never reused.
   */
  lemma PlainKeysReuseJoin(env: Env, st: CompilerState, key: string, orParent: Option<seq<nat>>)
    requires key in st.mappedKeys && !st.mappedKeys[key].isCollection
    requires orParent.None? || st.mappedKeys[key].field.None?
    requires FindJoin(st.joins, key) < |st.joins|
    ensures ChooseJoin(env, st, key, orParent) == Pick(FindJoin(st.joins, key), st)
  {
  }

  // ---------------------------------------------------------------------------
  // Nested compilers

  /** Once a nested compiler is cached it is returned as it is, whatever forceLeftJoins is asked for the second time. */
  lemma SubCompilerCached(ctx: Ctx, q: Query, force1: bool, force2: bool, st: CompilerState)
    requires Wf(st) && GetOrCreate(ctx, q, force1, st).res.Success?
    ensures var r := GetOrCreate(ctx, q, force1, st);
      GetOrCreate(ctx, q, force2, r.st) == Step(Success(r.res.value), r.st)
  {
  }

  /**
   * A new nested compiler is named after the cache size, keeps the
   * forceLeftJoins it was created with, and is cached as one more entry.
   */
  lemma NewSubCompiler(ctx: Ctx, q: Query, force: bool, st: CompilerState)
    requires Wf(st) && q !in st.subSqlQueries && GetOrCreate(ctx, q, force, st).res.Success?
    ensures var r := GetOrCreate(ctx, q, force, st);
      && r.res.value.prefix == ctx.prefix + "s" + NatToString(|st.subSqlQueries|)
      && r.res.value.state.forceLeftJoins == force
      && r.st.subSqlQueries == st.subSqlQueries[q := r.res.value]
      && |r.st.subSqlQueries| == |st.subSqlQueries| + 1
  {
    var prefix := ctx.prefix + "s" + NatToString(|st.subSqlQueries|);
    var child := Initialize(Ctx(ctx.env, q, prefix), FreshState(q.mapped, force));
    assert Grows(FreshState(q.mapped, force), child.st);
  }

  // ---------------------------------------------------------------------------
  // ORDER BY

  /** The sorter loop over plain sorters (no sub-query) adds exactly one ORDER BY field per sorter, after the earlier ones. */
  lemma {:induction false} PlainSortersAppend(ctx: Ctx, n: nat, st: CompilerState)
    requires n <= |ctx.query.sorters| && Wf(st)
    requires forall i | 0 <= i < n :: ctx.query.sorters[i].subQuery.None?
    requires AddSorters(ctx, n, st).res.Success?
    ensures var r := AddSorters(ctx, n, st);
      |r.st.orderByFields| == |st.orderByFields| + n && st.orderByFields <= r.st.orderByFields
    decreases n
  {
    if n > 0 {
      PlainSortersAppend(ctx, n - 1, st);
      var prev := AddSorters(ctx, n - 1, st);
      PlainSorterAppends(ctx, ctx.query.sorters[n - 1], prev.st);
    }
  }

  /** One plain sorter adds exactly one ORDER BY field after the earlier ones. */
  lemma PlainSorterAppends(ctx: Ctx, s: Sorter, st: CompilerState)
    requires Wf(st) && s.subQuery.None? && AddSorter(ctx, s, st).res.Success?
    ensures var r := AddSorter(ctx, s, st);
      |r.st.orderByFields| == |st.orderByFields| + 1 && st.orderByFields <= r.st.orderByFields
  {
  }

  /**
   * What one sorter does: an operator other than the four fails with
   * UnsupportedSorter and changes nothing, as does an unmapped key with
   * UnmappedKey; otherwise the key's join is picked and ascending or
   * descending appends the value column, closest or farthest appends the
   * vendor's distance expression ascending or descending (UnsupportedIndex
   * when the vendor has no geo support), and a sorter with a sub-query
   * registers its correlation on the value column and appends exactly the
   * nested compiler's ORDER BY.
   */
  lemma AddSorterEffect(ctx: Ctx, s: Sorter, st: CompilerState)
    requires Wf(st)
    ensures var r := AddSorter(ctx, s, st);
      && (s.op.OtherSort? ==> r == Step(Failure(UnsupportedSorter(s)), st))
      && (!s.op.OtherSort? && s.key !in st.mappedKeys ==> r == Step(Failure(UnmappedKey(s.key)), st))
    ensures s.subQuery.None? ==>
      var r := AddSorter(ctx, s, st);
      && (r.res == Failure(UnsupportedSorter(s)) <==> s.op.OtherSort?)
      && (r.res == Failure(UnsupportedIndex(s.key)) <==>
            !s.op.OtherSort? && s.key in st.mappedKeys && (s.op.Closest? || s.op.Farthest?) && !ctx.env.geoSupported)
    ensures !s.op.OtherSort? && s.key in st.mappedKeys ==>
      var r := AddSorter(ctx, s, st);
      var pick := FindOrCreateSpec(ctx.env, st, s.key);
      var field := ValueColumn(ctx.prefix, pick.index, s.key);
      var nearest := NearestExpr(field, s.location);
      && r.st.joins == pick.st.joins
      && (s.subQuery.None? && s.op.Ascending? ==> r.res.Success? && r.st.orderByFields == st.orderByFields + [Asc(FieldExpr(field))])
      && (s.subQuery.None? && s.op.Descending? ==> r.res.Success? && r.st.orderByFields == st.orderByFields + [Desc(FieldExpr(field))])
      && (s.subQuery.None? && s.op.Closest? && ctx.env.geoSupported ==> r.res.Success? && r.st.orderByFields == st.orderByFields + [Asc(nearest)])
      && (s.subQuery.None? && s.op.Farthest? && ctx.env.geoSupported ==> r.res.Success? && r.st.orderByFields == st.orderByFields + [Desc(nearest)])
      && (s.subQuery.Some? && r.res.Success? ==>
            var q := s.subQuery.value;
            && q in r.st.subSqlQueries
            && EntryOf(r.st.subQueries, q) < |r.st.subQueries|
            && r.st.subQueries[EntryOf(r.st.subQueries, q)] == SubQueryEntry(q, Correlation(field, false))
            && r.st.orderByFields == st.orderByFields + r.st.subSqlQueries[q].state.orderByFields)
      && (s.subQuery.Some? && r.res.Failure? ==> r.st.orderByFields == st.orderByFields && r.st.subQueries == st.subQueries)
  {
  }

  /** Building the clauses appends one ORDER BY field per plain sorter to what was there, and never resets it. */
  lemma InitializeAppendsOrderBy(ctx: Ctx, st: CompilerState)
    requires Wf(st) && Initialize(ctx, st).res.Success?
    requires forall i | 0 <= i < |ctx.query.sorters| :: ctx.query.sorters[i].subQuery.None?
    ensures var r := Initialize(ctx, st);
      |r.st.orderByFields| == |st.orderByFields| + |ctx.query.sorters| && st.orderByFields <= r.st.orderByFields
  {
    var e := ExpandExtraJoins(ctx, st);
    var w := BuildWhere(ctx, e.1);
    PlainSortersAppend(ctx, |ctx.query.sorters|, w.st);
  }

  /**
   * The clauses are built again on every statement call: asking one
   * compiler for its select statement twice gives, the second time, an
   * ORDER BY that lists every plain sorter twice.
   */
  lemma SecondSelectRepeatsOrderBy(ctx: Ctx, st: CompilerState)
    requires Wf(st) && st.orderByFields == []
    requires forall i | 0 <= i < |ctx.query.sorters| :: ctx.query.sorters[i].subQuery.None?
    requires Select(ctx, st).res.Success? && Select(ctx, Select(ctx, st).st).res.Success?
    ensures |Select(ctx, Select(ctx, st).st).res.value.orderBy| == 2 * |ctx.query.sorters|
  {
    InitializeAppendsOrderBy(ctx, st);
    InitializeAppendsOrderBy(ctx, Initialize(ctx, st).st);
  }

  // ---------------------------------------------------------------------------
  // Statements

  lemma ExtraColumnsPresent(extra: Option<string>)
    ensures ExtraColumns(extra) != [] <==> extra.Some? && !IsBlank(extra.value)
  {
  }

  /**
   * A select with duplicates possible is wrapped exactly when its list asks
   * for more than id and type id: all fields, some requested fields, or
   * non-blank extra columns. The wrapped select keeps the distinct ids under
   * the alias prefix plus "d".
   */
  lemma SelectWrapIff(ctx: Ctx, st: CompilerState)
    requires Wf(st) && Select(ctx, st).res.Success?
    ensures var r := Select(ctx, st);
      var q := ctx.query;
      && (r.res.value.wrap.Some? <==>
            r.st.needsDistinct
            && (q.fields != Some([]) || (q.options.extraColumns.Some? && !IsBlank(q.options.extraColumns.value))))
      && (r.res.value.wrap.Some? ==> r.res.value.wrap.value.alias == ctx.prefix + "d")
      && (r.res.value.distinct ==> r.res.value.columns == [RecordId, RecordTypeId])
  {
    ExtraColumnsPresent(ctx.query.options.extraColumns);
  }

  /** DISTINCT never loses a column: the statement returns exactly the select list, wrapped or not. */
  lemma SelectReturnsSelectList(ctx: Ctx, st: CompilerState)
    requires Wf(st) && Select(ctx, st).res.Success?
    ensures OutputColumns(Select(ctx, st).res.value) == SelectFields(ctx)
  {
    var fields := SelectFields(ctx);
    if |fields| <= 2 {
      assert fields == fields[..2];
    }
  }

  /** Each extra column taken from non-blank, non-empty trimmed text is a non-empty name without spaces. */
  lemma ExtraColumnsAreWords(extra: string)
    requires !IsBlank(extra) && Trim(extra) != []
    ensures forall f | f in ExtraColumns(Some(extra)) :: f.NamedColumn? && f.name != [] && forall c | c in f.name :: !IsRegexSpace(c)
  {
    var t := Trim(extra);
    WordsAreWords(t, 0);
    forall f | f in ExtraColumns(Some(extra))
      ensures f.NamedColumn? && f.name in Words(t, 0)
    {
      var ws := SplitSpaces(t);
      var i :| 0 <= i < |ws| && Named(ws)[i] == f;
    }
  }

  /** Count and sub-query statements count or select DISTINCT exactly when duplicates are possible. */
  lemma DistinctIffDuplicates(ctx: Ctx, st: CompilerState)
    requires Wf(st)
    ensures Count(ctx, st).res.Success? ==> Count(ctx, st).res.value.distinct == Count(ctx, st).st.needsDistinct
    ensures SubQueryStatement(ctx, st).res.Success? ==> SubQueryStatement(ctx, st).res.value.distinct == SubQueryStatement(ctx, st).st.needsDistinct
    ensures Count(ctx, st).st == SubQueryStatement(ctx, st).st
  {
  }

  /**
   * Group keys without a group-by sub-query contribute one value column
   * each, in order: key `i` gives column `i`, of a join created for that
   * key under this compiler's alias prefix.
   */
  lemma {:induction false} PlainGroupKeys(ctx: Ctx, keys: seq<string>, n: nat, i: nat, st: CompilerState)
    requires i < n <= |keys| && Wf(st)
    requires forall k | 0 <= k < n :: ctx.env.resolve(ctx.query, keys[k]).groupBySubQuery.None?
    requires GroupKeys(ctx, keys, n, st).res.Success?
    ensures var r := GroupKeys(ctx, keys, n, st);
      && |r.res.value| == n
      && var f := r.res.value[i];
      && f.key == keys[i] && f.prefix == ctx.prefix && f.join < |r.st.joins| && r.st.joins[f.join].key == keys[i]
    decreases n
  {
    GroupKeysStep(ctx, keys, n, st);
    var prev := GroupKeys(ctx, keys, n - 1, st);
    var g := GroupKey(ctx, keys[n - 1], prev.st);
    PlainGroupKey(ctx, keys[n - 1], prev.st);
    if n > 1 {
      PlainGroupKeys(ctx, keys, n - 1, if i < n - 1 then i else 0, st);
    }
    if i < n - 1 {
      EarlierColumn(prev.res.value, g.res.value, prev.st.joins, g.st.joins, i);
    } else {
      assert (prev.res.value + g.res.value)[i] == g.res.value[0];
    }
  }

  /** A grouping column added earlier still names a join of the grown join list, for the same key. */
  lemma EarlierColumn(before: seq<FieldRef>, added: seq<FieldRef>, a: seq<Join>, b: seq<Join>, i: nat)
    requires i < |before| && before[i].join < |a| && JoinsGrow(a, b)
    ensures (before + added)[i] == before[i]
    ensures before[i].join < |b| && b[before[i].join].key == a[before[i].join].key
  {
  }

  /** A group key without a group-by sub-query contributes one value column, of a join created for that key. */
  lemma PlainGroupKey(ctx: Ctx, key: string, st: CompilerState)
    requires Wf(st) && ctx.env.resolve(ctx.query, key).groupBySubQuery.None?
    ensures var r := GroupKey(ctx, key, st);
      && r.res.Success? && |r.res.value| == 1
      && var f := r.res.value[0];
      && f.key == key && f.prefix == ctx.prefix && f.join < |r.st.joins| && r.st.joins[f.join].key == key
  {
  }

  /** One more group key: the earlier columns, then the new key's, from the state the earlier keys left. */
  lemma GroupKeysStep(ctx: Ctx, keys: seq<string>, n: nat, st: CompilerState)
    requires 0 < n <= |keys| && Wf(st) && GroupKeys(ctx, keys, n, st).res.Success?
    ensures var prev := GroupKeys(ctx, keys, n - 1, st);
      var g := GroupKey(ctx, keys[n - 1], prev.st);
      && prev.res.Success? && g.res.Success?
      && GroupKeys(ctx, keys, n, st) == Step(Success(prev.res.value + g.res.value), g.st)
  {
  }

  /** A group key with a group-by sub-query groups by the value columns of all the nested compiler's joins, and correlates it. */
  lemma GroupKeyThroughSubQuery(ctx: Ctx, key: string, st: CompilerState)
    requires Wf(st)
    requires ctx.env.resolve(ctx.query, key).groupBySubQuery.Some?
    requires GroupKey(ctx, key, st).res.Success?
    ensures var sq := ctx.env.resolve(ctx.query, key).groupBySubQuery.value;
      var r := GroupKey(ctx, key, st);
      && sq in r.st.subSqlQueries
      && r.res.value == ChildColumns(r.st.subSqlQueries[sq], key)
      && EntryOf(r.st.subQueries, sq) < |r.st.subQueries|
  {
    var mk := ctx.env.resolve(ctx.query, key);
    var st1 := AddKey(st, key, mk);
    var pick := FindOrCreateSpec(ctx.env, st1, key);
    var g := GetOrCreate(ctx, mk.groupBySubQuery.value, true, pick.st);
    PutFinds(g.st.subQueries, mk.groupBySubQuery.value, Correlation(ValueColumn(ctx.prefix, pick.index, key), false));
  }

  // ---------------------------------------------------------------------------
  // The primary-index hint

  /**
   * A `${key}` placeholder in the extra joins forces its key's join LEFT
   * OUTER; when that join filters on a symbol it is written to the FROM
   * clause, so a select of such a query never reads the record table
   * IGNORE INDEX (PRIMARY). (A join without a symbol is skipped in FROM and
   * leaves the hint alone.)
   */
  lemma PlaceholderDisablesHint(ctx: Ctx, st: CompilerState, k: nat)
    requires Wf(st)
    requires ctx.query.options.extraJoins.Some?
    requires var ps := Tokenize(ctx.query.options.extraJoins.value, 0); k < |ps| && ps[k].Key?
    requires PlaceholderFilters(ctx, st, k)
    requires Select(ctx, st).res.Success?
    ensures !Select(ctx, st).res.value.ignorePrimary
  {
    var e := ExpandExtraJoins(ctx, st);
    var w := BuildWhere(ctx, e.1);
    var jx := PlaceholderJoinOuter(ctx, st, k);
    var m := OuterJoinInFrom(ctx, e.0, w.res.value, w.st, jx);
    assert MentionsOuter(Initialize(ctx, st).st.fromClause[m]);
  }

  /** The join the k-th piece of the extra joins was replaced by filters on some symbol once the substitution is done. */
  predicate PlaceholderFilters(ctx: Ctx, st: CompilerState, k: nat)
    requires ctx.query.options.extraJoins.Some?
    requires k < |Tokenize(ctx.query.options.extraJoins.value, 0)|
  {
    var e := ExpandExtraJoins(ctx, st);
    var f := e.0.value[k];
    f.ValueRef? && f.field.join < |e.1.joins| && e.1.joins[f.field.join].indexKeys != {}
  }

  /**
   * The placeholder's join is LEFT OUTER once the WHERE clause is built, and
   * keeps every symbol it filtered on after the substitution.
   */
  lemma PlaceholderJoinOuter(ctx: Ctx, st: CompilerState, k: nat) returns (jx: nat)
    requires Wf(st)
    requires ctx.query.options.extraJoins.Some?
    requires var ps := Tokenize(ctx.query.options.extraJoins.value, 0); k < |ps| && ps[k].Key?
    ensures var e := ExpandExtraJoins(ctx, st);
      var w := BuildWhere(ctx, e.1);
      && e.0.value[k].ValueRef? && jx == e.0.value[k].field.join
      && jx < |e.1.joins| <= |w.st.joins| && w.st.joins[jx].kind == LeftOuterJoin
      && e.1.joins[jx].indexKeys <= w.st.joins[jx].indexKeys
  {
    var text := ctx.query.options.extraJoins.value;
    var pieces := Tokenize(text, 0);
    var e := ExpandExtraJoins(ctx, st);
    ExpandPiecesMirror(ctx, pieces, |pieces|, st);
    jx := e.0.value[k].field.join;
    assert e.1.joins[jx].kind == LeftOuterJoin;
  }

  /** A LEFT OUTER join that filters on a key before the sorters run is written to the FROM clause. */
  lemma OuterJoinInFrom(ctx: Ctx, extra: Option<seq<Fragment>>, where: Cond, st: CompilerState, jx: nat) returns (m: nat)
    requires Wf(st) && jx < |st.joins| && st.joins[jx].kind == LeftOuterJoin && st.joins[jx].indexKeys != {}
    requires FinishClauses(ctx, extra, where, st).res.Success?
    ensures var from := FinishClauses(ctx, extra, where, st).st.fromClause;
      m < |from| && MentionsOuter(from[m])
  {
    var s := AddSorters(ctx, |ctx.query.sorters|, st);
    assert s.st.joins[jx].kind == LeftOuterJoin && s.st.joins[jx].indexKeys != {};
    var em := EmitJoins(ctx.prefix, s.st.forceLeftJoins, s.st.joins, |s.st.joins|);
    EmitJoinsComplete(ctx.prefix, s.st.forceLeftJoins, s.st.joins, |s.st.joins|);
    EmitJoinsSound(ctx.prefix, s.st.forceLeftJoins, s.st.joins, |s.st.joins|);
    m :| 0 <= m < |em.value.items| && em.value.items[m].JoinItem? && em.value.items[m].join == jx;
    assert MentionsOuter(em.value.items[m]);
    assert FinishClauses(ctx, extra, where, st).st.fromClause[m] == em.value.items[m];
  }
}
