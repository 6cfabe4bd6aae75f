/**
 * The join part of the FROM clause (the first loop of the FROM builder in
 * initializeClauses): one JOIN per join that filters on some symbol, in join
 * order, each outer when all joins are forced outer, with the primary-index
 * hint and the version thresholds that disable the hint on the record table.
 */
module FromClause {
  import opened Wrappers
  import opened DariQuery
  import opened Conditions
  import opened Joins

  /** The table families whose version the builder reads; a join of these families without a table fails. */
  predicate ReadsVersion(t: SqlIndexType) {
    t.LocationIndex? || t.NumberIndex? || t.StringIndex? || t.UuidIndex?
  }

  /** Index table versions too old for the record table's IGNORE INDEX (PRIMARY) hint. */
  predicate DisablesIgnorePrimary(t: SqlIndexType, version: nat) {
    || (t.LocationIndex? && version < 3)
    || (t.NumberIndex? && version < 3)
    || (t.StringIndex? && version < 4)
    || (t.UuidIndex? && version < 3)
  }

  /** The FROM items so far and whether some join disabled the primary-index hint. */
  datatype Emitted = Emitted(items: seq<FromItem>, disabled: bool)

  /** The JOIN emitted for join number `i`, whether it disables the hint; None when the join filters on nothing. */
  function EmitJoin(prefix: string, forceLeftJoins: bool, j: Join, i: nat): (r: Result<Option<(FromItem, bool)>, CompileError>)
    ensures r.Success? && r.value.None? <==> j.indexKeys == {}
    ensures r.Failure? <==> j.indexKeys != {} && ReadsVersion(j.sqlIndex) && j.table.None?
    ensures r.Failure? ==> r.error == MissingIndexTable(j.key)
    ensures r.Success? && r.value.Some? ==>
      var item := r.value.value.0;
      && item.JoinItem? && item.join == i && item.prefix == prefix && item.indexKeys == j.indexKeys
      && item.kind == (if forceLeftJoins then LeftOuterJoin else j.kind)
      && r.value.value.1 == Disables(j)
  {
    if j.indexKeys == {} then Success(None)
    else if ReadsVersion(j.sqlIndex) && j.table.None? then Failure(MissingIndexTable(j.key))
    else
      var kind := if forceLeftJoins then LeftOuterJoin else j.kind;
      var hint := if j.sqlIndex.LocationIndex? && j.table.value.version >= 2 then IgnorePrimaryIndex else NoHint;
      var disables := Disables(j);
      var matchTypeId := j.table.Some? && j.table.value.hasTypeId;
      Success(Some((JoinItem(kind, prefix, i, hint, matchTypeId, j.indexKeys), disables)))
  }

  /** The loop over the first `n` joins. */
  function EmitJoins(prefix: string, forceLeftJoins: bool, joins: seq<Join>, n: nat): Result<Emitted, CompileError>
    requires n <= |joins|
    decreases n
  {
    if n == 0 then Success(Emitted([], false))
    else
      var prev := EmitJoins(prefix, forceLeftJoins, joins, n - 1);
      if prev.Failure? then prev
      else
        var e := EmitJoin(prefix, forceLeftJoins, joins[n - 1], n - 1);
        if e.Failure? then Failure(e.error)
        else if e.value.None? then prev
        else Success(Emitted(prev.value.items + [e.value.value.0], prev.value.disabled || e.value.value.1))
  }

  /** The record-table hint is disabled by this join's table version. */
  predicate Disables(j: Join) {
    ReadsVersion(j.sqlIndex) && j.table.Some? && DisablesIgnorePrimary(j.sqlIndex, j.table.value.version)
  }

  /** The JOIN written for a join obeys the emission rules. */
  predicate ItemFor(prefix: string, forceLeftJoins: bool, joins: seq<Join>, item: FromItem)
  {
    && item.JoinItem?
    && item.join < |joins|
    && var j := joins[item.join];
    && item.prefix == prefix
    && j.indexKeys != {} && item.indexKeys == j.indexKeys
    && item.kind == (if forceLeftJoins then LeftOuterJoin else j.kind)
    && (item.hint == IgnorePrimaryIndex <==> j.sqlIndex.LocationIndex? && j.table.Some? && j.table.value.version >= 2)
  }

  /** Some join among the first `n` filters on a symbol, reads a version, and has no table. */
  predicate MissingTableAmong(joins: seq<Join>, n: nat)
    requires n <= |joins|
  {
    exists i | 0 <= i < n :: joins[i].indexKeys != {} && ReadsVersion(joins[i].sqlIndex) && joins[i].table.None?
  }

  /** The join part of the FROM clause fails exactly when a join to be written reads a version it has no table for. */
  lemma {:induction false} EmitJoinsFails(prefix: string, forceLeftJoins: bool, joins: seq<Join>, n: nat)
    requires n <= |joins|
    ensures EmitJoins(prefix, forceLeftJoins, joins, n).Failure? <==> MissingTableAmong(joins, n)
    decreases n
  {
    if n > 0 {
      EmitJoinsFails(prefix, forceLeftJoins, joins, n - 1);
    }
  }

  /**
   * Every item written is a JOIN for one of the first `n` joins that obeys
   * the emission rules (non-empty symbol filter; LEFT OUTER when all joins
   * are forced outer, its own kind otherwise; the IGNORE INDEX hint exactly
   * for location tables of version 2 and up), written in join order.
   */
  lemma {:induction false} EmitJoinsSound(prefix: string, forceLeftJoins: bool, joins: seq<Join>, n: nat)
    requires n <= |joins| && EmitJoins(prefix, forceLeftJoins, joins, n).Success?
    ensures var e := EmitJoins(prefix, forceLeftJoins, joins, n).value;
      && (forall k | 0 <= k < |e.items| :: ItemFor(prefix, forceLeftJoins, joins, e.items[k]) && e.items[k].join < n)
      && (forall k, l | 0 <= k < l < |e.items| :: e.items[k].join < e.items[l].join)
    decreases n
  {
    if n > 0 {
      EmitJoinsSound(prefix, forceLeftJoins, joins, n - 1);
    }
  }

  /** Every one of the first `n` joins with a non-empty symbol filter is written, and the hint is disabled exactly when one of them disables it. */
  lemma {:induction false} EmitJoinsComplete(prefix: string, forceLeftJoins: bool, joins: seq<Join>, n: nat)
    requires n <= |joins| && EmitJoins(prefix, forceLeftJoins, joins, n).Success?
    ensures var e := EmitJoins(prefix, forceLeftJoins, joins, n).value;
      && (forall i | 0 <= i < n && joins[i].indexKeys != {} :: exists k | 0 <= k < |e.items| :: e.items[k].JoinItem? && e.items[k].join == i)
      && (e.disabled <==> exists i | 0 <= i < n :: joins[i].indexKeys != {} && Disables(joins[i]))
    decreases n
  {
    if n > 0 {
      EmitJoinsComplete(prefix, forceLeftJoins, joins, n - 1);
      var prev := EmitJoins(prefix, forceLeftJoins, joins, n - 1).value;
      var e := EmitJoin(prefix, forceLeftJoins, joins[n - 1], n - 1);
      if e.value.Some? {
        var items := prev.items + [e.value.value.0];
        assert items[|items| - 1].join == n - 1;
        forall i | 0 <= i < n - 1 && joins[i].indexKeys != {}
          ensures exists k | 0 <= k < |items| :: items[k].JoinItem? && items[k].join == i
        {
          var k :| 0 <= k < |prev.items| && prev.items[k].JoinItem? && prev.items[k].join == i;
          assert items[k] == prev.items[k];
        }
      }
    }
  }

  /** With all joins forced outer, every written JOIN is LEFT OUTER. */
  lemma ForcedJoinsAreOuter(prefix: string, joins: seq<Join>)
    requires EmitJoins(prefix, true, joins, |joins|).Success?
    ensures forall item | item in EmitJoins(prefix, true, joins, |joins|).value.items :: item.JoinItem? && item.kind == LeftOuterJoin
  {
    EmitJoinsSound(prefix, true, joins, |joins|);
  }

  /** A join with an empty symbol filter is never written. */
  lemma EmptyFilterNeverWritten(prefix: string, forceLeftJoins: bool, joins: seq<Join>, i: nat)
    requires i < |joins| && joins[i].indexKeys == {}
    requires EmitJoins(prefix, forceLeftJoins, joins, |joins|).Success?
    ensures forall item | item in EmitJoins(prefix, forceLeftJoins, joins, |joins|).value.items :: item.JoinItem? && item.join != i
  {
    EmitJoinsSound(prefix, forceLeftJoins, joins, |joins|);
  }
}
