/**
 * The joins of one compiler: one join per index table read, kept in
 * creation order. SqlQueryJoin is not part of this model; what it does
 * (which join findOrCreate reuses, the first symbol filter, the table read)
 * is written down here as the rules the calls in SqlQuery rely on. Each
 * remembers the query key it was created for, its kind, the query keys whose
 * symbols it filters on, its index table family and physical table, the OR
 * node it was bound to, and whether it was created private to one
 * comparison (collection fields) and so is never reused.
 */
module Joins {
  import opened Wrappers
  import opened DariQuery
  import opened Conditions

  datatype Join = Join(
    key: string,
    kind: JoinKind,
    indexKeys: set<string>,
    sqlIndex: SqlIndexType,
    table: Option<IndexTable>,
    parent: Option<seq<nat>>,   // path of the OR node the join was bound to
    isolated: bool)

  /**
   * A join as findOrCreate and create make it: inner, unbound, and filtering
   * on its own key's symbol exactly when the key has an index key (symbol)
   * for its selected index; without one the filter starts empty, and such a
   * join is skipped by the FROM builder until an OR sibling widens it.
   */
  function NewJoin(key: string, mk: MappedKey, table: Option<IndexTable>, symbol: Option<string>, isolated: bool): (j: Join)
    ensures j.indexKeys != {} <==> symbol.Some?
  {
    Join(key, InnerJoin, if symbol.Some? then {key} else {}, mk.sqlIndex, table, None, isolated)
  }

  /** Position of the first shared join created for `key` (|joins| if none). */
  function FindJoin(joins: seq<Join>, key: string): (i: nat)
    ensures i <= |joins|
    ensures i < |joins| ==> joins[i].key == key && !joins[i].isolated
    ensures forall k | 0 <= k < i :: joins[k].key != key || joins[k].isolated
    decreases |joins|
  {
    if joins == [] then 0
    else if joins[0].key == key && !joins[0].isolated then 0
    else 1 + FindJoin(joins[1..], key)
  }

  /** Position of the first join bound to the OR node at `parent` that reads table family `t` (|joins| if none). */
  function FindSibling(joins: seq<Join>, parent: seq<nat>, t: SqlIndexType): (i: nat)
    ensures i <= |joins|
    ensures i < |joins| ==> joins[i].parent == Some(parent) && joins[i].sqlIndex == t
    ensures forall k | 0 <= k < i :: joins[k].parent != Some(parent) || joins[k].sqlIndex != t
    decreases |joins|
  {
    if joins == [] then 0
    else if joins[0].parent == Some(parent) && joins[0].sqlIndex == t then 0
    else 1 + FindSibling(joins[1..], parent, t)
  }

  /** The join at `i` made LEFT OUTER; nothing else changes. */
  function MakeOuter(joins: seq<Join>, i: nat): (r: seq<Join>)
    requires i < |joins|
    ensures |r| == |joins| && r[i].kind == LeftOuterJoin
    ensures forall k | 0 <= k < |joins| && k != i :: r[k] == joins[k]
    ensures r[i] == joins[i].(kind := LeftOuterJoin)
  {
    joins[i := joins[i].(kind := LeftOuterJoin)]
  }

  /**
   * What compilation may do to existing joins: append new ones, widen their
   * symbol filters, rebind them to an OR node, and turn them LEFT OUTER;
   * never drop one, change what it reads, or turn an outer join back.
   */
  predicate JoinsGrow(a: seq<Join>, b: seq<Join>) {
    && |a| <= |b|
    && forall i | 0 <= i < |a| ::
         && b[i].key == a[i].key
         && b[i].sqlIndex == a[i].sqlIndex
         && b[i].table == a[i].table
         && b[i].isolated == a[i].isolated
         && a[i].indexKeys <= b[i].indexKeys
         && (a[i].kind == LeftOuterJoin ==> b[i].kind == LeftOuterJoin)
  }

  lemma JoinsGrowRefl(a: seq<Join>)
    ensures JoinsGrow(a, a)
  {
  }

  /** Changing one join in an allowed way is growth. */
  lemma JoinsGrowUpdate(a: seq<Join>, i: nat, j: Join)
    requires i < |a|
    requires j.key == a[i].key && j.sqlIndex == a[i].sqlIndex && j.table == a[i].table && j.isolated == a[i].isolated
    requires a[i].indexKeys <= j.indexKeys && (a[i].kind == LeftOuterJoin ==> j.kind == LeftOuterJoin)
    ensures JoinsGrow(a, a[i := j])
  {
  }

  /** Appending a join is growth. */
  lemma JoinsGrowAppend(a: seq<Join>, b: seq<Join>)
    requires |b| == |a| + 1 && b[..|a|] == a
    ensures JoinsGrow(a, b)
  {
    forall i | 0 <= i < |a| ensures b[i] == a[i] {
      assert b[..|a|][i] == b[i];
    }
  }

  lemma JoinsGrowTrans(a: seq<Join>, b: seq<Join>, c: seq<Join>)
    requires JoinsGrow(a, b) && JoinsGrow(b, c)
    ensures JoinsGrow(a, c)
  {
  }
}
