/**
 * Conditions as abstract trees instead of SQL text, with a two-valued
 * meaning: atomic tests are interpreted by an arbitrary valuation, the
 * connectives by logic. The combinators here are the ones the predicate
 * compiler uses to join child conditions and per-value conditions.
 */
module Conditions {
  import opened Wrappers
  import opened DariQuery

  /** The value column of join number `join` of the compiler with alias prefix `prefix`, read for `key`. */
  datatype FieldRef = ValueColumn(prefix: string, join: nat, key: string)

  /** A value in the physical representation of an index table family (the encoding itself is opaque). */
  datatype Encoded = Encoded(table: SqlIndexType, value: Value)

  datatype Cond =
    | TrueCond
    | FalseCond
    | And(left: Cond, right: Cond)
    | Or(left: Cond, right: Cond)
    | Not(operand: Cond)
    | AllOf(conds: seq<Cond>)          // DSL.and(list)
    | AnyOf(conds: seq<Cond>)          // DSL.or(list)
    | Eq(field: FieldRef, value: Encoded)
    | Ne(field: FieldRef, value: Encoded)
    | IsNull(field: FieldRef)
    | IsNotNull(field: FieldRef)
    | KeyEq(prefix: string, join: nat, indexKey: string)     // the join's symbol column equals the key's symbol
    | Cmp(op: string, field: FieldRef, value: Encoded)      // relational operator lookup
    | InRegion(field: FieldRef, region: Region)            // vendor region containment
    | AtLocation(field: FieldRef, location: Location)      // vendor point matching
    | InSubQuery(field: FieldRef, sub: SubSelect, negated: bool)
    | TypeIdIn(prefix: string, typeIds: set<string>)
    | Raw(text: string)                                    // extra WHERE option text

  /** The bare-id sub-query statement an inlined sub-query condition embeds. */
  datatype SubSelect = SubSelect(distinct: bool, prefix: string, from: seq<FromItem>, where: Cond, having: Option<string>, orderBy: seq<SortField>)

  datatype SortExpr = FieldExpr(field: FieldRef) | NearestExpr(field: FieldRef, location: Option<Location>)

  datatype SortField = Asc(expr: SortExpr) | Desc(expr: SortExpr)

  datatype JoinKind = InnerJoin | LeftOuterJoin

  /** An index hint the FROM clause attaches to a join. */
  datatype Hint = NoHint | IgnorePrimaryIndex

  /** How a joined sub-query's record table is tied to the outer value column. */
  datatype Correlation = Correlation(field: FieldRef, negated: bool)

  /** A piece of the extra-joins option after `${key}` substitution. */
  datatype Fragment = Text(text: string) | ValueRef(field: FieldRef)

  /** One entry of a FROM clause after the record table. */
  datatype FromItem =
    | JoinItem(kind: JoinKind, prefix: string, join: nat, hint: Hint, matchTypeId: bool, indexKeys: set<string>)
    | SubQueryJoin(alias: string, correlation: Correlation, subFrom: seq<FromItem>)
    | ExtraJoins(fragments: seq<Fragment>)

  predicate IsAtom(c: Cond) {
    !(c.TrueCond? || c.FalseCond? || c.And? || c.Or? || c.Not? || c.AllOf? || c.AnyOf?)
  }

  /** The meaning of a condition once every atomic test has a truth value. */
  predicate Holds(c: Cond, atom: Cond -> bool)
    decreases c
  {
    match c
    case TrueCond => true
    case FalseCond => false
    case And(l, r) => Holds(l, atom) && Holds(r, atom)
    case Or(l, r) => Holds(l, atom) || Holds(r, atom)
    case Not(x) => !Holds(x, atom)
    case AllOf(cs) => forall i | 0 <= i < |cs| :: Holds(cs[i], atom)
    case AnyOf(cs) => exists i | 0 <= i < |cs| :: Holds(cs[i], atom)
    case _ => atom(c)
  }

  /**
   * One step of the compound loop: an absent child condition is skipped, the
   * first present one is taken as is, later ones are joined with AND or OR.
   */
  function Chain(conjoin: bool, acc: Option<Cond>, c: Option<Cond>): Option<Cond> {
    if c.None? then acc
    else if acc.None? then c
    else if conjoin then Some(And(acc.value, c.value))
    else Some(Or(acc.value, c.value))
  }

  /** The compound loop over all child results, left to right. */
  function Combine(conjoin: bool, cs: seq<Option<Cond>>): Option<Cond>
    decreases |cs|
  {
    if cs == [] then None
    else Chain(conjoin, Combine(conjoin, cs[..|cs| - 1]), cs[|cs| - 1])
  }

  /** The combination of per-value conditions: AND for NOT_EQUALS_ALL, OR otherwise; an empty list is TRUE or FALSE. */
  function CombineValues(conjoin: bool, conds: seq<Cond>): Cond {
    if conds == [] then (if conjoin then TrueCond else FalseCond)
    else if conjoin then AllOf(conds) else AnyOf(conds)
  }

  /** The combined condition is absent exactly when every child condition is absent. */
  lemma {:induction false} CombineAbsent(conjoin: bool, cs: seq<Option<Cond>>)
    ensures Combine(conjoin, cs).None? <==> forall i | 0 <= i < |cs| :: cs[i].None?
    decreases |cs|
  {
    if cs != [] {
      var init := cs[..|cs| - 1];
      CombineAbsent(conjoin, init);
      assert forall i | 0 <= i < |init| :: init[i] == cs[i];
    }
  }

  /** An OR compound holds exactly when some present child condition holds. */
  lemma {:induction false} CombineOrHolds(cs: seq<Option<Cond>>, atom: Cond -> bool)
    requires Combine(false, cs).Some?
    ensures Holds(Combine(false, cs).value, atom) <==>
              exists i | 0 <= i < |cs| :: cs[i].Some? && Holds(cs[i].value, atom)
    decreases |cs|
  {
    var init := cs[..|cs| - 1];
    var last := cs[|cs| - 1];
    assert forall i | 0 <= i < |init| :: init[i] == cs[i];
    if Combine(false, init).Some? {
      CombineOrHolds(init, atom);
    } else {
      CombineAbsent(false, init);
    }
  }

  /** An AND compound holds exactly when every present child condition holds. */
  lemma {:induction false} CombineAndHolds(cs: seq<Option<Cond>>, atom: Cond -> bool)
    requires Combine(true, cs).Some?
    ensures Holds(Combine(true, cs).value, atom) <==>
              forall i | 0 <= i < |cs| :: cs[i].Some? ==> Holds(cs[i].value, atom)
    decreases |cs|
  {
    var init := cs[..|cs| - 1];
    var last := cs[|cs| - 1];
    assert forall i | 0 <= i < |init| :: init[i] == cs[i];
    if Combine(true, init).Some? {
      CombineAndHolds(init, atom);
    } else {
      CombineAbsent(true, init);
    }
  }

  /**
   * Reordering the children of a compound does not change whether it has a
   * condition, nor what that condition means.
   */
  lemma CombineReorder(conjoin: bool, cs: seq<Option<Cond>>, ds: seq<Option<Cond>>, atom: Cond -> bool)
    requires multiset(cs) == multiset(ds)
    ensures Combine(conjoin, cs).None? <==> Combine(conjoin, ds).None?
    ensures Combine(conjoin, cs).Some? ==> (Holds(Combine(conjoin, cs).value, atom) <==> Holds(Combine(conjoin, ds).value, atom))
  {
    CombineAbsent(conjoin, cs);
    CombineAbsent(conjoin, ds);
    forall x | x in cs ensures x in ds { assert x in multiset(cs); }
    forall x | x in ds ensures x in cs { assert x in multiset(ds); }
    if Combine(conjoin, cs).None? {
      forall j | 0 <= j < |ds| ensures ds[j].None? {
        assert ds[j] in cs;
      }
    } else {
      var i :| 0 <= i < |cs| && cs[i].Some?;
      assert cs[i] in ds;
      if conjoin {
        CombineAndHolds(cs, atom);
        CombineAndHolds(ds, atom);
        forall j | 0 <= j < |ds| ensures ds[j] in cs { }
        forall j | 0 <= j < |cs| ensures cs[j] in ds { }
      } else {
        CombineOrHolds(cs, atom);
        CombineOrHolds(ds, atom);
        forall j | 0 <= j < |ds| ensures ds[j] in cs { }
        forall j | 0 <= j < |cs| ensures cs[j] in ds { }
      }
    }
  }

  /**
   * The per-value combination holds when all per-value conditions hold
   * (NOT_EQUALS_ALL) or when one of them does (every other operator); the
   * empty list gives TRUE and FALSE, the same answers.
   */
  lemma CombineValuesHolds(conjoin: bool, conds: seq<Cond>, atom: Cond -> bool)
    ensures conjoin ==> (Holds(CombineValues(conjoin, conds), atom) <==> forall i | 0 <= i < |conds| :: Holds(conds[i], atom))
    ensures !conjoin ==> (Holds(CombineValues(conjoin, conds), atom) <==> exists i | 0 <= i < |conds| :: Holds(conds[i], atom))
  {
  }
}
