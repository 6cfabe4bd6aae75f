/**
 * The per-value loop of a comparison (createWhereCondition on a comparison
 * without a sub-query): each resolved value contributes at most one
 * condition and may mark the comparison as having a missing-value test,
 * force its join LEFT OUTER, or force duplicate elimination.
 */
module ValueConditions {
  import opened Wrappers
  import opened DariQuery
  import opened Conditions

  /** What the loop needs to know: operator, collection-ness, the join's value column and family, vendor geo support, the key. */
  datatype ValueContext = ValueContext(
    cmp: ComparisonOp,
    isCollection: bool,
    field: FieldRef,
    family: SqlIndexType,
    geoSupported: bool,
    key: string)

  /** The conditions collected so far and the three flags the loop can raise. */
  datatype Outcome = Outcome(conds: seq<Cond>, hasMissing: bool, outer: bool, distinct: bool)

  const NoOutcome := Outcome([], false, false, false)

  /**
   * One value's contribution, added to what was collected before it: at most
   * one condition is appended and nothing collected is lost; the step fails,
   * with UnsupportedIndex for the key, exactly when the value needs
   * geospatial SQL the vendor lacks.
   */
  function ValueStep(vc: ValueContext, acc: Outcome, v: Value): (r: Result<Outcome, CompileError>)
    ensures r.Failure? <==> NeedsGeo(vc.cmp, v) && !vc.geoSupported
    ensures r.Failure? ==> r.error == UnsupportedIndex(vc.key)
    ensures r.Success? ==> |acc.conds| <= |r.value.conds| <= |acc.conds| + 1 && r.value.conds[..|acc.conds|] == acc.conds
  {
    var f := vc.field;
    var nea := vc.cmp.NotEqualsAll?;
    match vc.cmp
    case EqualsAny | NotEqualsAll =>
      (match v
       case NullValue => Success(acc.(conds := acc.conds + [FalseCond]))
       case Missing =>
         if nea then Success(acc.(hasMissing := true, distinct := acc.distinct || vc.isCollection, conds := acc.conds + [IsNotNull(f)]))
         else Success(acc.(hasMissing := true, outer := true, conds := acc.conds + [IsNull(f)]))
       case RegionValue(r) =>
         if r.locationCount == 0 then Success(acc)
         else if !vc.geoSupported then Failure(UnsupportedIndex(vc.key))
         else Success(acc.(conds := acc.conds + [if nea then Not(InRegion(f, r)) else InRegion(f, r)]))
       case _ =>
         var e := Encoded(vc.family, v);
         if nea then Success(acc.(outer := true, distinct := true, hasMissing := true, conds := acc.conds + [Or(IsNull(f), Ne(f, e))]))
         else Success(acc.(conds := acc.conds + [Eq(f, e)])))
    case Relational(op) =>
      (match v
       case NullValue => Success(acc.(conds := acc.conds + [FalseCond]))
       case LocationValue(l) =>
         if !vc.geoSupported then Failure(UnsupportedIndex(vc.key))
         else Success(acc.(conds := acc.conds + [AtLocation(f, l)]))
       case Missing => Success(acc.(hasMissing := true, outer := true, conds := acc.conds + [IsNull(f)]))
       case _ => Success(acc.(conds := acc.conds + [Cmp(op, f, Encoded(vc.family, v))])))
    case Unrecognized(_) => Success(acc)
  }

  /**
   * The loop over the first `n` values, left to right; the first failure
   * stops it. It collects at most one condition per value.
   */
  function CollectValues(vc: ValueContext, values: seq<Value>, n: nat): (r: Result<Outcome, CompileError>)
    requires n <= |values|
    ensures r.Success? ==> |r.value.conds| <= n
    ensures r.Failure? ==> r.error == UnsupportedIndex(vc.key)
    decreases n
  {
    if n == 0 then Success(NoOutcome)
    else
      var prev := CollectValues(vc, values, n - 1);
      if prev.Failure? then prev else ValueStep(vc, prev.value, values[n - 1])
  }

  /**
   * What the loop had collected when it stopped: everything, when no value
   * fails; otherwise what the values before the first failing one gave. Its
   * flags are the ones the source has already set on the join and on the
   * compiler when the failing value throws.
   */
  function Reached(vc: ValueContext, values: seq<Value>, n: nat): (o: Outcome)
    requires n <= |values|
    ensures CollectValues(vc, values, n).Success? ==> o == CollectValues(vc, values, n).value
    decreases n
  {
    if n == 0 then NoOutcome
    else
      var prev := Reached(vc, values, n - 1);
      if CollectValues(vc, values, n - 1).Failure? then prev
      else
        var step := ValueStep(vc, prev, values[n - 1]);
        if step.Success? then step.value else prev
  }

  /** The value loop as the source writes it: the outcome, and what was collected when it stopped. */
  method CollectValueConditions(vc: ValueContext, values: seq<Value>) returns (r: Result<Outcome, CompileError>, reached: Outcome)
    ensures r == CollectValues(vc, values, |values|)
    ensures reached == Reached(vc, values, |values|)
  {
    if vc.cmp.Unrecognized? {
      // no operator family matches: the values are never looked at
      r := Success(NoOutcome);
      reached := NoOutcome;
      assert forall n | 0 <= n <= |values| :: CollectValues(vc, values, n) == Success(NoOutcome) by {
        UnrecognizedCollectsNothing(vc, values, |values|);
      }
      return;
    }
    var out := NoOutcome;
    var i := 0;
    while i < |values|
      invariant 0 <= i <= |values|
      invariant CollectValues(vc, values, i) == Success(out)
    {
      var step := ValueStep(vc, out, values[i]);
      if step.Failure? {
        FailureSticks(vc, values, i + 1, |values|);
        ReachedSticks(vc, values, i + 1, |values|);
        return step, out;
      }
      out := step.value;
      i := i + 1;
    }
    r := Success(out);
    reached := out;
  }

  lemma {:induction false} ReachedSticks(vc: ValueContext, values: seq<Value>, n: nat, m: nat)
    requires n <= m <= |values| && CollectValues(vc, values, n).Failure?
    ensures Reached(vc, values, m) == Reached(vc, values, n)
    decreases m - n
  {
    if m > n {
      ReachedSticks(vc, values, n, m - 1);
      FailureSticks(vc, values, n, m - 1);
    }
  }

  /** The loop got through value `i`: neither it nor a value before it failed. */
  predicate Passed(vc: ValueContext, values: seq<Value>, i: nat)
    requires i < |values|
  {
    CollectValues(vc, values, i + 1).Success?
  }

  /** The join is forced LEFT OUTER exactly when a value the loop got through asks for it. */
  lemma {:induction false} ReachedOuter(vc: ValueContext, values: seq<Value>, n: nat)
    requires n <= |values|
    ensures Reached(vc, values, n).outer <==> exists i | 0 <= i < n :: Passed(vc, values, i) && ForcesOuter(vc.cmp, values[i])
    decreases n
  {
    if n > 0 {
      ReachedOuter(vc, values, n - 1);
      ReachedStep(vc, values, n);
    }
  }

  /** Duplicates are noted exactly when a value the loop got through asks for it. */
  lemma {:induction false} ReachedDistinct(vc: ValueContext, values: seq<Value>, n: nat)
    requires n <= |values|
    ensures Reached(vc, values, n).distinct <==> exists i | 0 <= i < n :: Passed(vc, values, i) && ForcesDistinct(vc.cmp, vc.isCollection, values[i])
    decreases n
  {
    if n > 0 {
      ReachedDistinct(vc, values, n - 1);
      ReachedStep(vc, values, n);
    }
  }

  /** One more value: if the loop got through it, its flags join the earlier ones; otherwise nothing changes. */
  lemma ReachedStep(vc: ValueContext, values: seq<Value>, n: nat)
    requires 0 < n <= |values|
    ensures var prev := Reached(vc, values, n - 1);
      var now := Reached(vc, values, n);
      && (Passed(vc, values, n - 1) ==>
            now.outer == (prev.outer || ForcesOuter(vc.cmp, values[n - 1]))
            && now.distinct == (prev.distinct || ForcesDistinct(vc.cmp, vc.isCollection, values[n - 1])))
      && (!Passed(vc, values, n - 1) ==> now == prev)
  {
    if CollectValues(vc, values, n - 1).Success? {
      var step := ValueStep(vc, Reached(vc, values, n - 1), values[n - 1]);
      if step.Success? {
        ValueStepEffect(vc, Reached(vc, values, n - 1), values[n - 1]);
      }
    }
  }

  lemma {:induction false} FailureSticks(vc: ValueContext, values: seq<Value>, n: nat, m: nat)
    requires n <= m <= |values| && CollectValues(vc, values, n).Failure?
    ensures CollectValues(vc, values, m) == CollectValues(vc, values, n)
    decreases m - n
  {
    if m > n {
      FailureSticks(vc, values, n, m - 1);
    }
  }

  // ---------------------------------------------------------------------------
  // What each value does, classified by operator and value kind.

  /** The value takes the missing-value path: MISSING itself, or any plain value under NOT_EQUALS_ALL. */
  predicate MarksMissing(cmp: ComparisonOp, v: Value) {
    !cmp.Unrecognized? && (v.Missing? || (cmp.NotEqualsAll? && (v.Plain? || v.LocationValue?)))
  }

  /** The value forces the join LEFT OUTER: MISSING under EQUALS_ANY or a relational operator, a plain value under NOT_EQUALS_ALL. */
  predicate ForcesOuter(cmp: ComparisonOp, v: Value) {
    || ((cmp.EqualsAny? || cmp.Relational?) && v.Missing?)
    || (cmp.NotEqualsAll? && (v.Plain? || v.LocationValue?))
  }

  /** The value forces duplicate elimination: under NOT_EQUALS_ALL, a plain value, or MISSING on a collection field. */
  predicate ForcesDistinct(cmp: ComparisonOp, isCollection: bool, v: Value) {
    cmp.NotEqualsAll? && (v.Plain? || v.LocationValue? || (v.Missing? && isCollection))
  }

  /** The value needs the vendor's geospatial support. */
  predicate NeedsGeo(cmp: ComparisonOp, v: Value) {
    || ((cmp.EqualsAny? || cmp.NotEqualsAll?) && v.RegionValue? && v.region.locationCount > 0)
    || (cmp.Relational? && v.LocationValue?)
  }

  /** The value contributes no condition: an unrecognized operator, or a region without locations. */
  predicate Silent(cmp: ComparisonOp, v: Value) {
    cmp.Unrecognized? || ((cmp.EqualsAny? || cmp.NotEqualsAll?) && v.RegionValue? && v.region.locationCount == 0)
  }

  /** One value's effect on the flags and on the number of conditions. */
  lemma ValueStepEffect(vc: ValueContext, acc: Outcome, v: Value)
    requires ValueStep(vc, acc, v).Success?
    ensures var r := ValueStep(vc, acc, v).value;
      && r.hasMissing == (acc.hasMissing || MarksMissing(vc.cmp, v))
      && r.outer == (acc.outer || ForcesOuter(vc.cmp, v))
      && r.distinct == (acc.distinct || ForcesDistinct(vc.cmp, vc.isCollection, v))
      && r.conds == acc.conds + r.conds[|acc.conds|..]
      && |r.conds| == |acc.conds| + (if Silent(vc.cmp, v) then 0 else 1)
  {
  }

  /**
   * The loop's flags are exactly the disjunction of what each value asks for:
   * the comparison has a missing-value test, forces its join LEFT OUTER, and
   * forces duplicate elimination exactly when some value does; and each
   * value adds exactly one condition unless it is silent.
   */
  lemma {:induction false} CollectValuesFlags(vc: ValueContext, values: seq<Value>, n: nat)
    requires n <= |values| && CollectValues(vc, values, n).Success?
    ensures var o := CollectValues(vc, values, n).value;
      && (o.hasMissing <==> exists i | 0 <= i < n :: MarksMissing(vc.cmp, values[i]))
      && (o.outer <==> exists i | 0 <= i < n :: ForcesOuter(vc.cmp, values[i]))
      && (o.distinct <==> exists i | 0 <= i < n :: ForcesDistinct(vc.cmp, vc.isCollection, values[i]))
      && |o.conds| == n - |set i | 0 <= i < n && Silent(vc.cmp, values[i])|
    decreases n
  {
    if n > 0 {
      var prev := CollectValues(vc, values, n - 1);
      CollectValuesFlags(vc, values, n - 1);
      ValueStepEffect(vc, prev.value, values[n - 1]);
      var before := set i | 0 <= i < n - 1 && Silent(vc.cmp, values[i]);
      var after := set i | 0 <= i < n && Silent(vc.cmp, values[i]);
      if Silent(vc.cmp, values[n - 1]) {
        assert after == before + {n - 1};
      } else {
        assert after == before;
      }
    }
  }

  /** The loop fails exactly when some value needs geospatial support the vendor lacks. */
  lemma {:induction false} CollectValuesFails(vc: ValueContext, values: seq<Value>, n: nat)
    requires n <= |values|
    ensures CollectValues(vc, values, n).Failure? <==>
              !vc.geoSupported && exists i | 0 <= i < n :: NeedsGeo(vc.cmp, values[i])
    ensures CollectValues(vc, values, n).Failure? ==> CollectValues(vc, values, n).error == UnsupportedIndex(vc.key)
    decreases n
  {
    if n > 0 {
      CollectValuesFails(vc, values, n - 1);
    }
  }

  /** With an unrecognized operator the values are ignored: no condition, no flag. */
  lemma {:induction false} UnrecognizedCollectsNothing(vc: ValueContext, values: seq<Value>, n: nat)
    requires vc.cmp.Unrecognized? && n <= |values|
    ensures forall m | 0 <= m <= n :: CollectValues(vc, values, m) == Success(NoOutcome)
    decreases n
  {
    if n > 0 {
      UnrecognizedCollectsNothing(vc, values, n - 1);
    }
  }

  /**
   * The condition each kind of value contributes is among the collected
   * ones: FALSE for null; IS NOT NULL for a missing value under
   * NOT_EQUALS_ALL and IS NULL under any other operator; IS NULL OR != v for
   * a plain value under NOT_EQUALS_ALL.
   */
  lemma {:induction false} ValueConditionPresent(vc: ValueContext, values: seq<Value>, n: nat, k: nat)
    requires k < n <= |values| && !vc.cmp.Unrecognized?
    requires CollectValues(vc, values, n).Success?
    ensures var conds := CollectValues(vc, values, n).value.conds;
      && (values[k] == NullValue ==> FalseCond in conds)
      && (values[k] == Missing && vc.cmp.NotEqualsAll? ==> IsNotNull(vc.field) in conds)
      && (values[k] == Missing && !vc.cmp.NotEqualsAll? ==> IsNull(vc.field) in conds)
      && (values[k].Plain? && vc.cmp.NotEqualsAll? ==> Or(IsNull(vc.field), Ne(vc.field, Encoded(vc.family, values[k]))) in conds)
    decreases n
  {
    CollectValuesFails(vc, values, n - 1);
    if n > k + 1 {
      ValueConditionPresent(vc, values, n - 1, k);
      ValueStepEffect(vc, CollectValues(vc, values, n - 1).value, values[n - 1]);
      var prev := CollectValues(vc, values, n - 1).value.conds;
      var now := CollectValues(vc, values, n).value.conds;
      assert now[..|prev|] == prev;
      forall c | c in prev ensures c in now {
        var j :| 0 <= j < |prev| && prev[j] == c;
        assert now[j] == c;
      }
    }
  }
}
