/**
 * findSimilarComparison: does the query's predicate compare the given field
 * somewhere without a sub-query? The compiler uses the answer to inline a
 * comparison's sub-query instead of joining it.
 */
module Similar {
  import opened Wrappers
  import opened DariQuery

  /** The search, depth first and left to right, stopping at the first hit; an unmapped key fails. */
  function FindSimilar(mapped: map<string, MappedKey>, field: Option<string>, p: Predicate): Result<bool, CompileError>
    decreases p, 1
  {
    if field.None? then Success(false)
    else
      match p
      case Compound(_, children) => FindSimilarAmong(mapped, field, p, |children|)
      case Comparison(key, _, _, valueQuery) =>
        if key !in mapped then Failure(UnmappedKey(key))
        else Success(mapped[key].field == field && valueQuery.None?)
      case OtherPredicate(_) => Success(false)
  }

  /** The search over the first `n` children of a compound. */
  function FindSimilarAmong(mapped: map<string, MappedKey>, field: Option<string>, p: Predicate, n: nat): Result<bool, CompileError>
    requires p.Compound? && n <= |p.children|
    decreases p, 0, n
  {
    if n == 0 then Success(false)
    else
      var prev := FindSimilarAmong(mapped, field, p, n - 1);
      if prev.Failure? || prev.value then prev
      else FindSimilar(mapped, field, p.children[n - 1])
  }

  /** `c` is a node of the tree `p` (the root included). */
  predicate Occurs(c: Predicate, p: Predicate)
    decreases p
  {
    c == p || (p.Compound? && exists i | 0 <= i < |p.children| :: Occurs(c, p.children[i]))
  }

  /** Every comparison in the tree has a mapped key. */
  predicate AllMapped(mapped: map<string, MappedKey>, p: Predicate)
    decreases p
  {
    match p
    case Compound(_, children) => forall i | 0 <= i < |children| :: AllMapped(mapped, children[i])
    case Comparison(key, _, _, _) => key in mapped
    case OtherPredicate(_) => true
  }

  /** A comparison on `field` that needs no sub-query. */
  predicate SimilarNode(mapped: map<string, MappedKey>, field: Option<string>, c: Predicate) {
    c.Comparison? && c.key in mapped && mapped[c.key].field == field && c.valueQuery.None?
  }

  /**
   * On a tree whose keys are all mapped, the search succeeds, and it answers
   * yes exactly when the field is present and some comparison in the tree
   * compares that field without a sub-query.
   */
  lemma {:induction false} FindSimilarIff(mapped: map<string, MappedKey>, field: Option<string>, p: Predicate)
    requires AllMapped(mapped, p)
    ensures FindSimilar(mapped, field, p).Success?
    ensures FindSimilar(mapped, field, p).value <==>
              field.Some? && exists c | Occurs(c, p) :: SimilarNode(mapped, field, c)
    decreases p, 1
  {
    if field.Some? {
      if p.Compound? {
        FindSimilarAmongIff(mapped, field, p, |p.children|);
        if exists i, c | 0 <= i < |p.children| && Occurs(c, p.children[i]) :: SimilarNode(mapped, field, c) {
          var i, c :| 0 <= i < |p.children| && Occurs(c, p.children[i]) && SimilarNode(mapped, field, c);
          assert Occurs(c, p);
        }
      } else if p.Comparison? {
        assert Occurs(p, p);
      }
    }
  }

  lemma {:induction false} FindSimilarAmongIff(mapped: map<string, MappedKey>, field: Option<string>, p: Predicate, n: nat)
    requires p.Compound? && n <= |p.children| && field.Some?
    requires AllMapped(mapped, p)
    ensures FindSimilarAmong(mapped, field, p, n).Success?
    ensures FindSimilarAmong(mapped, field, p, n).value <==>
              exists i, c | 0 <= i < n && Occurs(c, p.children[i]) :: SimilarNode(mapped, field, c)
    decreases p, 0, n
  {
    if n > 0 {
      FindSimilarAmongIff(mapped, field, p, n - 1);
      FindSimilarIff(mapped, field, p.children[n - 1]);
    }
  }

  /** Without a field there is nothing to compare: the answer is no, whatever the tree. */
  lemma NoFieldNoSimilar(mapped: map<string, MappedKey>, p: Predicate)
    ensures FindSimilar(mapped, None, p) == Success(false)
  {
  }
}
