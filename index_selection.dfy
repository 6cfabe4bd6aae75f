/**
 * Index selection (SqlQuery.selectIndex): for one query key, pick among its
 * candidate indexes the first one that contains the most fields of all the
 * keys the query references; when that best overlap is exactly one, prefer
 * the first single-field candidate instead.
 */
module IndexSelection {
  import opened Wrappers
  import opened DariQuery

  /** The mapped key has a field and the index contains it. */
  predicate Covers(index: Index, mk: MappedKey) {
    mk.field.Some? && mk.field.value in index.fields
  }

  /** The set of mapped keys whose field the index contains. */
  function Matching(index: Index, mapped: map<string, MappedKey>): set<string> {
    set k | k in mapped && Covers(index, mapped[k])
  }

  /** The overlap count of one candidate index. */
  function MatchCount(index: Index, mapped: map<string, MappedKey>): nat {
    |Matching(index, mapped)|
  }

  /** The greatest overlap count among the candidates (0 for none). */
  function MaxCount(indexes: seq<Index>, mapped: map<string, MappedKey>): (m: nat)
    ensures forall i | 0 <= i < |indexes| :: MatchCount(indexes[i], mapped) <= m
    decreases |indexes|
  {
    if indexes == [] then 0
    else
      var init := indexes[..|indexes| - 1];
      var rest := MaxCount(init, mapped);
      var last := MatchCount(indexes[|indexes| - 1], mapped);
      assert forall i | 0 <= i < |init| :: init[i] == indexes[i];
      if last > rest then last else rest
  }

  /** The greatest overlap count, when positive, is the count of some candidate. */
  lemma {:induction false} MaxCountAttained(indexes: seq<Index>, mapped: map<string, MappedKey>)
    ensures MaxCount(indexes, mapped) > 0 ==>
              exists i | 0 <= i < |indexes| :: MatchCount(indexes[i], mapped) == MaxCount(indexes, mapped)
    decreases |indexes|
  {
    if indexes != [] {
      var init := indexes[..|indexes| - 1];
      MaxCountAttained(init, mapped);
      if MaxCount(indexes, mapped) > 0 && MaxCount(indexes, mapped) == MaxCount(init, mapped) {
        var i :| 0 <= i < |init| && MatchCount(init[i], mapped) == MaxCount(init, mapped);
        assert init[i] == indexes[i];
      }
    }
  }

  /** Position of the first candidate whose overlap count is `m` (|indexes| if none). */
  function FirstWithCount(indexes: seq<Index>, mapped: map<string, MappedKey>, m: nat): (p: nat)
    ensures p <= |indexes|
    ensures p < |indexes| ==> MatchCount(indexes[p], mapped) == m
    ensures forall j | 0 <= j < p :: MatchCount(indexes[j], mapped) != m
    ensures p == |indexes| <==> forall j | 0 <= j < |indexes| :: MatchCount(indexes[j], mapped) != m
    decreases |indexes|
  {
    if indexes == [] then 0
    else if MatchCount(indexes[0], mapped) == m then 0
    else 1 + FirstWithCount(indexes[1..], mapped, m)
  }

  /** Position of the first single-field candidate (|indexes| if none). */
  function FirstSingleField(indexes: seq<Index>): (p: nat)
    ensures p <= |indexes|
    ensures p < |indexes| ==> |indexes[p].fields| == 1
    ensures forall j | 0 <= j < p :: |indexes[j].fields| != 1
    decreases |indexes|
  {
    if indexes == [] then 0
    else if |indexes[0].fields| == 1 then 0
    else 1 + FirstSingleField(indexes[1..])
  }

  /** The index selectIndex records for a key with these candidates (None: nothing is recorded). */
  function SelectedIndex(indexes: seq<Index>, mapped: map<string, MappedKey>): Option<Index> {
    var m := MaxCount(indexes, mapped);
    if m == 0 then None
    else if m == 1 && FirstSingleField(indexes) < |indexes| then Some(indexes[FirstSingleField(indexes)])
    else
      var p := FirstWithCount(indexes, mapped, m);
      if p < |indexes| then Some(indexes[p]) else None
  }

  /** The inner loop of selectIndex: count the mapped keys whose field the index contains. */
  method CountMatches(index: Index, mapped: map<string, MappedKey>) returns (n: nat)
    ensures n == MatchCount(index, mapped)
  {
    var todo := mapped.Keys;
    ghost var done: set<string> := {};
    n := 0;
    while todo != {}
      invariant todo !! done && todo + done == mapped.Keys
      invariant n == |set k | k in done && Covers(index, mapped[k])|
      decreases |todo|
    {
      var k :| k in todo;
      ghost var before := set k' | k' in done && Covers(index, mapped[k']);
      ghost var after := set k' | k' in done + {k} && Covers(index, mapped[k']);
      if Covers(index, mapped[k]) {
        assert after == before + {k};
        n := n + 1;
      } else {
        assert after == before;
      }
      todo := todo - {k};
      done := done + {k};
    }
    assert (set k | k in done && Covers(index, mapped[k])) == Matching(index, mapped);
  }

  /** selectIndex's first loop: the first candidate with the strictly greatest overlap. */
  method BestOverlap(indexes: seq<Index>, mapped: map<string, MappedKey>) returns (best: nat, maxMatchCount: nat)
    ensures maxMatchCount == MaxCount(indexes, mapped)
    ensures maxMatchCount > 0 ==> best == FirstWithCount(indexes, mapped, maxMatchCount) < |indexes|
  {
    best := 0;
    maxMatchCount := 0;
    var i := 0;
    while i < |indexes|
      invariant 0 <= i <= |indexes|
      invariant maxMatchCount == MaxCount(indexes[..i], mapped)
      invariant maxMatchCount > 0 ==> best < i && MatchCount(indexes[best], mapped) == maxMatchCount
      invariant forall j | 0 <= j < best && j < i :: MatchCount(indexes[j], mapped) < maxMatchCount
      invariant maxMatchCount == 0 ==> best == 0
    {
      var matchCount := CountMatches(indexes[i], mapped);
      MaxCountStep(indexes, mapped, i);
      if matchCount > maxMatchCount {
        forall j | 0 <= j < i ensures MatchCount(indexes[j], mapped) < matchCount {
          assert indexes[..i][j] == indexes[j];
        }
        best := i;
        maxMatchCount := matchCount;
      }
      i := i + 1;
    }
    assert indexes[..i] == indexes;
    if maxMatchCount > 0 {
      FirstWithCountAt(indexes, mapped, maxMatchCount, best);
    }
  }

  /** selectIndex: the greedy choice, replaced by the first single-field candidate when the best overlap is one. */
  method ChooseIndex(indexes: seq<Index>, mapped: map<string, MappedKey>) returns (selected: Option<Index>)
    ensures selected == SelectedIndex(indexes, mapped)
  {
    var best, maxMatchCount := BestOverlap(indexes, mapped);
    selected := None;
    if maxMatchCount > 0 {
      selected := Some(indexes[best]);
      if maxMatchCount == 1 {
        var k := 0;
        while k < |indexes|
          invariant 0 <= k <= |indexes|
          invariant forall j | 0 <= j < k :: |indexes[j].fields| != 1
          invariant selected == Some(indexes[best])
        {
          if |indexes[k].fields| == 1 {
            selected := Some(indexes[k]);
            FirstSingleFieldAt(indexes, k);
            break;
          }
          k := k + 1;
        }
        if k == |indexes| {
          FirstSingleFieldAt(indexes, k);
        }
      }
    }
  }

  lemma MaxCountStep(indexes: seq<Index>, mapped: map<string, MappedKey>, i: nat)
    requires i < |indexes|
    ensures MaxCount(indexes[..i + 1], mapped) ==
              if MatchCount(indexes[i], mapped) > MaxCount(indexes[..i], mapped)
              then MatchCount(indexes[i], mapped) else MaxCount(indexes[..i], mapped)
  {
    assert indexes[..i + 1][..i] == indexes[..i];
  }

  lemma FirstWithCountAt(indexes: seq<Index>, mapped: map<string, MappedKey>, m: nat, p: nat)
    requires p < |indexes| && MatchCount(indexes[p], mapped) == m
    requires forall j | 0 <= j < p :: MatchCount(indexes[j], mapped) < m
    ensures FirstWithCount(indexes, mapped, m) == p
  {
  }

  lemma FirstSingleFieldAt(indexes: seq<Index>, p: nat)
    requires p <= |indexes| && (p < |indexes| ==> |indexes[p].fields| == 1)
    requires forall j | 0 <= j < p :: |indexes[j].fields| != 1
    ensures FirstSingleField(indexes) == p
  {
  }

  /** Nothing is selected exactly when no candidate shares a field with the query's keys (or there is none). */
  lemma SelectedNoneIff(indexes: seq<Index>, mapped: map<string, MappedKey>)
    ensures SelectedIndex(indexes, mapped).None? <==> forall i | 0 <= i < |indexes| :: MatchCount(indexes[i], mapped) == 0
  {
    MaxCountAttained(indexes, mapped);
  }

  /**
   * Outside the tie-break, the selection is the first candidate with the
   * strictly greatest overlap: every earlier candidate has less, none has more.
   */
  lemma SelectedIsFirstBest(indexes: seq<Index>, mapped: map<string, MappedKey>)
    requires SelectedIndex(indexes, mapped).Some?
    requires MaxCount(indexes, mapped) != 1 || FirstSingleField(indexes) == |indexes|
    ensures exists p | 0 <= p < |indexes| ::
              && SelectedIndex(indexes, mapped) == Some(indexes[p])
              && (forall j | 0 <= j < |indexes| :: MatchCount(indexes[j], mapped) <= MatchCount(indexes[p], mapped))
              && (forall j | 0 <= j < p :: MatchCount(indexes[j], mapped) < MatchCount(indexes[p], mapped))
  {
    MaxCountAttained(indexes, mapped);
  }

  /** With a best overlap of exactly one, the first single-field candidate wins when there is one. */
  lemma SelectedTieBreak(indexes: seq<Index>, mapped: map<string, MappedKey>)
    requires MaxCount(indexes, mapped) == 1
    requires exists j | 0 <= j < |indexes| :: |indexes[j].fields| == 1
    ensures exists p | 0 <= p < |indexes| ::
              && SelectedIndex(indexes, mapped) == Some(indexes[p])
              && |indexes[p].fields| == 1
              && (forall j | 0 <= j < p :: |indexes[j].fields| != 1)
  {
    var j :| 0 <= j < |indexes| && |indexes[j].fields| == 1;
    var p := FirstSingleField(indexes);
    assert p <= j;
  }

  /**
   * A key whose candidates all contain its own field always gets an index,
   * and the index chosen contains that field (so it overlaps at least once),
   * whichever branch of the selection applies.
   */
  lemma SelectionCoversOwnField(key: string, indexes: seq<Index>, mapped: map<string, MappedKey>)
    requires key in mapped && mapped[key].field.Some?
    requires indexes != []
    requires forall i | 0 <= i < |indexes| :: mapped[key].field.value in indexes[i].fields
    ensures SelectedIndex(indexes, mapped).Some?
    ensures mapped[key].field.value in SelectedIndex(indexes, mapped).value.fields
    ensures MatchCount(SelectedIndex(indexes, mapped).value, mapped) >= 1
  {
    assert key in Matching(indexes[0], mapped);
    assert MatchCount(indexes[0], mapped) >= 1;
    SelectedNoneIff(indexes, mapped);
    var sel := SelectedIndex(indexes, mapped).value;
    var m := MaxCount(indexes, mapped);
    if m == 1 && FirstSingleField(indexes) < |indexes| {
      assert sel == indexes[FirstSingleField(indexes)];
    } else {
      assert sel == indexes[FirstWithCount(indexes, mapped, m)];
    }
    assert key in Matching(sel, mapped);
  }
}
