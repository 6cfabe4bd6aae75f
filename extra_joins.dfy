/**
 * The `${key}` substitution in the extra-joins option (the first block of
 * initializeClauses): each placeholder's key is resolved and mapped, gets
 * an index selected and a join found or created, that join is forced LEFT
 * OUTER, and the placeholder is replaced by the join's value column.
 */
module ExtraJoins {
  import opened Wrappers
  import opened DariQuery
  import opened Conditions
  import opened Joins
  import opened QueryState
  import opened Placeholders

  /** The fragments written so far and the state they leave. */
  datatype Expanded = Expanded(frags: seq<Fragment>, st: CompilerState)

  /** One piece of the option text: literal text is kept; a key becomes its join's value column. */
  function ExpandPiece(ctx: Ctx, st: CompilerState, piece: Piece): (r: Expanded)
    ensures |r.frags| == 1
    ensures Grows(st, r.st) && r.st.subQueries == st.subQueries && r.st.subSqlQueries == st.subSqlQueries
    ensures r.st.orderByFields == st.orderByFields
  {
    match piece
    case Lit(t) => Expanded([Text(t)], st)
    case Key(k) =>
      var st1 := AddKey(st, k, ctx.env.resolve(ctx.query, k));
      var p := FindOrCreateSpec(ctx.env, st1, k);
      Expanded([ValueRef(ValueColumn(ctx.prefix, p.index, k))], p.st.(joins := MakeOuter(p.st.joins, p.index)))
  }

  /** The loop over the first `n` pieces, left to right. */
  function ExpandPieces(ctx: Ctx, pieces: seq<Piece>, n: nat, st: CompilerState): (r: Expanded)
    requires n <= |pieces|
    ensures |r.frags| == n
    ensures Grows(st, r.st) && r.st.subQueries == st.subQueries && r.st.subSqlQueries == st.subSqlQueries
    ensures r.st.orderByFields == st.orderByFields
    decreases n
  {
    if n == 0 then Expanded([], st)
    else
      var prev := ExpandPieces(ctx, pieces, n - 1, st);
      var e := ExpandPiece(ctx, prev.st, pieces[n - 1]);
      GrowsTrans(st, prev.st, e.st);
      Expanded(prev.frags + e.frags, e.st)
  }

  /** The substituted option text, or None when the query has no extra joins. */
  function ExpandExtraJoins(ctx: Ctx, st: CompilerState): (r: (Option<seq<Fragment>>, CompilerState))
    ensures r.0.Some? <==> ctx.query.options.extraJoins.Some?
    ensures r.0.Some? ==> |r.0.value| == |Tokenize(ctx.query.options.extraJoins.value, 0)|
    ensures r.0.None? ==> r.1 == st
    ensures Grows(st, r.1) && r.1.subQueries == st.subQueries && r.1.subSqlQueries == st.subSqlQueries
    ensures r.1.orderByFields == st.orderByFields
  {
    match ctx.query.options.extraJoins
    case None => (None, st)
    case Some(text) =>
      var pieces := Tokenize(text, 0);
      var e := ExpandPieces(ctx, pieces, |pieces|, st);
      (Some(e.frags), e.st)
  }

  /** A fragment written back as option text: a value column goes back to its `${key}`. */
  function FragmentText(f: Fragment): string {
    match f
    case Text(t) => t
    case ValueRef(c) => "${" + c.key + "}"
  }

  function Unexpand(fs: seq<Fragment>): string
    decreases |fs|
  {
    if fs == [] then "" else FragmentText(fs[0]) + Unexpand(fs[1..])
  }

  /** The fragment written for a piece: the same text, or a value column for the same key whose join is LEFT OUTER. */
  predicate Mirrors(ctx: Ctx, st: CompilerState, piece: Piece, f: Fragment) {
    match piece
    case Lit(t) => f == Text(t)
    case Key(k) =>
      && f.ValueRef? && f.field.prefix == ctx.prefix && f.field.key == k
      && f.field.join < |st.joins|
      && st.joins[f.field.join].key == k
      && st.joins[f.field.join].kind == LeftOuterJoin
      && k in st.mappedKeys
  }

  lemma MirrorsKept(ctx: Ctx, a: CompilerState, b: CompilerState, piece: Piece, f: Fragment)
    requires Mirrors(ctx, a, piece, f) && Grows(a, b)
    ensures Mirrors(ctx, b, piece, f)
  {
  }

  /**
   * Piece by piece, the substitution keeps literal text as it is and replaces
   * each placeholder by the value column of a join for its key, a join that
   * is LEFT OUTER when the loop ends; each key ends up mapped.
   */
  lemma {:induction false} ExpandPiecesMirror(ctx: Ctx, pieces: seq<Piece>, n: nat, st: CompilerState)
    requires n <= |pieces|
    ensures var r := ExpandPieces(ctx, pieces, n, st);
      forall k | 0 <= k < n :: Mirrors(ctx, r.st, pieces[k], r.frags[k])
    decreases n
  {
    if n > 0 {
      ExpandPiecesMirror(ctx, pieces, n - 1, st);
      var prev := ExpandPieces(ctx, pieces, n - 1, st);
      var r := ExpandPieces(ctx, pieces, n, st);
      forall k | 0 <= k < n ensures Mirrors(ctx, r.st, pieces[k], r.frags[k]) {
        if k < n - 1 {
          assert r.frags[k] == prev.frags[k];
          MirrorsKept(ctx, prev.st, r.st, pieces[k], prev.frags[k]);
        }
      }
    }
  }

  lemma {:induction false} UnexpandMirrors(ctx: Ctx, st: CompilerState, pieces: seq<Piece>, fs: seq<Fragment>)
    requires |pieces| == |fs|
    requires forall k | 0 <= k < |fs| :: Mirrors(ctx, st, pieces[k], fs[k])
    ensures Unexpand(fs) == Render(pieces)
    decreases |fs|
  {
    if fs != [] {
      UnexpandMirrors(ctx, st, pieces[1..], fs[1..]);
      assert FragmentText(fs[0]) == PieceText(pieces[0]);
    }
  }

  /**
   * Text outside the placeholders is copied verbatim and in order: writing
   * each value column back as its `${key}` gives the option text back.
   */
  lemma ExpandRoundTrip(ctx: Ctx, st: CompilerState)
    requires ctx.query.options.extraJoins.Some?
    ensures ExpandExtraJoins(ctx, st).0.Some?
    ensures Unexpand(ExpandExtraJoins(ctx, st).0.value) == ctx.query.options.extraJoins.value
  {
    var text := ctx.query.options.extraJoins.value;
    var pieces := Tokenize(text, 0);
    var e := ExpandPieces(ctx, pieces, |pieces|, st);
    ExpandPiecesMirror(ctx, pieces, |pieces|, st);
    UnexpandMirrors(ctx, e.st, pieces, e.frags);
    TokenizeRoundTrip(text, 0);
    assert text[0..] == text;
  }

  /** Every placeholder's join is LEFT OUTER once the substitution is done. */
  lemma PlaceholderJoinsAreOuter(ctx: Ctx, st: CompilerState, k: nat)
    requires ctx.query.options.extraJoins.Some?
    requires var fs := ExpandExtraJoins(ctx, st).0.value; k < |fs| && fs[k].ValueRef?
    ensures var r := ExpandExtraJoins(ctx, st);
      var c := r.0.value[k].field;
      c.join < |r.1.joins| && r.1.joins[c.join].kind == LeftOuterJoin && r.1.joins[c.join].key == c.key
  {
    var text := ctx.query.options.extraJoins.value;
    var pieces := Tokenize(text, 0);
    ExpandPiecesMirror(ctx, pieces, |pieces|, st);
  }

  /** Option text without placeholders is one literal fragment and changes nothing. */
  lemma NoPlaceholderNoChange(ctx: Ctx, st: CompilerState)
    requires ctx.query.options.extraJoins.Some?
    requires var s := ctx.query.options.extraJoins.value; forall i | 0 <= i < |s| :: !MatchAt(s, i)
    ensures ExpandExtraJoins(ctx, st) == (Some([Text(ctx.query.options.extraJoins.value)]), st)
  {
    var text := ctx.query.options.extraJoins.value;
    NoPlaceholderUnchanged(text);
    var pieces := Tokenize(text, 0);
    assert ExpandPieces(ctx, pieces, 0, st) == Expanded([], st);
    assert ExpandPieces(ctx, pieces, 1, st) == Expanded([Text(text)], st);
  }
}
