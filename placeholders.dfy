/**
 * The `${key}` placeholders of the extra-joins option, found as the pattern
 * `\$\{([^}]+)\}` finds them: scanning left to right, a match starts at the
 * first "${" that is followed by at least one character other than '}' and
 * then a '}'; the next search starts after that '}'.
 */
module Placeholders {

  /** A piece of the option text: literal text, or a placeholder's key. */
  datatype Piece = Lit(text: string) | Key(name: string)

  /** The first position at or after `j` holding '}' (|s| if none). */
  function CloseAt(s: string, j: nat): (e: nat)
    requires j <= |s|
    ensures j <= e <= |s|
    ensures e < |s| ==> s[e] == '}'
    decreases |s| - j
  {
    if j == |s| then j
    else if s[j] == '}' then j
    else CloseAt(s, j + 1)
  }

  /** No '}' lies between `j` and the first one found. */
  lemma {:induction false} CloseAtIsFirst(s: string, j: nat)
    requires j <= |s|
    ensures forall k | j <= k < CloseAt(s, j) :: s[k] != '}'
    decreases |s| - j
  {
    if j < |s| && s[j] != '}' {
      CloseAtIsFirst(s, j + 1);
    }
  }

  /** A placeholder starts at position i. */
  predicate MatchAt(s: string, i: nat) {
    && i + 2 < |s|
    && s[i] == '$' && s[i + 1] == '{'
    && CloseAt(s, i + 2) < |s|
    && CloseAt(s, i + 2) > i + 2
  }

  /** The start of the first placeholder at or after `from` (|s| if none). */
  function NextMatch(s: string, from: nat): (i: nat)
    requires from <= |s|
    ensures from <= i <= |s|
    ensures i < |s| ==> MatchAt(s, i)
    decreases |s| - from
  {
    if from == |s| then from
    else if MatchAt(s, from) then from
    else NextMatch(s, from + 1)
  }

  /** No placeholder starts between `from` and the next match. */
  lemma {:induction false} NextMatchIsFirst(s: string, from: nat, k: nat)
    requires from <= |s| && from <= k < NextMatch(s, from)
    ensures !MatchAt(s, k)
    decreases |s| - from
  {
    if k > from {
      NextMatchIsFirst(s, from + 1, k);
    }
  }

  function PieceText(p: Piece): string {
    match p
    case Lit(t) => t
    case Key(k) => "${" + k + "}"
  }

  /** The option text from `from` on, cut into literal text and placeholder keys. */
  function Tokenize(s: string, from: nat): (ps: seq<Piece>)
    requires from <= |s|
    decreases |s| - from
  {
    var i := NextMatch(s, from);
    if i == |s| then [Lit(s[from..])]
    else
      var e := CloseAt(s, i + 2);
      [Lit(s[from..i]), Key(s[i + 2..e])] + Tokenize(s, e + 1)
  }

  /** Puts the pieces back together, each key inside "${" and "}". */
  function Render(ps: seq<Piece>): string
    decreases |ps|
  {
    if ps == [] then ""
    else PieceText(ps[0]) + Render(ps[1..])
  }

  lemma RenderPair(ps: seq<Piece>, a: Piece, b: Piece, rest: seq<Piece>, x: string, y: string, z: string)
    requires ps == [a, b] + rest
    requires PieceText(a) == x && PieceText(b) == y && Render(rest) == z
    ensures Render(ps) == x + y + z
  {
    assert ([a, b] + rest)[1..] == [b] + rest;
    assert ([b] + rest)[1..] == rest;
  }

  lemma MatchSplit(s: string, from: nat, i: nat)
    requires from <= i && MatchAt(s, i)
    ensures s[from..] == s[from..i] + PieceText(Key(s[i + 2..CloseAt(s, i + 2)])) + s[CloseAt(s, i + 2) + 1..]
  {
    var e := CloseAt(s, i + 2);
    MatchText(s, i, e);
    SliceThree(s, from, i, e + 1);
  }

  /** The matched text is "${", the key and "}". */
  lemma MatchText(s: string, i: nat, e: nat)
    requires MatchAt(s, i) && e == CloseAt(s, i + 2)
    ensures e < |s| && s[i..e + 1] == "${" + s[i + 2..e] + "}"
  {
    var t := "${" + s[i + 2..e] + "}";
    assert |t| == e + 1 - i;
    forall k | 0 <= k < |t|
      ensures s[i..e + 1][k] == t[k]
    {
      if k == 0 || k == 1 {
      } else if k < |t| - 1 {
        assert t[k] == s[i + 2..e][k - 2];
      } else {
        assert t[k] == '}';
      }
    }
  }

  lemma SliceThree(s: string, a: nat, b: nat, c: nat)
    requires a <= b <= c <= |s|
    ensures s[a..] == s[a..b] + s[b..c] + s[c..]
  {
    assert s[a..] == s[a..b] + s[b..];
    assert s[b..] == s[b..c] + s[c..];
  }

  /** One step of the cutting: the literal before the first match, its key, and the rest. */
  lemma TokenizeUnfold(s: string, from: nat, i: nat, e: nat)
    requires from <= |s| && i == NextMatch(s, from) && i < |s| && e == CloseAt(s, i + 2)
    ensures MatchAt(s, i) && e < |s|
    ensures Tokenize(s, from) == [Lit(s[from..i]), Key(s[i + 2..e])] + Tokenize(s, e + 1)
  {
  }


  /** With no match left, the rest of the text is one literal. */
  lemma TokenizeLast(s: string, from: nat)
    requires from <= |s| && NextMatch(s, from) == |s|
    ensures Tokenize(s, from) == [Lit(s[from..])]
  {
  }

  lemma AlternatingSingle(ps: seq<Piece>, t: string)
    requires ps == [Lit(t)]
    ensures Alternating(ps)
  {
  }

  /** Cutting loses nothing and reorders nothing: the pieces render back to the text. */
  lemma {:induction false} TokenizeRoundTrip(s: string, from: nat)
    requires from <= |s|
    ensures Render(Tokenize(s, from)) == s[from..]
    decreases |s| - from
  {
    if NextMatch(s, from) == |s| {
      RoundTripLast(s, from);
    } else {
      var next := RoundTripNext(s, from);
      TokenizeRoundTrip(s, next);
    }
  }

  lemma RoundTripLast(s: string, from: nat)
    requires from <= |s| && NextMatch(s, from) == |s|
    ensures Render(Tokenize(s, from)) == s[from..]
  {
    TokenizeLast(s, from);
    RenderSingle(Tokenize(s, from), s[from..]);
  }

  lemma RoundTripNext(s: string, from: nat) returns (next: nat)
    requires from <= |s| && NextMatch(s, from) < |s|
    ensures from < next <= |s|
    ensures Render(Tokenize(s, next)) == s[next..] ==> Render(Tokenize(s, from)) == s[from..]
  {
    var i := NextMatch(s, from);
    var e := CloseAt(s, i + 2);
    TokenizeUnfold(s, from, i, e);
    next := e + 1;
    if Render(Tokenize(s, next)) == s[next..] {
      RoundTripStep(s, from, i, e, Tokenize(s, from), Tokenize(s, next));
    }
  }

  lemma RenderSingle(ps: seq<Piece>, t: string)
    requires ps == [Lit(t)]
    ensures Render(ps) == t
  {
    assert ps[1..] == [];
  }

  /** A literal and a key in front of pieces that render to the rest of the text render to the whole text. */
  lemma RoundTripStep(s: string, from: nat, i: nat, e: nat, ps: seq<Piece>, rest: seq<Piece>)
    requires from <= i && MatchAt(s, i) && e == CloseAt(s, i + 2)
    requires ps == [Lit(s[from..i]), Key(s[i + 2..e])] + rest
    requires Render(rest) == s[e + 1..]
    ensures Render(ps) == s[from..]
  {
    var b := Key(s[i + 2..e]);
    MatchSplit(s, from, i);
    RenderPair(ps, Lit(s[from..i]), b, rest, s[from..i], PieceText(b), s[e + 1..]);
  }

  /** Text without any placeholder is a single literal piece, so it is copied unchanged. */
  lemma NoPlaceholderUnchanged(s: string)
    requires forall i | 0 <= i < |s| :: !MatchAt(s, i)
    ensures Tokenize(s, 0) == [Lit(s)]
  {
  }

  /** A key as the pattern captures it: at least one character, none of them '}'. */
  predicate WellFormedKey(name: string) {
    name != "" && '}' !in name
  }

  /** Literals at even positions and keys at odd ones, starting and ending with a literal. */
  predicate Alternating(ps: seq<Piece>) {
    && |ps| % 2 == 1
    && (forall j | 0 <= j < |ps| :: j % 2 == 0 <==> ps[j].Lit?)
    && (forall j | 0 <= j < |ps| && ps[j].Key? :: WellFormedKey(ps[j].name))
  }

  lemma AlternatingPair(ps: seq<Piece>, a: Piece, b: Piece, rest: seq<Piece>)
    requires ps == [a, b] + rest && a.Lit? && b.Key? && WellFormedKey(b.name)
    requires Alternating(rest)
    ensures Alternating(ps)
  {
    forall j | 2 <= j < |ps| ensures ps[j] == rest[j - 2] { }
  }

  lemma KeyBetween(s: string, i: nat)
    requires MatchAt(s, i)
    ensures WellFormedKey(s[i + 2..CloseAt(s, i + 2)])
  {
    CloseAtIsFirst(s, i + 2);
    var k := s[i + 2..CloseAt(s, i + 2)];
    assert forall c | 0 <= c < |k| :: k[c] == s[i + 2 + c];
  }

  /** Every key found is well formed, and keys and literals alternate. */
  lemma {:induction false} TokenizeShape(s: string, from: nat)
    requires from <= |s|
    ensures Alternating(Tokenize(s, from))
    decreases |s| - from
  {
    if NextMatch(s, from) == |s| {
      TokenizeLast(s, from);
      AlternatingSingle(Tokenize(s, from), s[from..]);
    } else {
      var next := ShapeNext(s, from);
      TokenizeShape(s, next);
    }
  }

  lemma ShapeNext(s: string, from: nat) returns (next: nat)
    requires from <= |s| && NextMatch(s, from) < |s|
    ensures from < next <= |s|
    ensures Alternating(Tokenize(s, next)) ==> Alternating(Tokenize(s, from))
  {
    var i := NextMatch(s, from);
    var e := CloseAt(s, i + 2);
    TokenizeUnfold(s, from, i, e);
    KeyBetween(s, i);
    next := e + 1;
    if Alternating(Tokenize(s, next)) {
      AlternatingPair(Tokenize(s, from), Lit(s[from..i]), Key(s[i + 2..e]), Tokenize(s, next));
    }
  }
}
