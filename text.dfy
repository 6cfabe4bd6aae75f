/**
 * The little string handling the compiler does on option text: the blank
 * test on options, the trim-and-split of the extra-columns option, the
 * case-insensitive search for "left outer join", and the decimal number in
 * a nested compiler's alias prefix.
 */
module Text {

  /** The ASCII characters Java's Character.isWhitespace accepts. */
  predicate IsWhitespace(c: char) {
    c == ' ' || c == '\t' || c == '\n' || c == '\U{0B}' || c == '\U{0C}' || c == '\r'
    || c == '\U{1C}' || c == '\U{1D}' || c == '\U{1E}' || c == '\U{1F}'
  }

  /** ObjectUtils.isBlank on a string: no character other than whitespace. */
  predicate IsBlank(s: string) {
    forall i | 0 <= i < |s| :: IsWhitespace(s[i])
  }

  /** The characters String.trim removes from both ends (code point at most ' '). */
  predicate IsTrimmed(c: char) {
    c <= ' '
  }

  /** The characters the regular expression `\s` matches. */
  predicate IsRegexSpace(c: char) {
    c == ' ' || c == '\t' || c == '\n' || c == '\U{0B}' || c == '\U{0C}' || c == '\r'
  }

  /** Every character of `s[lo..hi]` is one String.trim removes. */
  predicate AllTrimmed(s: string, lo: int, hi: int) {
    forall k | lo <= k < hi && 0 <= k < |s| :: IsTrimmed(s[k])
  }

  /** The end of the run of characters String.trim removes that starts at `i`. */
  function LeadEnd(s: string, i: nat): (j: nat)
    requires i <= |s|
    ensures i <= j <= |s| && AllTrimmed(s, i, j)
    ensures j < |s| ==> !IsTrimmed(s[j])
    decreases |s| - i
  {
    if i < |s| && IsTrimmed(s[i]) then LeadEnd(s, i + 1) else i
  }

  /** The start of the run of characters String.trim removes that ends at `hi`, not going below `lo`. */
  function TrailStart(s: string, lo: nat, hi: nat): (j: nat)
    requires lo <= hi <= |s|
    ensures lo <= j <= hi && AllTrimmed(s, j, hi)
    ensures j > lo ==> !IsTrimmed(s[j - 1])
    decreases hi
  {
    if lo < hi && IsTrimmed(s[hi - 1]) then TrailStart(s, lo, hi - 1) else hi
  }

  /**
   * String.trim: what is left of `s` once the longest leading and the
   * longest trailing run of characters at most ' ' are removed.
   */
  function Trim(s: string): (t: string)
    ensures var a := LeadEnd(s, 0);
      && a + |t| <= |s| && t == s[a..a + |t|]
      && AllTrimmed(s, 0, a) && AllTrimmed(s, a + |t|, |s|)
    ensures t == [] || (!IsTrimmed(t[0]) && !IsTrimmed(t[|t| - 1]))
  {
    var a := LeadEnd(s, 0);
    var b := TrailStart(s, a, |s|);
    s[a..b]
  }

  /** No character of `s[lo..hi]` is a `\s`. */
  predicate NoSpace(s: string, lo: int, hi: int) {
    forall k | lo <= k < hi && 0 <= k < |s| :: !IsRegexSpace(s[k])
  }

  /** Every character of `s[lo..hi]` is a `\s`. */
  predicate AllSpace(s: string, lo: int, hi: int) {
    forall k | lo <= k < hi && 0 <= k < |s| :: IsRegexSpace(s[k])
  }

  /** Position of the first `\s` character at or after `i` (|s| if none). */
  function SpaceAt(s: string, i: nat): (j: nat)
    requires i <= |s|
    ensures i <= j <= |s|
    ensures j < |s| ==> IsRegexSpace(s[j])
    ensures NoSpace(s, i, j)
    decreases |s| - i
  {
    if i == |s| || IsRegexSpace(s[i]) then i else SpaceAt(s, i + 1)
  }

  /** Position of the first non-`\s` character at or after `i` (|s| if none). */
  function WordAt(s: string, i: nat): (j: nat)
    requires i <= |s|
    ensures i <= j <= |s|
    ensures j < |s| ==> !IsRegexSpace(s[j])
    ensures AllSpace(s, i, j)
    decreases |s| - i
  {
    if i == |s| || !IsRegexSpace(s[i]) then i else WordAt(s, i + 1)
  }

  /** The words of `s` from `i` on, where `s[i]` starts a word. */
  function Words(s: string, i: nat): seq<string>
    requires i <= |s|
    decreases |s| - i
  {
    if i == |s| then []
    else
      var j := SpaceAt(s, i);
      var k := WordAt(s, j);
      [s[i..j]] + Words(s, k)
  }

  /** `s` with every maximal run of `\s` characters replaced by one space. */
  function Squeeze(s: string): string
    decreases |s|
  {
    if s == [] then []
    else if !IsRegexSpace(s[0]) then [s[0]] + Squeeze(s[1..])
    else if |s| > 1 && IsRegexSpace(s[1]) then Squeeze(s[1..])
    else [' '] + Squeeze(s[1..])
  }

  /** The words joined with one space between neighbours. */
  function Unwords(ws: seq<string>): string
    decreases |ws|
  {
    if ws == [] then [] else if |ws| == 1 then ws[0] else ws[0] + [' '] + Unwords(ws[1..])
  }

  /** A word (no `\s`) at the front is kept as it is. */
  lemma {:induction false} SqueezeWord(s: string, i: nat, j: nat)
    requires i <= j <= |s| && NoSpace(s, i, j)
    ensures Squeeze(s[i..]) == s[i..j] + Squeeze(s[j..])
    decreases j - i
  {
    if i < j {
      SqueezeWord(s, i + 1, j);
      assert s[i..][1..] == s[i + 1..];
      assert s[i..j] == [s[i]] + s[i + 1..j];
    }
  }

  /** A run of `\s` at the front, followed by a word character, becomes one space. */
  lemma {:induction false} SqueezeSpaces(s: string, j: nat, k: nat)
    requires j < k < |s| && AllSpace(s, j, k) && !IsRegexSpace(s[k])
    ensures Squeeze(s[j..]) == [' '] + Squeeze(s[k..])
    decreases k - j
  {
    assert s[j..][1..] == s[j + 1..];
    if j + 1 < k {
      SqueezeSpaces(s, j + 1, k);
    }
  }

  /** Joining a first word to the rest. */
  lemma UnwordsCons(w: string, ws: seq<string>)
    requires ws != []
    ensures Unwords([w] + ws) == w + [' '] + Unwords(ws)
  {
    assert ([w] + ws)[1..] == ws;
  }

  /** After a run of `\s` that does not reach the end of the text, a word starts. */
  lemma NextWordInside(s: string, j: nat)
    requires j < |s| && !IsRegexSpace(s[|s| - 1])
    ensures WordAt(s, j) < |s|
  {
    var c := s[|s| - 1];
    assert AllSpace(s, j, |s|) ==> IsRegexSpace(c);
  }

  /** The words from `i` on: the word at `i`, then the words after the run of `\s` that ends it. */
  lemma WordsUnfold(s: string, i: nat)
    requires i < |s|
    ensures var j := SpaceAt(s, i);
      Words(s, i) == [s[i..j]] + Words(s, WordAt(s, j))
  {
  }

  /** The words from a word start, joined by single spaces, are the squeezed rest of the text. */
  lemma {:induction false} WordsSqueeze(s: string, i: nat)
    requires i < |s| && !IsRegexSpace(s[i]) && !IsRegexSpace(s[|s| - 1])
    ensures Unwords(Words(s, i)) == Squeeze(s[i..])
    decreases |s| - i
  {
    var j := SpaceAt(s, i);
    var k := WordAt(s, j);
    SqueezeWord(s, i, j);
    WordsUnfold(s, i);
    if j == |s| {
      assert Words(s, k) == [];
      assert s[j..] == [] && s[i..j] + [] == s[i..j];
    } else {
      NextWordInside(s, j);
      WordsSqueeze(s, k);
      SqueezeSpaces(s, j, k);
      WordsUnfold(s, k);
      JoinWord(s[i..j], Words(s, k), Squeeze(s[k..]), Squeeze(s[j..]));
    }
  }

  /** A word put in front of words that join to `rest`, a space between them. */
  lemma JoinWord(w: string, ws: seq<string>, rest: string, tail: string)
    requires ws != [] && Unwords(ws) == rest && tail == [' '] + rest
    ensures Unwords([w] + ws) == w + tail
  {
    UnwordsCons(w, ws);
    assert w + [' '] + rest == w + ([' '] + rest);
  }

  /**
   * String.split("\\s+") on trimmed text: the empty string gives one empty
   * token; otherwise the maximal runs of non-`\s` characters in order, which
   * joined by single spaces give the text with every run of `\s` squeezed
   * to one space (trimmed text neither starts nor ends with `\s`, so there
   * are no empty tokens to drop).
   */
  function SplitSpaces(s: string): (ws: seq<string>)
    ensures |ws| >= 1
    ensures s == [] ==> ws == [""]
    ensures s != [] && !IsRegexSpace(s[0]) && !IsRegexSpace(s[|s| - 1]) ==>
      && Unwords(ws) == Squeeze(s)
      && forall w | w in ws :: w != [] && forall c | c in w :: !IsRegexSpace(c)
  {
    if s == [] then [""] else
      var ws := Words(s, 0);
      assert ws[0] == s[0..SpaceAt(s, 0)];
      if !IsRegexSpace(s[0]) && !IsRegexSpace(s[|s| - 1]) then
        WordsSqueeze(s, 0);
        WordsAreWords(s, 0);
        assert s[0..] == s;
        ws
      else ws
  }

  /** Every word of trimmed, non-empty text is non-empty and holds no space. */
  lemma {:induction false} WordsAreWords(s: string, i: nat)
    requires i <= |s| && (i < |s| ==> !IsRegexSpace(s[i]))
    ensures forall w | w in Words(s, i) :: w != [] && forall c | c in w :: !IsRegexSpace(c)
    decreases |s| - i
  {
    if i < |s| {
      var j := SpaceAt(s, i);
      var k := WordAt(s, j);
      WordsAreWords(s, k);
      assert forall c | c in s[i..j] :: !IsRegexSpace(c) by {
        forall c | c in s[i..j] ensures !IsRegexSpace(c) {
          var m :| 0 <= m < j - i && s[i..j][m] == c;
          assert s[i + m] == c;
        }
      }
    }
  }

  function LowerAscii(c: char): char {
    if 'A' <= c <= 'Z' then (c as int + 32) as char else c
  }

  function LowerAll(s: string): (t: string)
    ensures |t| == |s|
    ensures forall i | 0 <= i < |s| :: t[i] == LowerAscii(s[i])
    decreases |s|
  {
    if s == [] then [] else [LowerAscii(s[0])] + LowerAll(s[1..])
  }

  const LeftOuterJoinText := "left outer join"

  /**
   * The text, lower-cased, contains "left outer join". Only ASCII letters
   * are lowered: no other character lower-cases to a letter of that phrase.
   */
  predicate MentionsLeftOuterJoin(s: string) {
    exists i | 0 <= i <= |s| - |LeftOuterJoinText| :: PhraseAt(s, i)
  }

  predicate PhraseAt(s: string, i: nat)
    requires i + |LeftOuterJoinText| <= |s|
  {
    LowerAll(s[i..i + |LeftOuterJoinText|]) == LeftOuterJoinText
  }

  /** The number a string of decimal digits stands for. */
  function DigitsValue(s: string): nat
    requires forall i | 0 <= i < |s| :: '0' <= s[i] <= '9'
    decreases |s|
  {
    if s == [] then 0 else DigitsValue(s[..|s| - 1]) * 10 + (s[|s| - 1] - '0') as nat
  }

  /**
   * Decimal digits of a natural number, as Java prints an int: they stand
   * for the number, and there is no leading zero except in "0" itself.
   */
  function NatToString(n: nat): (s: string)
    ensures |s| >= 1
    ensures forall i | 0 <= i < |s| :: '0' <= s[i] <= '9'
    ensures DigitsValue(s) == n
    ensures s[0] == '0' ==> s == "0"
    decreases n
  {
    var d := ['0' + (n % 10) as char];
    if n < 10 then d else
      var h := NatToString(n / 10);
      assert (h + d)[..|h + d| - 1] == h;
      h + d
  }

  /** Different numbers give different digits. */
  lemma NatToStringInjective(n: nat, m: nat)
    ensures NatToString(n) == NatToString(m) ==> n == m
  {
  }
}
