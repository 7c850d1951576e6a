/**
 * The lexicon sentiment score of the admin dashboard (`_sent_score`):
 * split on whitespace, strip surrounding punctuation, lowercase, then
 * (positive hits - negative hits) / max(1, token count).
 */
module Sentiment {
  import opened Common
  import opened Text

  const Positive: set<string> := {
    "good", "great", "excellent", "love", "liked", "awesome", "nice",
    "satisfied", "happy", "pleasant", "fantastic", "amazing", "best"
  }

  const Negative: set<string> := {
    "bad", "terrible", "awful", "hate", "dislike", "poor", "unsatisfied",
    "unhappy", "problem", "issue", "worst", "bug"
  }

  /** The characters stripped from both ends of every token. */
  const Punctuation: set<char> := {'.', ',', '!', '?', ';', ':', '(', ')', '[', ']', '"', '\''}

  predicate IsPunctuation(c: char) {
    c in Punctuation
  }

  /** No word is in both lexicons, so a token counts at most once. */
  lemma LexiconsDisjoint()
    ensures Positive * Negative == {}
  {
  }

  /** `w.strip(".,!?;:()[]\"'").lower()` */
  function Normalize(word: string): (t: string)
    ensures t == [] <==> forall k :: 0 <= k < |word| ==> IsPunctuation(word[k])
    ensures t != [] ==> !IsPunctuation(t[0]) && !IsPunctuation(t[|t| - 1])
    ensures forall i :: 0 <= i < |t| ==> !('A' <= t[i] <= 'Z')
  {
    var r := Trim(word, IsPunctuation);
    LowerKeepsPunctuationEnds(r);
    LowerNoCapitals(r);
    Lower(r)
  }

  /** Lowercasing changes no character into or out of punctuation, so the ends stay as they were. */
  lemma LowerKeepsPunctuationEnds(r: string)
    ensures r != [] ==> IsPunctuation(Lower(r)[0]) == IsPunctuation(r[0])
    ensures r != [] ==> IsPunctuation(Lower(r)[|r| - 1]) == IsPunctuation(r[|r| - 1])
  {
  }

  /** The normalized tokens of a text, one per whitespace-separated word. */
  function Tokens(text: string): (ts: seq<string>)
    ensures |ts| == |Words(text)|
    ensures forall i :: 0 <= i < |ts| ==> ts[i] == Normalize(Words(text)[i])
  {
    var ws := Words(text);
    seq(|ws|, i requires 0 <= i < |ws| => Normalize(ws[i]))
  }

  /** How many tokens are in the lexicon. */
  function Hits(tokens: seq<string>, lexicon: set<string>): (n: nat)
    ensures n <= |tokens|
  {
    if tokens == [] then 0 else (if tokens[0] in lexicon then 1 else 0) + Hits(tokens[1..], lexicon)
  }

  /** A token is a hit for at most one of two disjoint lexicons. */
  lemma {:induction false} DisjointHits(tokens: seq<string>, a: set<string>, b: set<string>)
    requires a * b == {}
    ensures Hits(tokens, a) + Hits(tokens, b) <= |tokens|
  {
    if tokens != [] {
      DisjointHits(tokens[1..], a, b);
      assert tokens[0] !in a * b;
    }
  }

  /** Every token is at most one hit, positive or negative. */
  lemma LexiconHits(tokens: seq<string>)
    ensures Hits(tokens, Positive) + Hits(tokens, Negative) <= |tokens|
  {
    LexiconsDisjoint();
    DisjointHits(tokens, Positive, Negative);
  }

  /** `(pos - neg) / max(1, n)` when at most `n` tokens were hits. */
  function Ratio(pos: nat, neg: nat, n: nat): (r: real)
    requires pos + neg <= n
    ensures -1.0 <= r <= 1.0
    ensures r > 0.0 <==> pos > neg
    ensures r < 0.0 <==> pos < neg
    ensures 0 < n == pos ==> r == 1.0
    ensures 0 < n == neg ==> r == -1.0
  {
    var d := (pos - neg) as real;
    var m := Max(1, n) as real;
    QuotientBounds(d, m, -1.0, 1.0);
    QuotientSign(d, m);
    if 0 < n == pos || 0 < n == neg then QuotientOfSelf(d, m); d / m else d / m
  }

  /**
   * `_sent_score`. `None` stands for a value that is not a string. The
   * score lies in [-1, 1], is 0 for a non-string or blank text, and its
   * sign is the sign of positive hits minus negative hits.
   */
  function Score(text: Option<string>): (r: real)
    ensures -1.0 <= r <= 1.0
    ensures text.None? || IsBlank(text.value) ==> r == 0.0
    ensures text.Some? && !IsBlank(text.value) ==>
              var ts := Tokens(text.value);
              && (r > 0.0 <==> Hits(ts, Positive) > Hits(ts, Negative))
              && (r < 0.0 <==> Hits(ts, Positive) < Hits(ts, Negative))
              && (0 < |ts| == Hits(ts, Positive) ==> r == 1.0)
              && (0 < |ts| == Hits(ts, Negative) ==> r == -1.0)
  {
    match text
    case None => 0.0
    case Some(s) =>
      if Strip(s) == [] then 0.0
      else
        var ts := Tokens(s);
        LexiconHits(ts);
        Ratio(Hits(ts, Positive), Hits(ts, Negative), |ts|)
  }

  lemma PunctuationCaseBlind()
    ensures CaseBlind(IsPunctuation)
  {
  }

  /** Normalizing already lowercases, so the case of a word is irrelevant. */
  lemma NormalizeIgnoresCase(word: string)
    ensures Normalize(Lower(word)) == Normalize(word)
  {
    PunctuationCaseBlind();
    TrimLower(word, IsPunctuation);
    LowerIdempotent(Trim(word, IsPunctuation));
  }

  lemma TokensIgnoreCase(text: string)
    ensures Tokens(Lower(text)) == Tokens(text)
  {
    WordsLower(text);
    var ws := Words(text);
    forall i | 0 <= i < |ws|
      ensures Tokens(Lower(text))[i] == Tokens(text)[i]
    {
      NormalizeIgnoresCase(ws[i]);
    }
  }

  /** Tokens are lowercased before lookup: the score of a text does not depend on its case. */
  lemma ScoreIgnoresCase(text: string)
    ensures Score(Some(Lower(text))) == Score(Some(text))
  {
    BlankLower(text);
    TokensIgnoreCase(text);
  }

  /**
   * A text that is one word scores 1 when the word is positive, -1 when it
   * is negative and 0 otherwise.
   */
  lemma SingleWordScore(word: string)
    requires word != []
    requires forall i :: 0 <= i < |word| ==> !IsSpace(word[i])
    ensures Normalize(word) in Positive ==> Score(Some(word)) == 1.0
    ensures Normalize(word) in Negative ==> Score(Some(word)) == -1.0
    ensures Normalize(word) !in Positive + Negative ==> Score(Some(word)) == 0.0
  {
    SingleWord(word);
    var t := Normalize(word);
    assert Tokens(word) == [t];
    assert !IsBlank(word) by { assert !IsSpace(word[0]); }
    var pos, neg := Hits([t], Positive), Hits([t], Negative);
    OneTokenHits(t, Positive);
    OneTokenHits(t, Negative);
    LexiconsDisjoint();
    if t in Positive {
      NotBoth(t, Positive, Negative);
      assert pos == 1 && neg == 0;
    } else if t in Negative {
      assert pos == 0 && neg == 1;
    }
  }

  /** A token in one of two disjoint lexicons is not in the other. */
  lemma NotBoth(t: string, a: set<string>, b: set<string>)
    requires a * b == {}
    requires t in a
    ensures t !in b
  {
    assert t !in a * b;
  }

  lemma OneTokenHits(t: string, lexicon: set<string>)
    ensures Hits([t], lexicon) == if t in lexicon then 1 else 0
  {
    assert [t][1..] == [];
  }
}
