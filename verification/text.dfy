/**
 * The slice of Python's `str` behaviour the feedback pipeline relies on:
 * `isspace`, `strip`, `strip(chars)`, `split()`, `splitlines()`, `join`,
 * `lower` (ASCII letters only), the `in` substring test and code-point ordering.
 */
module Text {

  /** Python's `str.isspace()`: the characters `strip()` and `split()` treat as whitespace. */
  predicate IsSpace(c: char) {
    || c == ' '
    || '\t' <= c <= '\r'
    || '\U{1C}' <= c <= '\U{1F}'
    || c == '\U{85}' || c == '\U{A0}' || c == '\U{1680}'
    || '\U{2000}' <= c <= '\U{200A}'
    || c == '\U{2028}' || c == '\U{2029}' || c == '\U{202F}' || c == '\U{205F}' || c == '\U{3000}'
  }

  /** The line boundaries of Python's `str.splitlines()`; `\r\n` is two of them in a row. */
  predicate IsLineBreak(c: char) {
    || '\n' <= c <= '\r'
    || '\U{1C}' <= c <= '\U{1E}'
    || c == '\U{85}' || c == '\U{2028}' || c == '\U{2029}'
  }

  /** Every character is whitespace: `s.strip() == ""` in Python. */
  predicate IsBlank(s: string) {
    forall i :: 0 <= i < |s| ==> IsSpace(s[i])
  }

  function TrimLeft(s: string, drop: char -> bool): (r: string)
    ensures |r| <= |s| && r == s[|s| - |r|..]
    ensures forall i :: 0 <= i < |s| - |r| ==> drop(s[i])
    ensures r != [] ==> !drop(r[0])
  {
    if s != [] && drop(s[0]) then TrimLeft(s[1..], drop) else s
  }

  function TrimRight(s: string, drop: char -> bool): (r: string)
    ensures |r| <= |s| && r == s[..|r|]
    ensures forall i :: |r| <= i < |s| ==> drop(s[i])
    ensures r != [] ==> !drop(r[|r| - 1])
  {
    if s != [] && drop(s[|s| - 1]) then TrimRight(s[..|s| - 1], drop) else s
  }

  /** `r` is the run of `s` starting at `i`, and everything outside it is dropped. */
  predicate TrimmedAt(s: string, r: string, i: int, drop: char -> bool) {
    && 0 <= i <= |s| - |r|
    && r == s[i..i + |r|]
    && (forall k :: 0 <= k < i ==> drop(s[k]))
    && (forall k :: i + |r| <= k < |s| ==> drop(s[k]))
  }

  /**
   * Python's `s.strip(chars)`: the longest run of `s` that neither starts
   * nor ends with a dropped character, obtained by removing dropped
   * characters from both ends only.
   */
  function Trim(s: string, drop: char -> bool): (r: string)
    ensures r != [] ==> !drop(r[0]) && !drop(r[|r| - 1])
    ensures r == [] <==> forall k :: 0 <= k < |s| ==> drop(s[k])
  {
    TrimRight(TrimLeft(s, drop), drop)
  }

  /** What `Trim` removes are dropped characters at the two ends, and nothing in between. */
  lemma TrimIsSlice(s: string, drop: char -> bool)
    ensures exists i :: TrimmedAt(s, Trim(s, drop), i, drop)
  {
    var left := TrimLeft(s, drop);
    var r := TrimRight(left, drop);
    var i := |s| - |left|;
    assert r == s[i..i + |r|];
    forall k | i + |r| <= k < |s|
      ensures drop(s[k])
    {
      assert s[k] == left[k - i];
    }
    assert Trim(s, drop) == r;
    assert TrimmedAt(s, r, i, drop);
  }

  /** Python's `s.strip()`. */
  function Strip(s: string): (r: string)
    ensures r == [] <==> IsBlank(s)
    ensures r != [] ==> !IsSpace(r[0]) && !IsSpace(r[|r| - 1])
    ensures |r| <= |s|
  {
    Trim(s, IsSpace)
  }

  /** A text that neither starts nor ends with whitespace is its own `strip()`. */
  lemma StripUnchanged(s: string)
    requires s != [] && !IsSpace(s[0]) && !IsSpace(s[|s| - 1])
    ensures Strip(s) == s
  {
    assert TrimLeft(s, IsSpace) == s;
    assert TrimRight(s, IsSpace) == s;
  }

  lemma StripIdempotent(s: string)
    ensures Strip(Strip(s)) == Strip(s)
  {
  }

  function LowerChar(c: char): char {
    if 'A' <= c <= 'Z' then (c as int + 32) as char else c
  }

  /** Python's `s.lower()` restricted to the ASCII letters. */
  function Lower(s: string): (r: string)
    ensures |r| == |s|
    ensures forall i :: 0 <= i < |s| ==> r[i] == LowerChar(s[i])
  {
    seq(|s|, i requires 0 <= i < |s| => LowerChar(s[i]))
  }

  /** A lowercased text has no ASCII capital left, and every other character is as it was. */
  lemma LowerNoCapitals(s: string)
    ensures forall i :: 0 <= i < |s| ==> !('A' <= Lower(s)[i] <= 'Z')
    ensures forall i :: 0 <= i < |s| && !('A' <= s[i] <= 'Z') ==> Lower(s)[i] == s[i]
  {
  }

  lemma LowerIdempotent(s: string)
    ensures Lower(Lower(s)) == Lower(s)
  {
  }

  lemma SpaceLower(c: char)
    ensures IsSpace(LowerChar(c)) == IsSpace(c)
  {
  }

  /** Whether a character is dropped does not depend on its case. */
  predicate CaseBlind(drop: char -> bool) {
    forall c :: drop(LowerChar(c)) == drop(c)
  }

  lemma SpaceCaseBlind()
    ensures CaseBlind(IsSpace)
  {
    forall c { SpaceLower(c); }
  }

  lemma {:induction false} TrimLeftLower(s: string, drop: char -> bool)
    requires CaseBlind(drop)
    ensures TrimLeft(Lower(s), drop) == Lower(TrimLeft(s, drop))
  {
    if s != [] {
      var l := Lower(s);
      assert l[0] == LowerChar(s[0]);
      assert l[1..] == Lower(s[1..]);
      TrimLeftLower(s[1..], drop);
      if drop(s[0]) {
        assert TrimLeft(l, drop) == TrimLeft(l[1..], drop);
      } else {
        assert TrimLeft(l, drop) == l;
      }
    }
  }

  lemma {:induction false} TrimRightLower(s: string, drop: char -> bool)
    requires CaseBlind(drop)
    ensures TrimRight(Lower(s), drop) == Lower(TrimRight(s, drop))
  {
    if s != [] {
      assert Lower(s)[|s| - 1] == LowerChar(s[|s| - 1]);
      assert Lower(s)[..|s| - 1] == Lower(s[..|s| - 1]);
      TrimRightLower(s[..|s| - 1], drop);
    }
  }

  /** Trimming case-blind characters commutes with lowercasing. */
  lemma TrimLower(s: string, drop: char -> bool)
    requires CaseBlind(drop)
    ensures Trim(Lower(s), drop) == Lower(Trim(s, drop))
  {
    TrimLeftLower(s, drop);
    TrimRightLower(TrimLeft(s, drop), drop);
  }

  /** Lowercasing never turns a character into whitespace or back, so it commutes with `strip()`. */
  lemma StripLower(s: string)
    ensures Strip(Lower(s)) == Lower(Strip(s))
  {
    SpaceCaseBlind();
    TrimLower(s, IsSpace);
  }

  lemma BlankLower(s: string)
    ensures IsBlank(Lower(s)) <==> IsBlank(s)
  {
    forall i | 0 <= i < |s| ensures IsSpace(Lower(s)[i]) == IsSpace(s[i]) {
      SpaceLower(s[i]);
    }
  }

  predicate OccursAt(hay: string, needle: string, i: int) {
    0 <= i <= |hay| - |needle| && hay[i..i + |needle|] == needle
  }

  /** Python's `needle in hay`: a literal substring test. */
  function Contains(hay: string, needle: string): (b: bool)
    ensures b <==> exists i :: OccursAt(hay, needle, i)
    decreases |hay|
  {
    if |needle| > |hay| then false
    else if hay[..|needle|] == needle then assert OccursAt(hay, needle, 0); true
    else
      ShiftOccurrence(hay, needle);
      Contains(hay[1..], needle)
  }

  lemma ShiftOccurrence(hay: string, needle: string)
    requires |needle| <= |hay| && hay != [] && hay[..|needle|] != needle
    ensures (exists i :: OccursAt(hay, needle, i)) <==> (exists j :: OccursAt(hay[1..], needle, j))
  {
    if i :| OccursAt(hay, needle, i) {
      assert i != 0;
      assert hay[1..][i - 1..i - 1 + |needle|] == hay[i..i + |needle|];
      assert OccursAt(hay[1..], needle, i - 1);
    }
    if j :| OccursAt(hay[1..], needle, j) {
      assert hay[1..][j..j + |needle|] == hay[j + 1..j + 1 + |needle|];
      assert OccursAt(hay, needle, j + 1);
    }
  }

  /** The characters of `s` that do not satisfy `isSep`, in order. */
  function Without(s: string, isSep: char -> bool): string {
    if s == [] then [] else (if isSep(s[0]) then [] else [s[0]]) + Without(s[1..], isSep)
  }

  function CountWhere(s: string, p: char -> bool): nat {
    if s == [] then 0 else (if p(s[0]) then 1 else 0) + CountWhere(s[1..], p)
  }

  function Concat(pieces: seq<string>): string {
    if pieces == [] then [] else pieces[0] + Concat(pieces[1..])
  }

  /** The separator characters of `s`, in order. */
  function Separators(s: string, isSep: char -> bool): (r: string)
    ensures |r| == CountWhere(s, isSep)
  {
    if s == [] then [] else (if isSep(s[0]) then [s[0]] else []) + Separators(s[1..], isSep)
  }

  /** `pieces[0] + seps[0] + pieces[1] + ... + pieces[n]`: the pieces put back around the separators. */
  function Interleave(pieces: seq<string>, seps: string): string
    requires |pieces| == |seps| + 1
  {
    if seps == [] then pieces[0] else pieces[0] + [seps[0]] + Interleave(pieces[1..], seps[1..])
  }

  /**
   * Cuts `s` at every separator character and keeps the (possibly empty)
   * pieces between them: one more piece than there are separators, no
   * separator inside any piece, and the pieces put back around the
   * separators give `s` again, so each piece is exactly the text between
   * two consecutive separators.
   */
  function SplitOn(s: string, isSep: char -> bool): (pieces: seq<string>)
    ensures |pieces| == 1 + CountWhere(s, isSep)
    ensures forall j, k :: 0 <= j < |pieces| && 0 <= k < |pieces[j]| ==> !isSep(pieces[j][k])
    ensures Interleave(pieces, Separators(s, isSep)) == s
    ensures Concat(pieces) == Without(s, isSep)
  {
    if s == [] then [[]]
    else
      var rest := SplitOn(s[1..], isSep);
      var seps := Separators(s[1..], isSep);
      if isSep(s[0]) then
        assert Concat([[]] + rest) == Concat(rest);
        assert Separators(s, isSep) == [s[0]] + seps;
        assert ([[]] + rest)[1..] == rest;
        assert s == [] + [s[0]] + s[1..];
        [[]] + rest
      else
        var head := [s[0]] + rest[0];
        assert Concat(rest) == rest[0] + Concat(rest[1..]);
        assert Concat([head] + rest[1..]) == head + Concat(rest[1..]);
        assert Separators(s, isSep) == seps;
        InterleaveHead(s[0], rest, seps);
        [head] + rest[1..]
  }

  /** Putting a character before the first piece puts it before the whole text. */
  lemma InterleaveHead(c: char, pieces: seq<string>, seps: string)
    requires |pieces| == |seps| + 1
    ensures Interleave([[c] + pieces[0]] + pieces[1..], seps) == [c] + Interleave(pieces, seps)
  {
    var ps := [[c] + pieces[0]] + pieces[1..];
    if seps != [] {
      assert ps[1..] == pieces[1..];
      assert Interleave(ps, seps) == ([c] + pieces[0]) + [seps[0]] + Interleave(pieces[1..], seps[1..]);
    }
  }

  function DropEmpty(pieces: seq<string>): (r: seq<string>)
    ensures forall j :: 0 <= j < |r| ==> r[j] != [] && r[j] in pieces
    ensures Concat(r) == Concat(pieces)
  {
    if pieces == [] then []
    else if pieces[0] == [] then DropEmpty(pieces[1..])
    else [pieces[0]] + DropEmpty(pieces[1..])
  }

  /** How many characters at the start of `t` are not whitespace. */
  function RunLength(t: string): (n: nat)
    ensures n <= |t|
    ensures forall i :: 0 <= i < n ==> !IsSpace(t[i])
    ensures n < |t| ==> IsSpace(t[n])
  {
    if t == [] || IsSpace(t[0]) then 0 else 1 + RunLength(t[1..])
  }

  /**
   * `split()` read directly: skip the leading whitespace, take the longest
   * run without whitespace as the next word, and carry on after it.
   */
  function Runs(s: string): seq<string>
    decreases |s|
  {
    var t := TrimLeft(s, IsSpace);
    if t == [] then []
    else
      var n := RunLength(t);
      [t[..n]] + Runs(t[n..])
  }

  /**
   * Python's `s.split()`: the maximal runs of non-whitespace characters,
   * in order. Each word is non-empty and free of whitespace, and together
   * they hold every other character of `s`.
   */
  function Words(s: string): (r: seq<string>)
    ensures r == Runs(s)
    ensures forall j :: 0 <= j < |r| ==> r[j] != []
    ensures forall j, k :: 0 <= j < |r| && 0 <= k < |r[j]| ==> !IsSpace(r[j][k])
    ensures Concat(r) == Without(s, IsSpace)
  {
    SplitWordsAreRuns(s);
    DropEmpty(SplitOn(s, IsSpace))
  }

  /** Dropping the empty pieces of the whitespace cut leaves the maximal runs. */
  lemma {:induction false} SplitWordsAreRuns(s: string)
    ensures DropEmpty(SplitOn(s, IsSpace)) == Runs(s)
    decreases |s|
  {
    if s == [] {
    } else if IsSpace(s[0]) {
      SplitOnCons(s, IsSpace);
      SplitWordsAreRuns(s[1..]);
      RunsSkipSpace(s);
      assert DropEmpty([[]] + SplitOn(s[1..], IsSpace)) == DropEmpty(SplitOn(s[1..], IsSpace));
    } else {
      var n := RunLength(s);
      assert TrimLeft(s, IsSpace) == s;
      if n == |s| {
        SplitOnNoSeparator(s, IsSpace);
        assert s[..n] == s && s[n..] == [];
      } else {
        SplitOnRun(s, n, IsSpace);
        SplitWordsAreRuns(s[n + 1..]);
        RunsSkipSpace(s[n..]);
        assert s[n..][1..] == s[n + 1..];
        var rest := SplitOn(s[n + 1..], IsSpace);
        assert DropEmpty([s[..n]] + rest) == [s[..n]] + DropEmpty(rest);
      }
    }
  }

  lemma RunsSkipSpace(s: string)
    requires s != [] && IsSpace(s[0])
    ensures Runs(s) == Runs(s[1..])
  {
    assert TrimLeft(s, IsSpace) == TrimLeft(s[1..], IsSpace);
  }

  /** The first word of `a` is still the first word once more text follows it after whitespace. */
  lemma {:induction false} RunLengthAppend(a: string, b: string)
    requires RunLength(a) < |a| || (b != [] && IsSpace(b[0]))
    ensures RunLength(a + b) == RunLength(a)
    decreases |a|
  {
    if a != [] && !IsSpace(a[0]) {
      assert (a + b)[1..] == a[1..] + b;
      RunLengthAppend(a[1..], b);
    }
  }

  /** A text that starts with a word yields that word, then the words after it. */
  lemma RunsWord(s: string)
    requires s != [] && !IsSpace(s[0])
    ensures 0 < RunLength(s)
    ensures Runs(s) == [s[..RunLength(s)]] + Runs(s[RunLength(s)..])
  {
    assert TrimLeft(s, IsSpace) == s;
  }

  /** A whitespace character between two texts separates their words. */
  lemma {:induction false} RunsAround(a: string, c: char, b: string)
    requires IsSpace(c)
    ensures Runs(a + [c] + b) == Runs(a) + Runs(b)
    decreases |a|
  {
    if a == [] {
      RunsAroundEmpty(c, b);
    } else if IsSpace(a[0]) {
      SliceAround(a, c, b, 1);
      RunsSkipSpace(a + [c] + b);
      RunsSkipSpace(a);
      RunsAround(a[1..], c, b);
    } else {
      var s, n := a + [c] + b, RunLength(a);
      SliceAround(a, c, b, n);
      RunLengthAppend(a, [c] + b);
      RunsWord(s);
      RunsWord(a);
      RunsAround(a[n..], c, b);
      AppendAssoc([a[..n]], Runs(a[n..]), Runs(b));
    }
  }

  lemma AppendAssoc<T>(x: seq<T>, y: seq<T>, z: seq<T>)
    ensures x + (y + z) == (x + y) + z
  {
  }

  lemma SliceAround(a: string, c: char, b: string, n: int)
    requires 0 <= n <= |a|
    ensures a + [c] + b == a + ([c] + b)
    ensures (a + [c] + b)[..n] == a[..n]
    ensures (a + [c] + b)[n..] == a[n..] + [c] + b
  {
  }

  lemma RunsAroundEmpty(c: char, b: string)
    requires IsSpace(c)
    ensures Runs([] + [c] + b) == Runs([]) + Runs(b)
  {
    assert [] + [c] + b == [c] + b;
    RunsAfterSpace(c, b);
    RunsOfEmpty();
  }

  lemma RunsAfterSpace(c: char, b: string)
    requires IsSpace(c)
    ensures Runs([c] + b) == Runs(b)
  {
    assert ([c] + b)[1..] == b;
    RunsSkipSpace([c] + b);
  }

  lemma RunsOfEmpty()
    ensures Runs([]) == []
  {
    assert TrimLeft([], IsSpace) == [];
  }

  lemma {:induction false} RunsAllSpace(s: string)
    requires forall i :: 0 <= i < |s| ==> IsSpace(s[i])
    ensures Runs(s) == []
    decreases |s|
  {
    if s != [] {
      RunsSkipSpace(s);
      RunsAllSpace(s[1..]);
    }
  }

  lemma RunsTrimLeft(s: string)
    ensures Runs(TrimLeft(s, IsSpace)) == Runs(s)
  {
    var t := TrimLeft(s, IsSpace);
    assert TrimLeft(t, IsSpace) == t;
  }

  /** Trailing whitespace carries no words. */
  lemma RunsTrimRight(t: string)
    ensures Runs(TrimRight(t, IsSpace)) == Runs(t)
  {
    var r := TrimRight(t, IsSpace);
    if |r| < |t| {
      var rest := t[|r| + 1..];
      assert t == r + [t[|r|]] + rest;
      RunsAllSpace(rest);
      RunsAround(r, t[|r|], rest);
      assert Runs(r) + [] == Runs(r);
    }
  }

  /** `strip()` before `split()` changes nothing: the ends carry no words. */
  lemma WordsStrip(s: string)
    ensures Words(Strip(s)) == Words(s)
  {
    RunsTrimLeft(s);
    RunsTrimRight(TrimLeft(s, IsSpace));
  }

  /** Joining two texts with a space joins their word lists. */
  lemma WordsJoin(a: string, b: string)
    ensures Words(a + " " + b) == Words(a) + Words(b)
  {
    RunsAround(a, ' ', b);
  }

  /** A text whose first separator sits at `n` is cut there first. */
  lemma {:induction false} SplitOnRun(s: string, n: int, isSep: char -> bool)
    requires 0 <= n < |s| && isSep(s[n])
    requires forall i :: 0 <= i < n ==> !isSep(s[i])
    ensures SplitOn(s, isSep) == [s[..n]] + SplitOn(s[n + 1..], isSep)
  {
    SplitOnCons(s, isSep);
    if n > 0 {
      SplitOnRun(s[1..], n - 1, isSep);
      assert s[1..][n..] == s[n + 1..];
      assert [s[0]] + s[1..][..n - 1] == s[..n];
      PrependToHead(s[0], s[1..][..n - 1], SplitOn(s[n + 1..], isSep), s[..n]);
    } else {
      assert s[1..] == s[n + 1..];
    }
  }

  /** Every piece lowercased. */
  function LowerAll(pieces: seq<string>): (r: seq<string>)
    ensures |r| == |pieces|
    ensures forall j :: 0 <= j < |pieces| ==> r[j] == Lower(pieces[j])
  {
    seq(|pieces|, j requires 0 <= j < |pieces| => Lower(pieces[j]))
  }

  /** Cutting a lowercased text at case-blind separators cuts it where the original is cut. */
  lemma {:induction false} SplitOnLower(s: string, isSep: char -> bool)
    requires CaseBlind(isSep)
    ensures SplitOn(Lower(s), isSep) == LowerAll(SplitOn(s, isSep))
  {
    if s != [] {
      SplitOnLower(s[1..], isSep);
      SplitOnLowerStep(s, isSep);
    }
  }

  /** One step of `SplitOnLower`: the first character of the text. */
  lemma SplitOnLowerStep(s: string, isSep: char -> bool)
    requires CaseBlind(isSep) && s != []
    requires SplitOn(Lower(s[1..]), isSep) == LowerAll(SplitOn(s[1..], isSep))
    ensures SplitOn(Lower(s), isSep) == LowerAll(SplitOn(s, isSep))
  {
    var l := Lower(s);
    LowerCons(s);
    if isSep(s[0]) {
      SplitOnLowerAtSeparator(s, l, isSep);
    } else {
      SplitOnLowerInPiece(s, l, isSep);
    }
  }

  lemma LowerCons(s: string)
    requires s != []
    ensures Lower(s)[0] == LowerChar(s[0]) && Lower(s)[1..] == Lower(s[1..])
  {
  }

  lemma SplitOnLowerAtSeparator(s: string, l: string, isSep: char -> bool)
    requires s != [] && l != [] && isSep(s[0]) && isSep(l[0])
    requires SplitOn(l[1..], isSep) == LowerAll(SplitOn(s[1..], isSep))
    ensures SplitOn(l, isSep) == LowerAll(SplitOn(s, isSep))
  {
    SplitOnCons(s, isSep);
    SplitOnCons(l, isSep);
    LowerAllEmptyHead(SplitOn(s[1..], isSep));
  }

  lemma SplitOnLowerInPiece(s: string, l: string, isSep: char -> bool)
    requires s != [] && l != [] && !isSep(s[0]) && !isSep(l[0]) && l[0] == LowerChar(s[0])
    requires SplitOn(l[1..], isSep) == LowerAll(SplitOn(s[1..], isSep))
    ensures SplitOn(l, isSep) == LowerAll(SplitOn(s, isSep))
  {
    SplitOnCons(s, isSep);
    SplitOnCons(l, isSep);
    LowerAllHead(s[0], SplitOn(s[1..], isSep));
  }

  lemma LowerAllEmptyHead(rest: seq<string>)
    ensures LowerAll([[]] + rest) == [[]] + LowerAll(rest)
  {
  }

  lemma LowerAllHead(c: char, rest: seq<string>)
    requires rest != []
    ensures LowerAll([[c] + rest[0]] + rest[1..]) == [[LowerChar(c)] + LowerAll(rest)[0]] + LowerAll(rest)[1..]
  {
    assert Lower([c] + rest[0]) == [LowerChar(c)] + Lower(rest[0]);
  }

  lemma PrependToHead<T>(c: T, w: seq<T>, rest: seq<seq<T>>, x: seq<T>)
    requires x == [c] + w
    ensures [[c] + ([w] + rest)[0]] + ([w] + rest)[1..] == [x] + rest
  {
    assert ([w] + rest)[1..] == rest;
  }

  /** `SplitOn` of a non-empty text, one character at a time. */
  lemma SplitOnCons(s: string, isSep: char -> bool)
    requires s != []
    ensures isSep(s[0]) ==> SplitOn(s, isSep) == [[]] + SplitOn(s[1..], isSep)
    ensures !isSep(s[0]) ==>
              SplitOn(s, isSep) == [[s[0]] + SplitOn(s[1..], isSep)[0]] + SplitOn(s[1..], isSep)[1..]
  {
  }

  lemma {:induction false} DropEmptyLower(pieces: seq<string>)
    ensures DropEmpty(LowerAll(pieces)) == LowerAll(DropEmpty(pieces))
  {
    if pieces != [] {
      assert LowerAll(pieces)[1..] == LowerAll(pieces[1..]);
      DropEmptyLower(pieces[1..]);
      if pieces[0] != [] {
        assert LowerAll([pieces[0]] + DropEmpty(pieces[1..]))
            == [Lower(pieces[0])] + LowerAll(DropEmpty(pieces[1..]));
      }
    }
  }

  /** The words of a lowercased text are the lowercased words. */
  lemma WordsLower(s: string)
    ensures Words(Lower(s)) == LowerAll(Words(s))
  {
    SpaceCaseBlind();
    SplitOnLower(s, IsSpace);
    DropEmptyLower(SplitOn(s, IsSpace));
  }

  /** A non-empty run without whitespace is a single word. */
  lemma {:induction false} SingleWord(w: string)
    requires w != []
    requires forall i :: 0 <= i < |w| ==> !IsSpace(w[i])
    ensures Words(w) == [w]
  {
    SplitOnNoSeparator(w, IsSpace);
  }

  lemma {:induction false} SplitOnNoSeparator(s: string, isSep: char -> bool)
    requires forall i :: 0 <= i < |s| ==> !isSep(s[i])
    ensures SplitOn(s, isSep) == [s]
  {
    if s != [] {
      SplitOnNoSeparator(s[1..], isSep);
      assert [s[0]] + s[1..] == s;
    }
  }

  /** Python's `sep.join(parts)`. */
  function Join(parts: seq<string>, sep: string): (r: string)
    ensures |parts| == 1 ==> r == parts[0]
    ensures |parts| >= 1 ==> parts[0] <= r
  {
    if parts == [] then []
    else if |parts| == 1 then parts[0]
    else parts[0] + sep + Join(parts[1..], sep)
  }

  /** Python's `a <= b` on strings: lexicographic by code point, a proper prefix first. */
  predicate LexLe(a: string, b: string) {
    a == [] || (b != [] && (a[0] < b[0] || (a[0] == b[0] && LexLe(a[1..], b[1..]))))
  }

  lemma {:induction false} LexLeTotal(a: string, b: string)
    ensures LexLe(a, b) || LexLe(b, a)
  {
    if a != [] && b != [] && a[0] == b[0] {
      LexLeTotal(a[1..], b[1..]);
    }
  }

  lemma {:induction false} LexLeTransitive(a: string, b: string, c: string)
    requires LexLe(a, b) && LexLe(b, c)
    ensures LexLe(a, c)
  {
    if a != [] && a[0] == b[0] && b[0] == c[0] {
      LexLeTransitive(a[1..], b[1..], c[1..]);
    }
  }
}
