/**
 * The enrichment client of ai_service.py: the deterministic rule-based
 * stub, the plain-text fallback parser for model replies that are not JSON,
 * and `generate_ai_feedback`, which never raises. What the live library
 * call did is an input (`LiveOutcome`); the call itself is not modelled.
 */
module Enrichment {
  import opened Common
  import opened Text

  /** The stub keeps at most this many characters of the trimmed review. */
  const SummaryBudget: nat := 400

  /** The separator between stub actions, as the characters stand in the source file (a mis-encoded bullet). */
  const ActionSeparator := " \U{E2}\U{20AC}\U{A2} "

  /** The separator between the reply lines the fallback parser keeps as actions. */
  const LineSeparator := " | "

  const StubMarker := "[stub]"
  const ErrorPrefix := "[fallback due to error] "

  /** The dictionary `generate_ai_feedback` returns. */
  datatype Feedback = Feedback(response: string, summary: string, actions: string)

  /** The rating tiers of the stub. */
  datatype Tier = Escalate | Gather | Thank

  function TierOf(rating: int): (t: Tier)
    ensures t == Escalate <==> rating <= 2
    ensures t == Gather <==> rating == 3
    ensures t == Thank <==> rating >= 4
  {
    if rating <= 2 then Escalate else if rating == 3 then Gather else Thank
  }

  function TierActions(t: Tier): seq<string> {
    match t
    case Escalate => ["Investigate issue", "Contact user for more details"]
    case Gather => ["Collect more examples", "Consider UX improvements"]
    case Thank => ["Thank the user", "Consider promoting positive feedback"]
  }

  /** `_stub_response`: a truncated copy of the trimmed review and the two actions of the rating's tier. */
  function StubResponse(review: string, rating: int): (f: Feedback)
    ensures f.response == StubMarker
    ensures var s := Strip(review); |f.summary| == Min(SummaryBudget, |s|) && f.summary == s[..|f.summary|]
    ensures rating <= 2 ==> f.actions == "Investigate issue" + ActionSeparator + "Contact user for more details"
    ensures rating == 3 ==> f.actions == "Collect more examples" + ActionSeparator + "Consider UX improvements"
    ensures rating >= 4 ==> f.actions == "Thank the user" + ActionSeparator + "Consider promoting positive feedback"
  {
    var s := Strip(review);
    Feedback(StubMarker, s[..Min(SummaryBudget, |s|)], Join(TierActions(TierOf(rating)), ActionSeparator))
  }

  /** A trimmed review within the budget is kept whole. */
  lemma StubKeepsShortReview(review: string, rating: int)
    requires |Strip(review)| <= SummaryBudget
    ensures StubResponse(review, rating).summary == Strip(review)
  {
  }

  /** The three tiers' action strings have different lengths, so they are pairwise different. */
  function ActionsLength(t: Tier): nat {
    match t
    case Escalate => 51
    case Gather => 50
    case Thank => 55
  }

  lemma StubActionsLength(review: string, rating: int)
    ensures |StubResponse(review, rating).actions| == ActionsLength(TierOf(rating))
  {
  }

  /** Two ratings get the same stub for a review exactly when they fall in the same tier. */
  lemma StubDependsOnlyOnTier(review: string, a: int, b: int)
    ensures StubResponse(review, a) == StubResponse(review, b) <==> TierOf(a) == TierOf(b)
  {
    StubActionsLength(review, a);
    StubActionsLength(review, b);
  }

  /**
   * The list comprehension `[f(p) for p in pieces if f(p)]`, for a cleaning
   * function `f` (here always `strip`).
   */
  function Kept(pieces: seq<string>, f: string -> string): (r: seq<string>)
    ensures |r| <= |pieces|
    ensures r == [] <==> NoneKept(pieces, f)
  {
    if pieces == [] then []
    else
      var rest := Kept(pieces[1..], f);
      if f(pieces[0]) == [] then rest else [f(pieces[0])] + rest
  }

  /** The positions from `i` on of the pieces that `f` does not empty, in ascending order. */
  function KeptIndices(pieces: seq<string>, f: string -> string, i: nat): (ix: seq<int>)
    requires i <= |pieces|
    ensures forall j :: 0 <= j < |ix| ==> i <= ix[j] < |pieces| && f(pieces[ix[j]]) != []
    ensures forall j, k :: 0 <= j < k < |ix| ==> ix[j] < ix[k]
    ensures forall m :: i <= m < |pieces| && f(pieces[m]) != [] ==> m in ix
    decreases |pieces| - i
  {
    if i == |pieces| then []
    else (if f(pieces[i]) != [] then [i] else []) + KeptIndices(pieces, f, i + 1)
  }

  /** `Kept` of the pieces from `i` on holds, in order, `f` of exactly the pieces at `KeptIndices`. */
  lemma {:induction false} KeptAt(pieces: seq<string>, f: string -> string, i: nat)
    requires i <= |pieces|
    ensures |Kept(pieces[i..], f)| == |KeptIndices(pieces, f, i)|
    ensures forall j :: 0 <= j < |Kept(pieces[i..], f)| ==>
              Kept(pieces[i..], f)[j] == f(pieces[KeptIndices(pieces, f, i)[j]])
    decreases |pieces| - i
  {
    if i < |pieces| {
      KeptAt(pieces, f, i + 1);
      var rest := Kept(pieces[i + 1..], f);
      var ix := KeptIndices(pieces, f, i + 1);
      assert pieces[i..][1..] == pieces[i + 1..];
      assert pieces[i..][0] == pieces[i];
      if f(pieces[i]) == [] {
        assert Kept(pieces[i..], f) == rest;
        assert KeptIndices(pieces, f, i) == ix;
      } else {
        assert Kept(pieces[i..], f) == [f(pieces[i])] + rest;
        assert KeptIndices(pieces, f, i) == [i] + ix;
      }
    }
  }

  /** `f` empties every piece. */
  predicate NoneKept(pieces: seq<string>, f: string -> string) {
    pieces == [] || (f(pieces[0]) == [] && NoneKept(pieces[1..], f))
  }

  /** The k-th piece is the first one that `f` does not empty. */
  predicate FirstKept(pieces: seq<string>, f: string -> string, k: int) {
    0 <= k < |pieces| && NoneKept(pieces[..k], f) && f(pieces[k]) != []
  }

  /** A non-empty text that neither starts nor ends with whitespace: what `strip()` leaves of a non-blank line. */
  predicate IsStrippedLine(s: string) {
    s != [] && !IsSpace(s[0]) && !IsSpace(s[|s| - 1])
  }

  /** Where the first kept piece sits; `Kept` puts it first. */
  function FirstKeptIndex(pieces: seq<string>, f: string -> string): (k: nat)
    requires !NoneKept(pieces, f)
    ensures FirstKept(pieces, f, k)
    ensures Kept(pieces, f)[0] == f(pieces[k])
  {
    if f(pieces[0]) != [] then
      assert pieces[..0] == [];
      0
    else
      var k := FirstKeptIndex(pieces[1..], f);
      NoneKeptPrefix(pieces, f, k + 1);
      assert pieces[k + 1] == pieces[1..][k];
      k + 1
  }

  lemma NoneKeptPrefix(pieces: seq<string>, f: string -> string, n: int)
    requires 1 <= n <= |pieces|
    ensures NoneKept(pieces[..n], f) <==> f(pieces[0]) == [] && NoneKept(pieces[1..][..n - 1], f)
  {
    assert pieces[..n][1..] == pieces[1..][..n - 1];
  }

  /** The reply cut at its line boundaries; the pieces `splitlines()` would drop or add are blank. */
  function ReplyLines(text: string): seq<string> {
    SplitOn(text, IsLineBreak)
  }

  /**
   * `[ln.strip() for ln in text.splitlines() if ln.strip()]`: in order, the
   * stripped lines that are not blank, and none when the reply is blank.
   */
  function NonBlankLines(text: string): (lines: seq<string>)
    ensures lines == [] <==> IsBlank(text)
    ensures var ix := KeptIndices(ReplyLines(text), Strip, 0);
            && |lines| == |ix|
            && forall j :: 0 <= j < |lines| ==> lines[j] == Strip(ReplyLines(text)[ix[j]])
  {
    BlankPiecesIffBlank(text, IsLineBreak);
    KeptAt(ReplyLines(text), Strip, 0);
    assert ReplyLines(text)[0..] == ReplyLines(text);
    Kept(ReplyLines(text), Strip)
  }

  lemma BlankAppend(a: string, b: string)
    ensures IsBlank(a + b) <==> IsBlank(a) && IsBlank(b)
  {
    assert forall i :: 0 <= i < |a| ==> (a + b)[i] == a[i];
    assert forall i :: 0 <= i < |b| ==> (a + b)[|a| + i] == b[i];
    if IsBlank(a) && IsBlank(b) {
      forall i | 0 <= i < |a + b| ensures IsSpace((a + b)[i]) {
        if i >= |a| {
          assert (a + b)[i] == b[i - |a|];
        }
      }
    }
  }

  lemma {:induction false} BlankConcat(pieces: seq<string>)
    ensures IsBlank(Concat(pieces)) <==> NoneKept(pieces, Strip)
  {
    if pieces != [] {
      BlankConcat(pieces[1..]);
      BlankAppend(pieces[0], Concat(pieces[1..]));
    }
  }

  lemma {:induction false} BlankWithout(s: string, isSep: char -> bool)
    requires forall c :: isSep(c) ==> IsSpace(c)
    ensures IsBlank(Without(s, isSep)) <==> IsBlank(s)
  {
    if s != [] {
      BlankWithout(s[1..], isSep);
      var head: string := if isSep(s[0]) then [] else [s[0]];
      BlankAppend(head, Without(s[1..], isSep));
      BlankAppend([s[0]], s[1..]);
      assert s == [s[0]] + s[1..];
      assert IsBlank([s[0]]) <==> IsSpace(s[0]);
      assert isSep(s[0]) ==> IsSpace(s[0]);
    }
  }

  lemma BlankPiecesIffBlank(text: string, isSep: char -> bool)
    requires forall c :: isSep(c) ==> IsSpace(c)
    ensures var pieces := SplitOn(text, isSep);
            NoneKept(pieces, Strip) <==> IsBlank(text)
  {
    BlankConcat(SplitOn(text, isSep));
    BlankWithout(text, isSep);
  }

  lemma JoinSecondAndThird(lines: seq<string>)
    requires |lines| > 1
    ensures var joined := Join(lines[1..Min(3, |lines|)], LineSeparator);
            && (|lines| == 2 ==> joined == lines[1])
            && (|lines| > 2 ==> joined == lines[1] + LineSeparator + lines[2])
  {
    var kept := lines[1..Min(3, |lines|)];
    if |lines| > 2 {
      assert kept == [lines[1], lines[2]] && kept[1..] == [lines[2]];
    }
  }

  /**
   * The plain-text reading of a model reply: the first non-blank line,
   * stripped, is the summary (the whole reply when there is none), and the
   * second and third non-blank lines, joined, are the actions.
   */
  function FallbackParse(text: string): (f: Feedback)
    ensures f.response == text
    ensures IsBlank(text) ==> f.summary == text && f.actions == []
    ensures !IsBlank(text) ==> exists k :: FirstKept(ReplyLines(text), Strip, k) && f.summary == Strip(ReplyLines(text)[k])
    ensures !IsBlank(text) ==> IsStrippedLine(f.summary)
    ensures var lines := NonBlankLines(text);
            && (|lines| < 2 ==> f.actions == [])
            && (|lines| == 2 ==> f.actions == lines[1])
            && (|lines| > 2 ==> f.actions == lines[1] + LineSeparator + lines[2])
  {
    Feedback(text, FallbackSummary(text), FallbackActions(NonBlankLines(text)))
  }

  /** What `strip()` leaves of a non-blank text neither starts nor ends with whitespace. */
  lemma StripLeavesStrippedLine(s: string)
    requires !IsBlank(s)
    ensures IsStrippedLine(Strip(s))
  {
  }

  /** The first non-blank line, stripped; the whole reply when every line is blank. */
  function FallbackSummary(text: string): (summary: string)
    ensures IsBlank(text) ==> summary == text
    ensures !IsBlank(text) ==> exists k :: FirstKept(ReplyLines(text), Strip, k) && summary == Strip(ReplyLines(text)[k])
    ensures !IsBlank(text) ==> IsStrippedLine(summary)
  {
    var lines := NonBlankLines(text);
    if lines == [] then text
    else
      var pieces := ReplyLines(text);
      BlankPiecesIffBlank(text, IsLineBreak);
      var k := FirstKeptIndex(pieces, Strip);
      StripLeavesStrippedLine(pieces[k]);
      lines[0]
  }

  /** The second and third kept lines joined by " | ", the second alone, or nothing. */
  function FallbackActions(lines: seq<string>): (actions: string)
    ensures |lines| < 2 ==> actions == []
    ensures |lines| == 2 ==> actions == lines[1]
    ensures |lines| > 2 ==> actions == lines[1] + LineSeparator + lines[2]
  {
    if |lines| > 1 then
      JoinSecondAndThird(lines);
      Join(lines[1..Min(3, |lines|)], LineSeparator)
    else []
  }

  /** What JSON parsing made of the reply text. */
  datatype JsonReading =
    | NotJson
    | JsonObject(summary: Option<string>, actions: Option<string>)
    | JsonOther

  /** How the attempt to reach the live model ended. */
  datatype LiveOutcome =
    | ModuleNotFound
    | Raised(message: string)
    | Replied(text: string, json: JsonReading)

  /**
   * The reply of the live path: a JSON object gives its "summary" and
   * "actions" keys ("" when absent), other JSON gives the text as summary,
   * and a reply that is not JSON goes to the plain-text parser.
   */
  function ParseReply(text: string, json: JsonReading): (f: Feedback)
    ensures f.response == text
    ensures json.NotJson? ==> f == FallbackParse(text)
    ensures json.JsonObject? ==> f.summary == json.summary.GetOr([]) && f.actions == json.actions.GetOr([])
    ensures json.JsonOther? ==> f.summary == text && f.actions == []
  {
    match json
    case NotJson => FallbackParse(text)
    case JsonObject(s, a) => Feedback(text, s.GetOr([]), a.GetOr([]))
    case JsonOther => Feedback(text, text, [])
  }

  /**
   * `generate_ai_feedback`: a blank review short-circuits to an all-empty
   * result; a missing library gives the stub; any other failure gives the
   * stub with the error attached; it never fails itself.
   */
  function GenerateAiFeedback(review: string, rating: int, live: LiveOutcome): (f: Feedback)
    ensures IsBlank(review) ==> f == Feedback([], [], [])
    ensures !IsBlank(review) && live.ModuleNotFound? ==> f == StubResponse(review, rating)
    ensures !IsBlank(review) && live.Raised? ==>
              && f.response == ErrorPrefix + live.message
              && f.summary == StubResponse(review, rating).summary
              && f.actions == StubResponse(review, rating).actions
    ensures !IsBlank(review) && live.Replied? ==> f == ParseReply(live.text, live.json) && f.response == live.text
  {
    var trimmed := Strip(review);
    if trimmed == [] then Feedback([], [], [])
    else
      StripIdempotent(review);
      match live
      case ModuleNotFound => StubResponse(trimmed, rating)
      case Raised(message) => StubResponse(trimmed, rating).(response := ErrorPrefix + message)
      case Replied(text, json) => ParseReply(text, json)
  }

  /** The message of the NameError raised where the source reads an undefined API-key name. */
  const UndefinedKeyMessage := "name 'GOOGLE_API_KEY' is not defined"

  /**
   * The live attempt as the source is written: once the library imports,
   * reading the undefined `GOOGLE_API_KEY` raises before any request is made,
   * whatever the model would have replied.
   */
  function LiveAttemptAsWritten(installed: bool, reply: LiveOutcome): LiveOutcome {
    if !installed then ModuleNotFound else Raised(UndefinedKeyMessage)
  }

  /** The live attempt as intended, reading the key that is defined: the model's reply is used. */
  function LiveAttemptIntended(installed: bool, reply: LiveOutcome): LiveOutcome {
    if !installed then ModuleNotFound else reply
  }

  /** As written, a non-blank review is never enriched from a reply: it always gets the stub. */
  lemma AsWrittenAlwaysStub(review: string, rating: int, installed: bool, reply: LiveOutcome)
    requires !IsBlank(review)
    ensures var f := GenerateAiFeedback(review, rating, LiveAttemptAsWritten(installed, reply));
            && f.summary == StubResponse(review, rating).summary
            && f.actions == StubResponse(review, rating).actions
            && (installed ==> f.response == ErrorPrefix + UndefinedKeyMessage)
  {
  }

  /** As intended, a plain-text reply to a non-blank review is what the result carries. */
  lemma IntendedUsesReply(review: string, rating: int, text: string)
    requires !IsBlank(review)
    ensures GenerateAiFeedback(review, rating, LiveAttemptIntended(true, Replied(text, NotJson))) == FallbackParse(text)
  {
  }
}
