/**
 * `handle_submit` of app.py: validate the trimmed review, enrich it,
 * store the record, and update what the form shows next. The form's
 * session state is an explicit value; the clock, the enrichment call and
 * the database write are inputs.
 */
module Submission {
  import opened Common
  import opened Text
  import opened Enrichment
  import opened FeedbackStore

  /** The longest trimmed review the form accepts. */
  const MaxChars: nat := 600

  const EmptyReviewMessage := "Please write a short review before submitting."
  const TooLongMessage := "Please shorten your review to under 600 characters."
  const AiFailedPrefix := "AI service failed: "
  const SaveFailedPrefix := "Failed to save feedback: "

  datatype Rejection = EmptyReview | ReviewTooLong {
    function Message(): string {
      match this
      case EmptyReview => EmptyReviewMessage
      case ReviewTooLong => TooLongMessage
    }
  }

  /**
   * The checks on the review, first failure wins: blank, then longer than
   * `MaxChars` once trimmed. An accepted review is returned trimmed.
   */
  function Validate(review: string): (r: Result<string, Rejection>)
    ensures r == Failure(EmptyReview) <==> IsBlank(review)
    ensures r == Failure(ReviewTooLong) <==> !IsBlank(review) && |Strip(review)| > MaxChars
    ensures r.Success? ==> r.value == Strip(review) && 0 < |r.value| <= MaxChars
  {
    var text := Strip(review);
    if text == [] then Failure(EmptyReview)
    else if |text| > MaxChars then Failure(ReviewTooLong)
    else Success(text)
  }

  /** The session-state keys the callback reads and writes. */
  datatype Session = Session(
    review: string,
    rating: int,
    submitError: string,
    aiSummary: string,
    aiActions: string,
    lastSubmitted: Option<string>)

  /** What the call to `generate_ai_feedback` did. */
  datatype EnrichCall = Returned(feedback: Feedback) | Threw(message: string)

  /** The session afterwards, the table afterwards, and the error banner shown, if any. */
  datatype Outcome = Outcome(session: Session, store: Store, shown: Option<string>)

  /** The record assembled from an accepted review; a failed enrichment leaves summary and actions empty. */
  function Assemble(review: string, rating: int, enrich: EnrichCall, now: string): (rec: Submitted)
    ensures rec.review == review && rec.rating == rating && rec.timestamp == now
    ensures enrich.Threw? ==> rec.summary == [] && rec.actions == []
    ensures enrich.Returned? ==> rec.summary == enrich.feedback.summary && rec.actions == enrich.feedback.actions
  {
    match enrich
    case Returned(f) => Submitted(rating, review, f.summary, f.actions, now)
    case Threw(_) => Submitted(rating, review, [], [], now)
  }

  /** The error left in the session once validation passed: the enrichment failure, or none. */
  function ErrorAfterValidation(enrich: EnrichCall): string {
    match enrich
    case Returned(_) => []
    case Threw(m) => AiFailedPrefix + m
  }

  /**
   * `handle_submit`. A rejected review changes only the error message. An
   * accepted one is stored even when enrichment failed; if the write fails
   * the handler stops before touching the shown summary, the shown actions
   * and the review field.
   */
  function HandleSubmit(session: Session, store: Store, enrich: EnrichCall, now: string, write: WriteResult): (o: Outcome)
    ensures IsBlank(session.review) ==>
              o == Outcome(session.(submitError := EmptyReviewMessage), store, None)
    ensures !IsBlank(session.review) && |Strip(session.review)| > MaxChars ==>
              o == Outcome(session.(submitError := TooLongMessage), store, None)
    ensures Validate(session.review).Success? ==>
              var rec := Assemble(Strip(session.review), session.rating, enrich, now);
              match Insert(store, rec, write)
              case Failure(e) =>
                && o.store == store
                && o.shown == Some(SaveFailedPrefix + e.Message())
                && o.session == session.(submitError := ErrorAfterValidation(enrich))
              case Success(stored) =>
                && o.store == stored
                && o.shown == None
                && o.session == Session([], session.rating, ErrorAfterValidation(enrich),
                                        rec.summary, rec.actions, Some(now))
    ensures Valid(store) ==> Valid(o.store)
    ensures o.store == store || (|o.store.rows| == |store.rows| + 1 && o.store.rows[..|store.rows|] == store.rows)
  {
    match Validate(session.review)
    case Failure(rejection) => Outcome(session.(submitError := rejection.Message()), store, None)
    case Success(text) =>
      var rec := Assemble(text, session.rating, enrich, now);
      var err := ErrorAfterValidation(enrich);
      match Insert(store, rec, write)
      case Failure(e) => Outcome(session.(submitError := err), store, Some(SaveFailedPrefix + e.Message()))
      case Success(stored) =>
        Outcome(Session([], session.rating, err, rec.summary, rec.actions, Some(now)), stored, None)
  }

  /** A stored submission keeps the trimmed review and the rating as submitted, and gets the next id. */
  lemma StoredSubmission(session: Session, store: Store, enrich: EnrichCall, now: string)
    requires Valid(store) && store.lastId < MaxRowId
    requires Validate(session.review).Success?
    ensures var o := HandleSubmit(session, store, enrich, now, Written);
            && |o.store.rows| == |store.rows| + 1
            && var row := o.store.rows[|store.rows|];
               && row.review == Strip(session.review)
               && row.rating == session.rating
               && row.id == store.lastId + 1
               && (forall i :: 0 <= i < |store.rows| ==> store.rows[i].id < row.id)
               && (enrich.Returned? ==> row.summary == enrich.feedback.summary && row.actions == enrich.feedback.actions)
               && (enrich.Threw? ==> row.summary == [] && row.actions == [] && o.session.submitError == AiFailedPrefix + enrich.message)
  {
  }

  const CheckoutReview := "Checkout crashed on payment"

  lemma CheckoutEnrichment(review: string)
    requires review == CheckoutReview
    ensures Strip(review) == review
    ensures var f := GenerateAiFeedback(review, 1, ModuleNotFound);
            f.summary == review && f.actions == "Investigate issue" + ActionSeparator + "Contact user for more details"
  {
    StripUnchanged(review);
    StubKeepsShortReview(review, 1);
  }

  /**
   * A one-star "Checkout crashed on payment" with the enrichment library
   * missing is stored with the whole review as summary, the escalation
   * actions, and the next id.
   */
  lemma CheckoutCrashScenario(session: Session, store: Store, enrich: EnrichCall, now: string)
    requires Valid(store) && store.lastId < MaxRowId
    requires session.review == CheckoutReview && session.rating == 1
    requires enrich == Returned(GenerateAiFeedback(Strip(session.review), 1, ModuleNotFound))
    ensures var o := HandleSubmit(session, store, enrich, now, Written);
            && |o.store.rows| == |store.rows| + 1
            && o.store.rows[|store.rows|].summary == CheckoutReview
            && o.store.rows[|store.rows|].actions == "Investigate issue" + ActionSeparator + "Contact user for more details"
            && o.store.rows[|store.rows|].id == store.lastId + 1
  {
    CheckoutEnrichment(session.review);
    StoredSubmission(session, store, enrich, now);
  }
}
