/**
 * `FeedbackLoopService`: submitting feedback and reviewing knowledge candidates.
 *
 * Every awaited store or repository call is one atomic step, and the code between two awaits runs
 * with the step before it. `SubmitNext` and `ReviewNext` give each step as a function of the shared
 * world, so that any interleaving of any number of callers can be described with them. `Submit` and
 * `Review` are the whole methods, proved to compute what the steps compute when nobody interferes.
 */
module FeedbackLoop {
  import opened Text
  import opened Domain
  import opened OperationsStore
  import opened Knowledge

  /** Everything the callers share. */
  datatype World = World(store: Contents, docs: seq<Document>)

  // ---- submit ----

  datatype Request = Request(
    traceId: string, userId: string, rating: int, comment: string, suggestedAnswer: string, key: string)

  datatype SubmitError = InteractionNotFound | NotOwner | InvalidRating

  /** `Replayed` returns a record some other call stored, `Stored` the record of this call. */
  datatype SubmitResult =
    | Stored(feedback: Feedback, candidate: Option<Candidate>)
    | Replayed(feedback: Feedback, candidate: Option<Candidate>)
    | SubmitFailed(error: SubmitError)

  datatype SubmitPc =
    | Find
    | FetchReplayed(feedback: Feedback)
    | LoadInteraction
    | Save(feedback: Feedback, planned: Option<Candidate>)
    | SaveCandidate(feedback: Feedback, candidate: Candidate)
    | AuditSubmission(feedback: Feedback, created: Option<Candidate>)
    | SubmitDone(result: SubmitResult)

  function DomainOf(intent: Intent): string {
    match intent
    case AfterSales => "after_sales"
    case OrderQuery => "order"
    case _ => "product"
  }

  function NewFeedback(p: Policy, q: Request, feedbackHex: string, candidateHex: string): Feedback {
    Feedback("FB-" + feedbackHex, q.traceId, q.userId, q.rating, p.redact(q.comment),
             p.redact(q.suggestedAnswer), q.key,
             if q.rating <= 2 then Some("KC-" + candidateHex) else None)
  }

  function NewCandidate(p: Policy, q: Request, interaction: Interaction, candidateHex: string): Candidate {
    var reason := p.redact(q.comment);
    Candidate("KC-" + candidateHex, q.traceId, interaction.question, interaction.answer,
              p.redact(q.suggestedAnswer),
              if reason != "" then reason
              else "user rating: " + Decimal(if q.rating < 0 then 0 else q.rating),
              DomainOf(interaction.intent), Pending, None, [])
  }

  /** Where the call goes when `candidateId` has to be fetched for a record stored by another call. */
  function AfterReplay(f: Feedback): SubmitPc {
    if f.candidateId.Some? && f.candidateId.value != "" then FetchReplayed(f)
    else SubmitDone(Replayed(f, None))
  }

  /** One step of `submit`. The two random identifiers are consumed by the step that builds the record. */
  function SubmitNext(
      p: Policy, w: World, q: Request, pc: SubmitPc, feedbackHex: string, candidateHex: string): (World, SubmitPc)
  {
    match pc
    case Find =>
      var existing := Lookup(w.store, q.userId, q.key);
      (w, if existing.Some? then AfterReplay(existing.value) else LoadInteraction)
    case FetchReplayed(f) =>
      (w, SubmitDone(Replayed(f, if f.candidateId.Some? then CandidateOf(w.store, f.candidateId.value) else None)))
    case LoadInteraction =>
      var i := InteractionOf(w.store, q.traceId);
      (w,
       if i.None? then SubmitDone(SubmitFailed(InteractionNotFound))
       else if i.value.userId != q.userId then SubmitDone(SubmitFailed(NotOwner))
       else if q.rating < 1 || q.rating > 5 then SubmitDone(SubmitFailed(InvalidRating))
       else Save(NewFeedback(p, q, feedbackHex, candidateHex),
                 if q.rating <= 2 then Some(NewCandidate(p, q, i.value, candidateHex)) else None))
    case Save(f, c) =>
      var (store, saved) := Saved(w.store, f);
      (w.(store := store),
       if saved.id != f.id then AfterReplay(saved)
       else if c.Some? then SaveCandidate(saved, c.value)
       else AuditSubmission(saved, None))
    case SaveCandidate(f, c) =>
      (w.(store := WithCandidate(w.store, c)), AuditSubmission(f, Some(c)))
    case AuditSubmission(f, c) =>
      (w.(store := WithAudit(w.store, AuditEvent(FeedbackSubmitted, q.userId, f.id, q.traceId))),
       SubmitDone(Stored(f, c)))
    case SubmitDone(_) => (w, pc)
  }

  /** The first `n` steps of a submission that nobody interferes with. */
  function SubmitSteps(
      p: Policy, w: World, q: Request, pc: SubmitPc, feedbackHex: string, candidateHex: string, n: nat)
    : (World, SubmitPc)
  {
    if n == 0 then (w, pc)
    else
      var (w1, pc1) := SubmitSteps(p, w, q, pc, feedbackHex, candidateHex, n - 1);
      SubmitNext(p, w1, q, pc1, feedbackHex, candidateHex)
  }

  /** Left alone, the submission gets from one configuration to the other. */
  ghost predicate SubmitLeads(
      p: Policy, q: Request, feedbackHex: string, candidateHex: string, w: World, pc: SubmitPc, w': World,
      pc': SubmitPc)
  {
    exists n: nat :: SubmitSteps(p, w, q, pc, feedbackHex, candidateHex, n) == (w', pc')
  }

  lemma SubmitStart(p: Policy, q: Request, feedbackHex: string, candidateHex: string, w: World, pc: SubmitPc)
    ensures SubmitLeads(p, q, feedbackHex, candidateHex, w, pc, w, pc)
  {
    assert SubmitSteps(p, w, q, pc, feedbackHex, candidateHex, 0) == (w, pc);
  }

  lemma SubmitOneMore(
      p: Policy, q: Request, feedbackHex: string, candidateHex: string, w: World, pc: SubmitPc, w1: World,
      pc1: SubmitPc)
    requires SubmitLeads(p, q, feedbackHex, candidateHex, w, pc, w1, pc1)
    ensures var (w2, pc2) := SubmitNext(p, w1, q, pc1, feedbackHex, candidateHex);
      SubmitLeads(p, q, feedbackHex, candidateHex, w, pc, w2, pc2)
  {
    var n: nat :| SubmitSteps(p, w, q, pc, feedbackHex, candidateHex, n) == (w1, pc1);
    assert SubmitSteps(p, w, q, pc, feedbackHex, candidateHex, n + 1)
        == SubmitNext(p, w1, q, pc1, feedbackHex, candidateHex);
  }

  // ---- review ----

  datatype ReviewError =
    | CandidateNotFound | AlreadyReviewed | InvalidDocument | PolicyViolation | PublicationFailed
    | StateChanged | CandidateVanished

  datatype ReviewPc =
    | Claim
    | ClaimRetry
    | Explain
    | Load
    | ListExisting(candidate: Candidate)
    | WriteFlags(candidate: Candidate, document: Document)
    | Publish(candidate: Candidate, document: Document)
    | Refuse(candidate: Candidate)
    | AuditRefusal(candidate: Candidate)
    | GiveUp(candidate: Candidate)
    | AuditFailure(candidate: Candidate)
    | Finalize
    | Unexpected
    | Reload
    | AuditReview(candidate: Candidate)
    | ReviewDone(result: Result<Candidate, ReviewError>)

  datatype Review = Review(candidateId: string, approved: bool, reviewer: string)

  /** How the repository behaves during one step: it may fail, and a failing write may still have happened. */
  datatype Fault = Works | FailsBefore | FailsAfter

  function DocumentId(candidateId: string): string {
    "KB-FEEDBACK-" + candidateId[if |candidateId| < 3 then |candidateId| else 3..]
  }

  function Answer(c: Candidate): string {
    var suggested := Strip(c.suggestedAnswer, IsSpace);
    if suggested != "" then suggested else c.currentAnswer
  }

  function Draft(p: Policy, c: Candidate, reviewer: string): Document {
    Document(DocumentId(c.id), c.domain, "反馈改进：" + Prefix(c.question, 30), Answer(c), [c.question],
             "feedback-" + MapChars(c.id, p.lower), "客服反馈审核", "global", [], [], None, None, Verified,
             Some(reviewer), "", true)
  }

  /** One step of `review`. */
  function ReviewNext(p: Policy, w: World, r: Review, pc: ReviewPc, fault: Fault): (World, ReviewPc) {
    match pc
    case Claim =>
      var (store, ok) := CompareAndSet(w.store, r.candidateId, Pending, if r.approved then Publishing else Rejected,
          r.reviewer);
      (w.(store := store), if ok then Load else if r.approved then ClaimRetry else Explain)
    case ClaimRetry =>
      var (store, ok) := CompareAndSet(w.store, r.candidateId, PublishFailed, Publishing, r.reviewer);
      (w.(store := store), if ok then Load else Explain)
    case Explain =>
      (w, ReviewDone(Err(if CandidateOf(w.store, r.candidateId).None? then CandidateNotFound else AlreadyReviewed)))
    case Load =>
      var c := CandidateOf(w.store, r.candidateId);
      (w,
       if c.None? then ReviewDone(Err(CandidateVanished))
       else if !r.approved then AuditReview(c.value)
       else if |r.reviewer| > MAX_NAME then ReviewDone(Err(InvalidDocument))
       else ListExisting(c.value))
    case ListExisting(c) =>
      if p.listing && fault != Works then (w, GiveUp(c))
      else
        var draft := Draft(p, c, r.reviewer);
        var existing := if p.listing then Listed(w.docs, Some(c.domain)) else [];
        var scan := Scan(p, draft, existing);
        (w,
         if scan.Err? then Refuse(c)
         else if scan.value != [] then WriteFlags(c.(riskFlags := scan.value), Seal(p, draft))
         else Publish(c, Seal(p, draft)))
    case WriteFlags(c, d) => (w.(store := WithCandidate(w.store, c)), Publish(c, d))
    case Publish(c, d) =>
      (if fault == FailsBefore then w else w.(docs := Upserted(w.docs, d)),
       if fault == Works then Finalize else GiveUp(c))
    case Refuse(c) =>
      var (store, _) := CompareAndSet(w.store, r.candidateId, Publishing, Rejected, r.reviewer);
      (w.(store := store), AuditRefusal(c))
    case AuditRefusal(c) =>
      (w.(store := WithAudit(w.store, AuditEvent(PolicyRejected, r.reviewer, c.id, c.traceId))),
       ReviewDone(Err(PolicyViolation)))
    case GiveUp(c) =>
      var (store, _) := CompareAndSet(w.store, r.candidateId, Publishing, PublishFailed, r.reviewer);
      (w.(store := store), AuditFailure(c))
    case AuditFailure(c) =>
      (w.(store := WithAudit(w.store, AuditEvent(PublishFailedEvent, r.reviewer, c.id, c.traceId))),
       ReviewDone(Err(PublicationFailed)))
    case Finalize =>
      var (store, ok) := CompareAndSet(w.store, r.candidateId, Publishing, Published, r.reviewer);
      (w.(store := store), if ok then Reload else Unexpected)
    case Unexpected =>
      var (store, _) := CompareAndSet(w.store, r.candidateId, Publishing, PublishFailed, r.reviewer);
      (w.(store := store), ReviewDone(Err(StateChanged)))
    case Reload =>
      var c := CandidateOf(w.store, r.candidateId);
      (w, if c.None? then ReviewDone(Err(CandidateVanished)) else AuditReview(c.value))
    case AuditReview(c) =>
      (w.(store := WithAudit(w.store,
          AuditEvent(if r.approved then KnowledgePublished else KnowledgeRejected, r.reviewer, c.id, c.traceId))),
       ReviewDone(Ok(c)))
    case ReviewDone(_) => (w, pc)
  }

  /** How the repository behaves at each step of a review. */
  datatype Faults = Faults(listing: Fault, publishing: Fault)

  function FaultAt(f: Faults, pc: ReviewPc): Fault {
    if pc.Publish? then f.publishing else f.listing
  }

  /** The first `n` steps of a review that nobody interferes with. */
  function ReviewSteps(p: Policy, w: World, r: Review, pc: ReviewPc, f: Faults, n: nat): (World, ReviewPc) {
    if n == 0 then (w, pc)
    else
      var (w1, pc1) := ReviewSteps(p, w, r, pc, f, n - 1);
      ReviewNext(p, w1, r, pc1, FaultAt(f, pc1))
  }

  /** Left alone, the review gets from one configuration to the other. */
  ghost predicate ReviewLeads(p: Policy, r: Review, f: Faults, w: World, pc: ReviewPc, w': World, pc': ReviewPc) {
    exists n: nat :: ReviewSteps(p, w, r, pc, f, n) == (w', pc')
  }

  lemma ReviewStart(p: Policy, r: Review, f: Faults, w: World, pc: ReviewPc)
    ensures ReviewLeads(p, r, f, w, pc, w, pc)
  {
    assert ReviewSteps(p, w, r, pc, f, 0) == (w, pc);
  }

  lemma ReviewOneMore(p: Policy, r: Review, f: Faults, w: World, pc: ReviewPc, w1: World, pc1: ReviewPc)
    requires ReviewLeads(p, r, f, w, pc, w1, pc1)
    ensures var (w2, pc2) := ReviewNext(p, w1, r, pc1, FaultAt(f, pc1)); ReviewLeads(p, r, f, w, pc, w2, pc2)
  {
    var n: nat :| ReviewSteps(p, w, r, pc, f, n) == (w1, pc1);
    assert ReviewSteps(p, w, r, pc, f, n + 1) == ReviewNext(p, w1, r, pc1, FaultAt(f, pc1));
  }

  // ---- the methods ----

  class FeedbackLoopService {
    const store: InMemoryOperationsStore
    const knowledge: MockKnowledgeAdapter

    constructor (store: InMemoryOperationsStore, knowledge: MockKnowledgeAdapter)
      ensures this.store == store && this.knowledge == knowledge
    {
      this.store, this.knowledge := store, knowledge;
    }

    ghost function Value(): World
      reads store, knowledge
    {
      World(store.Value(), knowledge.documents)
    }

    method Submit(p: Policy, q: Request, feedbackHex: string, candidateHex: string) returns (r: SubmitResult)
      modifies store
      ensures SubmitLeads(p, q, feedbackHex, candidateHex, old(Value()), Find, Value(), SubmitDone(r))
    {
      hide SubmitLeads, NewFeedback, NewCandidate, Lookup, Saved, InteractionOf, CandidateOf;
      ghost var w0 := Value();
      SubmitStart(p, q, feedbackHex, candidateHex, w0, Find);
      SubmitOneMore(p, q, feedbackHex, candidateHex, w0, Find, w0, Find);
      var existing := store.GetFeedbackByIdempotency(q.userId, q.key);
      if existing.Some? {
        r := ReplayedResult(p, q, feedbackHex, candidateHex, w0, existing.value);
        return;
      }
      SubmitOneMore(p, q, feedbackHex, candidateHex, w0, Find, Value(), LoadInteraction);
      var interaction := store.GetInteraction(q.traceId);
      if interaction.None? { return SubmitFailed(InteractionNotFound); }
      if interaction.value.userId != q.userId { return SubmitFailed(NotOwner); }
      if q.rating < 1 || q.rating > 5 { return SubmitFailed(InvalidRating); }
      var feedback := NewFeedback(p, q, feedbackHex, candidateHex);
      var candidate := if q.rating <= 2 then Some(NewCandidate(p, q, interaction.value, candidateHex)) else None;
      SubmitOneMore(p, q, feedbackHex, candidateHex, w0, Find, Value(), Save(feedback, candidate));
      var saved := store.SaveFeedback(feedback);
      if saved.id != feedback.id {
        r := ReplayedResult(p, q, feedbackHex, candidateHex, w0, saved);
        return;
      }
      if q.rating <= 2 {
        SubmitOneMore(p, q, feedbackHex, candidateHex, w0, Find, Value(), SaveCandidate(saved, candidate.value));
        store.PutCandidate(candidate.value);
      }
      SubmitOneMore(p, q, feedbackHex, candidateHex, w0, Find, Value(), AuditSubmission(saved, candidate));
      store.RecordAudit(AuditEvent(FeedbackSubmitted, q.userId, saved.id, q.traceId));
      r := Stored(saved, candidate);
    }

    /** The result for a record stored by another call, with its candidate when there is one. */
    method ReplayedResult(
        p: Policy, q: Request, feedbackHex: string, candidateHex: string, ghost w0: World, f: Feedback)
      returns (r: SubmitResult)
      requires SubmitLeads(p, q, feedbackHex, candidateHex, w0, Find, Value(), AfterReplay(f))
      ensures SubmitLeads(p, q, feedbackHex, candidateHex, w0, Find, Value(), SubmitDone(r))
    {
      var candidate := None;
      if f.candidateId.Some? && f.candidateId.value != "" {
        SubmitOneMore(p, q, feedbackHex, candidateHex, w0, Find, Value(), FetchReplayed(f));
        candidate := store.GetCandidate(f.candidateId.value);
      }
      r := Replayed(f, candidate);
    }

    method Review(p: Policy, q: Review, f: Faults) returns (r: Result<Candidate, ReviewError>)
      modifies store, knowledge
      ensures ReviewLeads(p, q, f, old(Value()), Claim, Value(), ReviewDone(r))
    {
      hide ReviewLeads, Draft, Scan, Seal;
      ghost var w0 := Value();
      var refusal := ClaimCandidate(p, q, f);
      if refusal.Some? { return Err(refusal.value); }
      ReviewOneMore(p, q, f, w0, Claim, Value(), Load);
      var loaded := store.GetCandidate(q.candidateId);
      if loaded.None? { return Err(CandidateVanished); }
      var candidate := loaded.value;
      if q.approved {
        if |q.reviewer| > MAX_NAME { return Err(InvalidDocument); }
        var failure := PublishDocument(p, q, f, w0, candidate);
        if failure.Some? { return Err(failure.value); }
        var published := FinishPublication(p, q, f, w0);
        if published.Err? { return published; }
        candidate := published.value;
      }
      ReviewOneMore(p, q, f, w0, Claim, Value(), AuditReview(candidate));
      store.RecordAudit(AuditEvent(if q.approved then KnowledgePublished else KnowledgeRejected, q.reviewer,
          candidate.id, candidate.traceId));
      r := Ok(candidate);
    }

    /** Closes a publication and reads the final record back. */
    method FinishPublication(
        p: Policy, q: Review, f: Faults, ghost w0: World) returns (r: Result<Candidate, ReviewError>)
      requires ReviewLeads(p, q, f, w0, Claim, Value(), Finalize)
      modifies store
      ensures r.Ok? ==> ReviewLeads(p, q, f, w0, Claim, Value(), AuditReview(r.value))
      ensures r.Err? ==> ReviewLeads(p, q, f, w0, Claim, Value(), ReviewDone(r))
    {
      hide ReviewLeads, Draft, Scan, Seal;
      ReviewOneMore(p, q, f, w0, Claim, Value(), Finalize);
      var finalized := store.UpdateStatus(q.candidateId, Publishing, Published, q.reviewer);
      if !finalized {
        ReviewOneMore(p, q, f, w0, Claim, Value(), Unexpected);
        var _ := store.UpdateStatus(q.candidateId, Publishing, PublishFailed, q.reviewer);
        return Err(StateChanged);
      }
      ReviewOneMore(p, q, f, w0, Claim, Value(), Reload);
      var loaded := store.GetCandidate(q.candidateId);
      if loaded.None? { return Err(CandidateVanished); }
      r := Ok(loaded.value);
    }

    /** The two compare-and-set attempts that decide who reviews the candidate. */
    method ClaimCandidate(p: Policy, q: Review, f: Faults) returns (refusal: Option<ReviewError>)
      modifies store
      ensures refusal.None? ==> ReviewLeads(p, q, f, old(Value()), Claim, Value(), Load)
      ensures refusal.Some? ==> ReviewLeads(p, q, f, old(Value()), Claim, Value(), ReviewDone(Err(refusal.value)))
    {
      ghost var w0 := Value();
      ReviewStart(p, q, f, w0, Claim);
      ReviewOneMore(p, q, f, w0, Claim, w0, Claim);
      var updated := store.UpdateStatus(q.candidateId, Pending, if q.approved then Publishing else Rejected,
          q.reviewer);
      if !updated && q.approved {
        ReviewOneMore(p, q, f, w0, Claim, Value(), ClaimRetry);
        updated := store.UpdateStatus(q.candidateId, PublishFailed, Publishing, q.reviewer);
      }
      if !updated {
        ReviewOneMore(p, q, f, w0, Claim, Value(), Explain);
        var existing := store.GetCandidate(q.candidateId);
        return Some(if existing.None? then CandidateNotFound else AlreadyReviewed);
      }
      return None;
    }

    /** The guarded block of `review`, with its two exception handlers. */
    method PublishDocument(p: Policy, q: Review, f: Faults, ghost w0: World, loaded: Candidate)
      returns (failure: Option<ReviewError>)
      requires ReviewLeads(p, q, f, w0, Claim, Value(), ListExisting(loaded))
      modifies store, knowledge
      ensures failure.None? ==> ReviewLeads(p, q, f, w0, Claim, Value(), Finalize)
      ensures failure.Some? ==> ReviewLeads(p, q, f, w0, Claim, Value(), ReviewDone(Err(failure.value)))
    {
      hide ReviewLeads, Draft, Seal, Scan, HasWords, Forbids, Contradicts, WithLines, StrictlySorted, Listed, Upserted;
      var candidate := loaded;
      ReviewOneMore(p, q, f, w0, Claim, Value(), ListExisting(candidate));
      if p.listing && f.listing != Works {
        failure := AfterFailure(p, q, f, w0, candidate);
        return;
      }
      var existing := [];
      if p.listing {
        existing := knowledge.ListDocuments(Some(candidate.domain));
      }
      var document := Draft(p, candidate, q.reviewer);
      var risks := ScanKnowledgeDocument(p, document, existing);
      if risks.Err? {
        ReviewOneMore(p, q, f, w0, Claim, Value(), Refuse(candidate));
        var _ := store.UpdateStatus(q.candidateId, Publishing, Rejected, q.reviewer);
        ReviewOneMore(p, q, f, w0, Claim, Value(), AuditRefusal(candidate));
        store.RecordAudit(AuditEvent(PolicyRejected, q.reviewer, candidate.id, candidate.traceId));
        return Some(PolicyViolation);
      }
      document := Seal(p, document);
      if risks.value != [] {
        candidate := candidate.(riskFlags := risks.value);
        ReviewOneMore(p, q, f, w0, Claim, Value(), WriteFlags(candidate, document));
        store.PutCandidate(candidate);
      }
      ReviewOneMore(p, q, f, w0, Claim, Value(), Publish(candidate, document));
      if f.publishing != FailsBefore {
        knowledge.Upsert(document);
      }
      if f.publishing != Works {
        failure := AfterFailure(p, q, f, w0, candidate);
        return;
      }
      failure := None;
    }

    /** The handler of an unexpected exception. */
    method AfterFailure(p: Policy, q: Review, f: Faults, ghost w0: World, candidate: Candidate)
      returns (failure: Option<ReviewError>)
      requires ReviewLeads(p, q, f, w0, Claim, Value(), GiveUp(candidate))
      modifies store
      ensures failure == Some(PublicationFailed)
      ensures ReviewLeads(p, q, f, w0, Claim, Value(), ReviewDone(Err(PublicationFailed)))
    {
      ReviewOneMore(p, q, f, w0, Claim, Value(), GiveUp(candidate));
      var _ := store.UpdateStatus(q.candidateId, Publishing, PublishFailed, q.reviewer);
      ReviewOneMore(p, q, f, w0, Claim, Value(), AuditFailure(candidate));
      store.RecordAudit(AuditEvent(PublishFailedEvent, q.reviewer, candidate.id, candidate.traceId));
      failure := Some(PublicationFailed);
    }
  }
}
