/** What one whole call of `submit` does when nobody interferes. */
module UndisturbedSubmission {
  import opened Text
  import opened Domain
  import opened OperationsStore
  import opened Knowledge
  import opened FeedbackLoop
  import CandidateOrigin

  /** The two identifiers the call draws. */
  datatype Drawn = Drawn(feedbackHex: string, candidateHex: string)

  /** The user has a record under the key of this request. */
  ghost predicate Recorded(w: World, q: Request) {
    q.key != "" && exists f :: f in w.store.feedback && f.userId == q.userId && f.idempotencyKey == q.key
  }

  /** The call is refused, with this error, and changes nothing. */
  ghost predicate RefusedWith(w: World, q: Request, error: SubmitError) {
    var known := q.traceId in w.store.interactions;
    match error
    case InteractionNotFound => !known
    case NotOwner => known && w.store.interactions[q.traceId].userId != q.userId
    case InvalidRating =>
      known && w.store.interactions[q.traceId].userId == q.userId && q.rating !in {1, 2, 3, 4, 5}
  }

  /** The record and the candidate that the call stores. */
  ghost predicate IsRecordOf(p: Policy, q: Request, d: Drawn, f: Feedback) {
    && f.id == "FB-" + d.feedbackHex && CandidateOrigin.RecordedFrom(p, q, f)
    && (f.candidateId.Some? ==> f.candidateId.value == "KC-" + d.candidateHex)
  }

  ghost predicate IsCandidateOf(x: Interaction, f: Feedback, c: Candidate) {
    && f.candidateId == Some(c.id) && c.traceId == f.traceId
    && c.question == x.question && c.currentAnswer == x.answer && c.suggestedAnswer == f.suggestedAnswer
    && CandidateOrigin.IsDomainOf(x.intent, c.domain)
    && c.status == Pending && c.reviewedBy == None && c.riskFlags == []
    && c.reason == if f.comment != "" then f.comment else if f.rating == 1 then "user rating: 1" else "user rating: 2"
  }

  /** The world in which the call has stored its record, its candidate and its announcement. */
  ghost predicate IsStored(w: World, q: Request, v: World, f: Feedback, c: Option<Candidate>) {
    && v.docs == w.docs && v.store.interactions == w.store.interactions
    && v.store.feedback == w.store.feedback + [f]
    && v.store.candidates == (if c.Some? then w.store.candidates[c.value.id := c.value] else w.store.candidates)
    && v.store.audit == w.store.audit + [AuditEvent(FeedbackSubmitted, q.userId, f.id, q.traceId)]
  }

  ghost predicate IsOutcome(p: Policy, w: World, q: Request, d: Drawn, v: World, r: SubmitResult) {
    match r
    case Replayed(f, c) =>
      && Recorded(w, q) && v == w
      && f in w.store.feedback && f.userId == q.userId && f.idempotencyKey == q.key
      && c == if f.candidateId.Some? && f.candidateId.value != "" && f.candidateId.value in w.store.candidates
              then Some(w.store.candidates[f.candidateId.value]) else None
    case SubmitFailed(error) => !Recorded(w, q) && v == w && RefusedWith(w, q, error)
    case Stored(f, c) =>
      && !Recorded(w, q) && (forall error :: !RefusedWith(w, q, error))
      && IsRecordOf(p, q, d, f) && (c.Some? <==> f.rating <= 2)
      && q.traceId in w.store.interactions
      && (c.Some? ==> IsCandidateOf(w.store.interactions[q.traceId], f, c.value))
      && IsStored(w, q, v, f, c)
  }

  ghost predicate Leads(p: Policy, q: Request, d: Drawn, w: World, v: World, pc: SubmitPc) {
    SubmitLeads(p, q, d.feedbackHex, d.candidateHex, w, Find, v, pc)
  }

  lemma More(p: Policy, q: Request, d: Drawn, w: World, v: World, pc: SubmitPc, v': World, pc': SubmitPc)
    requires Leads(p, q, d, w, v, pc) && SubmitNext(p, v, q, pc, d.feedbackHex, d.candidateHex) == (v', pc')
    ensures Leads(p, q, d, w, v', pc')
  {
    SubmitOneMore(p, q, d.feedbackHex, d.candidateHex, w, Find, v, pc);
  }

  lemma Replays(p: Policy, q: Request, d: Drawn, w: World, f: Feedback) returns (c: Option<Candidate>)
    requires Lookup(w.store, q.userId, q.key) == Some(f)
    ensures Leads(p, q, d, w, w, SubmitDone(Replayed(f, c))) && IsOutcome(p, w, q, d, w, Replayed(f, c))
  {
    hide SubmitLeads, NewFeedback, NewCandidate;
    SubmitStart(p, q, d.feedbackHex, d.candidateHex, w, Find);
    More(p, q, d, w, w, Find, w, AfterReplay(f));
    c := None;
    if f.candidateId.Some? && f.candidateId.value != "" {
      c := CandidateOf(w.store, f.candidateId.value);
      More(p, q, d, w, w, FetchReplayed(f), w, SubmitDone(Replayed(f, c)));
    }
  }

  /** The first two steps of a call whose key is new. */
  lemma Looks(p: Policy, q: Request, d: Drawn, w: World)
    requires Lookup(w.store, q.userId, q.key).None?
    ensures !Recorded(w, q)
    ensures var pc := SubmitNext(p, w, q, LoadInteraction, d.feedbackHex, d.candidateHex).1; Leads(p, q, d, w, w, pc)
  {
    hide SubmitLeads, NewFeedback, NewCandidate;
    SubmitStart(p, q, d.feedbackHex, d.candidateHex, w, Find);
    More(p, q, d, w, w, Find, w, LoadInteraction);
    More(p, q, d, w, w, LoadInteraction, w,
        SubmitNext(p, w, q, LoadInteraction, d.feedbackHex, d.candidateHex).1);
  }

  lemma Refuses(p: Policy, q: Request, d: Drawn, w: World, error: SubmitError)
    requires Lookup(w.store, q.userId, q.key).None? && RefusedWith(w, q, error)
    ensures Leads(p, q, d, w, w, SubmitDone(SubmitFailed(error)))
    ensures IsOutcome(p, w, q, d, w, SubmitFailed(error))
  {
    Looks(p, q, d, w);
    hide Leads, NewFeedback, NewCandidate, Recorded, IsStored;
  }

  lemma NewRecord(p: Policy, q: Request, d: Drawn, x: Interaction)
    requires q.rating in {1, 2, 3, 4, 5}
    ensures var f, c := NewFeedback(p, q, d.feedbackHex, d.candidateHex), NewCandidate(p, q, x, d.candidateHex);
      IsRecordOf(p, q, d, f) && (f.candidateId.Some? <==> q.rating <= 2)
      && (q.rating <= 2 ==> IsCandidateOf(x, f, c))
  {
  }

  lemma Stores(p: Policy, q: Request, d: Drawn, w: World) returns (v: World, f: Feedback, c: Option<Candidate>)
    requires Lookup(w.store, q.userId, q.key).None? && forall error :: !RefusedWith(w, q, error)
    requires forall g :: g in w.store.feedback ==> g.id != "FB-" + d.feedbackHex
    ensures Leads(p, q, d, w, v, SubmitDone(Stored(f, c))) && IsOutcome(p, w, q, d, v, Stored(f, c))
  {
    assert !RefusedWith(w, q, InteractionNotFound) && !RefusedWith(w, q, NotOwner) && !RefusedWith(w, q, InvalidRating);
    Looks(p, q, d, w);
    var x := w.store.interactions[q.traceId];
    NewRecord(p, q, d, x);
    f := NewFeedback(p, q, d.feedbackHex, d.candidateHex);
    c := if q.rating <= 2 then Some(NewCandidate(p, q, x, d.candidateHex)) else None;
    assert Leads(p, q, d, w, w, Save(f, c));
    assert f.userId == q.userId && f.idempotencyKey == q.key && f.id == "FB-" + d.feedbackHex;
    hide SubmitLeads, NewFeedback, NewCandidate, Recorded, IsRecordOf, IsCandidateOf, RefusedWith;
    var u := w.(store := w.store.(feedback := w.store.feedback + [f]));
    if c.Some? {
      var t := u.(store := WithCandidate(u.store, c.value));
      More(p, q, d, w, w, Save(f, c), u, SaveCandidate(f, c.value));
      More(p, q, d, w, u, SaveCandidate(f, c.value), t, AuditSubmission(f, c));
      u := t;
    } else {
      More(p, q, d, w, w, Save(f, c), u, AuditSubmission(f, c));
    }
    v := u.(store := WithAudit(u.store, AuditEvent(FeedbackSubmitted, q.userId, f.id, q.traceId)));
    More(p, q, d, w, u, AuditSubmission(f, c), v, SubmitDone(Stored(f, c)));
  }

  lemma Reaches(p: Policy, q: Request, d: Drawn, w: World) returns (v: World, r: SubmitResult)
    requires forall g :: g in w.store.feedback ==> g.id != "FB-" + d.feedbackHex
    ensures Leads(p, q, d, w, v, SubmitDone(r)) && IsOutcome(p, w, q, d, v, r)
  {
    hide Leads, IsOutcome, RefusedWith;
    var existing := Lookup(w.store, q.userId, q.key);
    if existing.Some? {
      var c := Replays(p, q, d, w, existing.value);
      v, r := w, Replayed(existing.value, c);
    } else if error :| RefusedWith(w, q, error) {
      Refuses(p, q, d, w, error);
      v, r := w, SubmitFailed(error);
    } else {
      var f, c;
      v, f, c := Stores(p, q, d, w);
      r := Stored(f, c);
    }
  }

  lemma {:induction false} DoneStays(
      p: Policy, q: Request, d: Drawn, w: World, v: World, r: SubmitResult, n: nat, m: nat)
    requires SubmitSteps(p, w, q, Find, d.feedbackHex, d.candidateHex, n) == (v, SubmitDone(r)) && n <= m
    ensures SubmitSteps(p, w, q, Find, d.feedbackHex, d.candidateHex, m) == (v, SubmitDone(r))
    decreases m
  {
    if m > n { DoneStays(p, q, d, w, v, r, n, m - 1); }
  }

  /**
   * Whatever a call run by itself ends in is its outcome: the record stored under its key, or the refusal that
   * the interaction and the rating call for, or one new record, with a candidate if the rating is low, and one
   * announcement. The identifier it draws is new.
   */
  lemma SubmitEndsInOutcome(p: Policy, q: Request, d: Drawn, w: World, v: World, r: SubmitResult)
    requires SubmitLeads(p, q, d.feedbackHex, d.candidateHex, w, Find, v, SubmitDone(r))
    requires forall g :: g in w.store.feedback ==> g.id != "FB-" + d.feedbackHex
    ensures IsOutcome(p, w, q, d, v, r)
  {
    hide IsOutcome;
    var v', r' := Reaches(p, q, d, w);
    var n: nat :| SubmitSteps(p, w, q, Find, d.feedbackHex, d.candidateHex, n) == (v, SubmitDone(r));
    var m: nat :| SubmitSteps(p, w, q, Find, d.feedbackHex, d.candidateHex, m) == (v', SubmitDone(r'));
    var top := if n > m then n else m;
    DoneStays(p, q, d, w, v, r, n, top);
    DoneStays(p, q, d, w, v', r', m, top);
  }
}
