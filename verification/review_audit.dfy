/** What the audit log says about reviews, over every run of the feedback loop. */
module ReviewAudit {
  import opened Text
  import opened Domain
  import opened OperationsStore
  import opened Knowledge
  import opened FeedbackLoop
  import opened LoopSystem
  import opened Publication
  import opened LoopTheorems
  import Submission

  /** The reviewer has given its candidate a final status. */
  predicate Settled(r: Reviewer) {
    match r.pc
    case Load => !r.review.approved
    case Reload => true
    case AuditReview(_) => true
    case AuditRefusal(_) => true
    case ReviewDone(Ok(_)) => true
    case ReviewDone(Err(e)) => e == PolicyViolation
    case _ => false
  }

  predicate Settles(s: System, i: nat, id: string) {
    i in s.reviewers && s.reviewers[i].review.candidateId == id && Settled(s.reviewers[i])
  }

  /** The reviewer has settled its candidate and has completed. */
  predicate Logged(s: System, i: nat, id: string) {
    Settles(s, i, id) && s.reviewers[i].pc.ReviewDone?
  }

  predicate IsFinal(status: Status) {
    status == Published || status == Rejected
  }

  predicate IsDecision(e: AuditEvent) {
    e.eventType == KnowledgePublished || e.eventType == KnowledgeRejected || e.eventType == PolicyRejected
  }

  /** How many decisions on this candidate the log holds. */
  function Decisions(audit: seq<AuditEvent>, id: string): nat {
    if audit == [] then 0
    else
      var e := audit[|audit| - 1];
      Decisions(audit[..|audit| - 1], id) + (if IsDecision(e) && e.entityId == id then 1 else 0)
  }

  lemma DecisionsAppend(audit: seq<AuditEvent>, e: AuditEvent, id: string)
    ensures Decisions(audit + [e], id) == Decisions(audit, id) + (if IsDecision(e) && e.entityId == id then 1 else 0)
  {
    assert (audit + [e])[..|audit|] == audit;
  }

  /** A decision in the log agrees with the stored record: its status, its reviewer, its conversation. */
  predicate EventOk(p: Policy, store: Contents, e: AuditEvent) {
    IsDecision(e) ==>
      && e.entityId in store.candidates
      && var c := store.candidates[e.entityId];
      && c.reviewedBy == Some(e.actorId) && c.traceId == e.traceId
      && (c.status == Published <==> e.eventType == KnowledgePublished)
      && (c.status == Rejected <==> e.eventType != KnowledgePublished)
      && (e.eventType == PolicyRejected ==> Refused(p, c))
  }

  function Verdict(r: Review): Status {
    if r.approved then Published else Rejected
  }

  /** What a reviewer that settled its candidate may rely on. */
  predicate SettledOk(p: Policy, store: Contents, r: Reviewer) {
    && r.review.candidateId in store.candidates
    && var c := store.candidates[r.review.candidateId];
    && c.id == r.review.candidateId && IsFinal(c.status) && c.reviewedBy == Some(r.review.reviewer)
    && match r.pc
       case Load => c.status == Rejected
       case Reload => c.status == Published && r.review.approved
       case AuditReview(d) => d == c && c.status == Verdict(r.review)
       case AuditRefusal(d) => SameCore(d, c) && c.status == Rejected && r.review.approved && Refused(p, c)
       case ReviewDone(Ok(d)) => d == c && c.status == Verdict(r.review)
       case ReviewDone(Err(_)) => c.status == Rejected && r.review.approved && Refused(p, c)
       case _ => true
  }

  predicate SettlerOk(p: Policy, store: Contents, r: Reviewer) {
    Settled(r) ==> SettledOk(p, store, r)
  }

  ghost predicate Inv(p: Policy, s: System) {
    var store := s.world.store;
    && (forall i :: i in s.reviewers ==> SettlerOk(p, store, s.reviewers[i]))
    && (forall i, j, id :: Settles(s, i, id) && Settles(s, j, id) ==> i == j)
    && (forall id :: id in store.candidates && IsFinal(store.candidates[id].status) ==> exists i :: Settles(s, i, id))
    && (forall e :: e in store.audit ==> EventOk(p, store, e))
    && (forall id :: Decisions(store.audit, id) == if exists i :: Logged(s, i, id) then 1 else 0)
  }

  lemma InvInitially(p: Policy, s: System)
    requires Initial(s)
    ensures Inv(p, s)
  {
  }

  // ---- one step of one reviewer ----

  lemma SettledStays(p: Policy, w: World, r: Reviewer, fault: Fault)
    requires Settled(r) && SettledOk(p, w.store, r)
    ensures Settled(ReviewerAfter(p, w, r, fault))
    ensures SettledOk(p, WorldAfter(p, w, r, fault).store, ReviewerAfter(p, w, r, fault))
  {
    hide Refused, Draft, Scan, Seal;
  }

  /** The three steps that settle a candidate, each from a status that is not final. */
  lemma Settling(p: Policy, w: World, r: Reviewer, fault: Fault)
    requires !Settled(r) && Settled(ReviewerAfter(p, w, r, fault))
    requires ReviewerOk(p, w, r)
    requires var id := r.review.candidateId; id in w.store.candidates ==> w.store.candidates[id].id == id
    ensures SettledOk(p, WorldAfter(p, w, r, fault).store, ReviewerAfter(p, w, r, fault))
    ensures var id := r.review.candidateId; id in w.store.candidates && !IsFinal(w.store.candidates[id].status)
  {
    hide SameCore, Draft, Scan, Seal, FinalDocument;
    OnlySettling(p, w, r, fault);
    match r.pc
    case Claim => ClaimSettles(p, w, r, fault);
    case Refuse(_) => RefuseSettles(p, w, r, fault);
    case Finalize => FinalizeSettles(p, w, r, fault);
  }

  lemma OnlySettling(p: Policy, w: World, r: Reviewer, fault: Fault)
    requires !Settled(r) && Settled(ReviewerAfter(p, w, r, fault)) && (ApprovalOnly(r.pc) ==> r.review.approved)
    ensures (r.pc.Claim? && !r.review.approved) || r.pc.Refuse? || r.pc.Finalize?
  {
    hide Draft, Scan, Seal;
  }

  lemma ClaimSettles(p: Policy, w: World, r: Reviewer, fault: Fault)
    requires r.pc.Claim? && !r.review.approved && Settled(ReviewerAfter(p, w, r, fault))
    requires var id := r.review.candidateId; id in w.store.candidates ==> w.store.candidates[id].id == id
    ensures SettledOk(p, WorldAfter(p, w, r, fault).store, ReviewerAfter(p, w, r, fault))
    ensures StatusIs(w.store, r.review.candidateId, Pending)
  {
    hide Draft, Scan, Seal, Refused;
  }

  lemma RefuseSettles(p: Policy, w: World, r: Reviewer, fault: Fault)
    requires r.pc.Refuse? && r.review.approved && HolderOk(p, w, r)
    requires w.store.candidates[r.review.candidateId].id == r.review.candidateId
    ensures SettledOk(p, WorldAfter(p, w, r, fault).store, ReviewerAfter(p, w, r, fault))
    ensures StatusIs(w.store, r.review.candidateId, Publishing)
  {
    var c := w.store.candidates[r.review.candidateId];
    SameVerdict(p, c, c.(status := Rejected, reviewedBy := Some(r.review.reviewer)));
    hide Draft, Scan, Seal, Refused, FinalDocument;
  }

  lemma FinalizeSettles(p: Policy, w: World, r: Reviewer, fault: Fault)
    requires r.pc.Finalize? && r.review.approved && HolderOk(p, w, r)
    requires w.store.candidates[r.review.candidateId].id == r.review.candidateId
    ensures SettledOk(p, WorldAfter(p, w, r, fault).store, ReviewerAfter(p, w, r, fault))
    ensures StatusIs(w.store, r.review.candidateId, Publishing)
  {
    hide Draft, Scan, Seal, Refused, FinalDocument;
  }

  /** A step appends at most one event; a decision is appended exactly when a settled reviewer completes. */
  lemma StepLogs(p: Policy, w: World, r: Reviewer, fault: Fault)
    requires !r.pc.ReviewDone? && (Settled(r) ==> SettledOk(p, w.store, r))
    ensures var before, after := w.store.audit, WorldAfter(p, w, r, fault).store.audit;
      var completes := Settled(r) && ReviewerAfter(p, w, r, fault).pc.ReviewDone?;
      if after == before then !completes
      else
        |after| == |before| + 1 && after == before + [after[|before|]]
        && (IsDecision(after[|before|]) <==> completes)
        && (completes ==> after[|before|].entityId == r.review.candidateId
                          && EventOk(p, WorldAfter(p, w, r, fault).store, after[|before|]))
  {
    hide Refused, Draft, Scan, Seal;
  }

  // ---- every run ----

  /** Final records do not change, so what was true of them stays true. */
  lemma FinalStays(p: Policy, s: System, a: Action, id: string)
    requires Submission.Inv(s) && Publication.Inv(p, s) && Enabled(s, a)
    requires id in s.world.store.candidates && IsFinal(s.world.store.candidates[id].status)
    ensures var after := Next(p, s, a).world.store.candidates; id in after && after[id] == s.world.store.candidates[id]
  {
    hide Submission.Inv, Publication.Inv, Next;
    StepAlongEdges(p, s, a, id);
  }

  lemma SettledFrame(p: Policy, s: System, a: Action, r: Reviewer)
    requires Submission.Inv(s) && Publication.Inv(p, s) && Enabled(s, a) && SettledOk(p, s.world.store, r)
    ensures SettledOk(p, Next(p, s, a).world.store, r)
  {
    hide Submission.Inv, Publication.Inv, Next, Refused;
    FinalStays(p, s, a, r.review.candidateId);
  }

  lemma EventFrame(p: Policy, s: System, a: Action, e: AuditEvent)
    requires Submission.Inv(s) && Publication.Inv(p, s) && Enabled(s, a) && EventOk(p, s.world.store, e)
    ensures EventOk(p, Next(p, s, a).world.store, e)
  {
    hide Submission.Inv, Publication.Inv, Next, Refused;
    if IsDecision(e) {
      FinalStays(p, s, a, e.entityId);
    }
  }

  /** A step that makes a candidate final makes its own candidate final, and settles it. */
  lemma BecomesFinal(p: Policy, w: World, r: Reviewer, fault: Fault, id: string)
    requires id in w.store.candidates && id in WorldAfter(p, w, r, fault).store.candidates
    requires !IsFinal(w.store.candidates[id].status) && IsFinal(WorldAfter(p, w, r, fault).store.candidates[id].status)
    requires r.pc.WriteFlags? ==> r.pc.candidate.status == Publishing
    requires r.pc != Unexpected && (ApprovalOnly(r.pc) ==> r.review.approved)
    ensures id == r.review.candidateId && Settled(ReviewerAfter(p, w, r, fault))
  {
    if r.pc.WriteFlags? {
      FlagsStayOpen(p, w, r, fault, id);
    } else {
      StatusNext(p, w, r, fault);
      FinalIsSettled(p, w, r, fault);
    }
    hide ReviewNext, WorldAfter, ReviewerAfter, Settled;
  }

  lemma FlagsStayOpen(p: Policy, w: World, r: Reviewer, fault: Fault, id: string)
    requires r.pc.WriteFlags? && r.pc.candidate.status == Publishing && id in w.store.candidates
    ensures var after := WorldAfter(p, w, r, fault).store.candidates;
      id in after && (IsFinal(after[id].status) ==> after[id] == w.store.candidates[id])
  {
    hide Draft, Scan, Seal;
  }

  lemma FinalIsSettled(p: Policy, w: World, r: Reviewer, fault: Fault)
    requires !r.pc.WriteFlags? && r.pc != Unexpected && (ApprovalOnly(r.pc) ==> r.review.approved)
    requires r.review.candidateId in w.store.candidates && !IsFinal(w.store.candidates[r.review.candidateId].status)
    ensures var after := WorldAfter(p, w, r, fault).store.candidates;
      r.review.candidateId in after && IsFinal(after[r.review.candidateId].status) ==>
          Settled(ReviewerAfter(p, w, r, fault))
  {
    hide Draft, Scan, Seal;
  }

  /** What the publication invariant says about one reviewer. */
  lemma ReviewerFacts(p: Policy, s: System, i: nat)
    requires Publication.Inv(p, s) && i in s.reviewers
    ensures var r := s.reviewers[i];
      && ReviewerOk(p, s.world, r)
      && (r.review.candidateId in s.world.store.candidates ==>
            s.world.store.candidates[r.review.candidateId].id == r.review.candidateId)
      && (r.pc.WriteFlags? ==> r.pc.candidate.status == Publishing)
  {
    var id := s.reviewers[i].review.candidateId;
    assert id in s.world.store.candidates ==> CandidateOk(p, s, id);
    assert ReviewerOk(p, s.world, s.reviewers[i]);
    hide Publication.Inv, DocumentsOk, FinalDocument, Refused;
  }

  /** The stepping reviewer and its world, taken out of the whole system. */
  lemma StepParts(p: Policy, s: System, i: nat, fault: Fault)
    requires Publication.Inv(p, s) && Enabled(s, StepReview(i, fault))
    ensures var t, r := Next(p, s, StepReview(i, fault)), s.reviewers[i];
      && t.world == WorldAfter(p, s.world, r, fault)
      && t.reviewers == s.reviewers[i := ReviewerAfter(p, s.world, r, fault)]
      && !r.pc.ReviewDone? && ReviewerOk(p, s.world, r)
      && (r.review.candidateId in s.world.store.candidates ==>
            s.world.store.candidates[r.review.candidateId].id == r.review.candidateId)
      && (r.pc.WriteFlags? ==> r.pc.candidate.status == Publishing)
  {
    ReviewParts(p, s, i, fault);
    hide *;
    ReviewerFacts(p, s, i);
  }

  /** The stepping reviewer's own part of the invariant. */
  lemma StepSettles(p: Policy, s: System, i: nat, fault: Fault)
    requires Publication.Inv(p, s) && Inv(p, s) && Enabled(s, StepReview(i, fault))
    ensures var t, id := Next(p, s, StepReview(i, fault)), s.reviewers[i].review.candidateId;
      && i in t.reviewers && t.reviewers[i].review == s.reviewers[i].review
      && t.reviewers == s.reviewers[i := t.reviewers[i]]
      && (Settled(s.reviewers[i]) ==> Settled(t.reviewers[i]))
      && (Settled(t.reviewers[i]) ==> SettledOk(p, t.world.store, t.reviewers[i]))
      && (Settled(t.reviewers[i]) && !Settled(s.reviewers[i]) ==>
            id in s.world.store.candidates && !IsFinal(s.world.store.candidates[id].status))
  {
    StepParts(p, s, i, fault);
    var r := s.reviewers[i];
    hide Next, ReviewNext, Settled, SettledOk, Publication.Inv, ReviewerOk;
    if Settled(r) {
      SettledStays(p, s.world, r, fault);
    } else if Settled(ReviewerAfter(p, s.world, r, fault)) {
      Settling(p, s.world, r, fault);
    }
  }

  /** A reviewer settled after its step is the only one that ever settled its candidate. */
  lemma SettledOnce(p: Policy, s: System, i: nat, fault: Fault)
    requires Publication.Inv(p, s) && Inv(p, s) && Enabled(s, StepReview(i, fault))
    requires Settled(Next(p, s, StepReview(i, fault)).reviewers[i])
    ensures forall k :: Settles(s, k, s.reviewers[i].review.candidateId) ==> k == i
  {
    StepSettles(p, s, i, fault);
    hide Next, Settled, Publication.Inv;
    var id := s.reviewers[i].review.candidateId;
    assert forall k :: Settles(s, k, id) ==> SettledOk(p, s.world.store, s.reviewers[k]);
    assert Settled(s.reviewers[i]) ==> Settles(s, i, id);
  }

  lemma StepUnique(p: Policy, s: System, i: nat, fault: Fault, j: nat, k: nat, id: string)
    requires Publication.Inv(p, s) && Inv(p, s) && Enabled(s, StepReview(i, fault))
    requires Settles(Next(p, s, StepReview(i, fault)), j, id) && Settles(Next(p, s, StepReview(i, fault)), k, id)
    ensures j == k
  {
    StepSettles(p, s, i, fault);
    assert Settles(s, j, id) && Settles(s, k, id) ==> j == k;
    hide Next, Settled, Publication.Inv, Inv;
    if j == i || k == i {
      SettledOnce(p, s, i, fault);
    }
  }

  lemma StillSettles(p: Policy, s: System, i: nat, fault: Fault, j: nat, id: string)
    requires Publication.Inv(p, s) && Inv(p, s) && Enabled(s, StepReview(i, fault)) && Settles(s, j, id)
    ensures Settles(Next(p, s, StepReview(i, fault)), j, id)
  {
    hide Next, Settled, Publication.Inv, Inv;
    StepSettles(p, s, i, fault);
  }

  lemma NewlyFinal(p: Policy, s: System, i: nat, fault: Fault, id: string)
    requires Publication.Inv(p, s) && Enabled(s, StepReview(i, fault))
    requires id in s.world.store.candidates && !IsFinal(s.world.store.candidates[id].status)
    requires var after := Next(p, s, StepReview(i, fault)).world.store.candidates;
      id in after && IsFinal(after[id].status)
    ensures Settles(Next(p, s, StepReview(i, fault)), i, id)
  {
    ReviewParts(p, s, i, fault);
    hide Next, ReviewNext, Settled, IsFinal, Publication.Inv, WorldAfter, ReviewerOk;
    WritesExisting(p, s, i);
    ReviewerFacts(p, s, i);
    BecomesFinal(p, s.world, s.reviewers[i], fault, id);
  }

  lemma FinalHasSettler(p: Policy, s: System, id: string)
    requires Inv(p, s) && id in s.world.store.candidates && IsFinal(s.world.store.candidates[id].status)
    ensures exists j :: Settles(s, j, id)
  {
  }

  lemma StepFinal(p: Policy, s: System, i: nat, fault: Fault, id: string)
    requires Publication.Inv(p, s) && Inv(p, s) && Enabled(s, StepReview(i, fault))
    requires var after := Next(p, s, StepReview(i, fault)).world.store.candidates;
      id in after && IsFinal(after[id].status)
    ensures exists j :: Settles(Next(p, s, StepReview(i, fault)), j, id)
  {
    hide *;
    var before := s.world.store.candidates;
    ReviewKeepsKeys(p, s, i, fault);
    assert id in before.Keys;
    if IsFinal(before[id].status) {
      FinalHasSettler(p, s, id);
      var j :| Settles(s, j, id);
      StillSettles(p, s, i, fault, j, id);
    } else {
      NewlyFinal(p, s, i, fault, id);
    }
  }

  lemma StepEvents(p: Policy, s: System, i: nat, fault: Fault, e: AuditEvent)
    requires Submission.Inv(s) && Publication.Inv(p, s) && Inv(p, s) && Enabled(s, StepReview(i, fault))
    requires e in Next(p, s, StepReview(i, fault)).world.store.audit
    ensures EventOk(p, Next(p, s, StepReview(i, fault)).world.store, e)
  {
    StepParts(p, s, i, fault);
    StepLogs(p, s.world, s.reviewers[i], fault);
    if e in s.world.store.audit {
      assert EventOk(p, s.world.store, e);
      EventFrame(p, s, StepReview(i, fault), e);
    }
    hide Next, ReviewNext, SettledOk, Publication.Inv, Submission.Inv;
  }

  /** No reviewer settles its candidate with its very last step. */
  lemma CompletesSettled(p: Policy, w: World, r: Reviewer, fault: Fault)
    requires !r.pc.ReviewDone? && (Settled(r) ==> SettledOk(p, w.store, r))
    ensures ReviewerAfter(p, w, r, fault).pc.ReviewDone? ==> (Settled(ReviewerAfter(p, w, r, fault)) <==> Settled(r))
  {
    hide Draft, Scan, Seal;
  }

  /** The log gains a decision on a candidate exactly when its settled reviewer completes. */
  lemma StepAdds(p: Policy, w: World, r: Reviewer, fault: Fault, id: string)
    requires !r.pc.ReviewDone? && (Settled(r) ==> SettledOk(p, w.store, r))
    ensures var done := ReviewerAfter(p, w, r, fault);
      Decisions(WorldAfter(p, w, r, fault).store.audit, id) == Decisions(w.store.audit, id)
        + (if Settled(done) && done.pc.ReviewDone? && r.review.candidateId == id then 1 else 0)
  {
    hide *;
    StepLogs(p, w, r, fault);
    CompletesSettled(p, w, r, fault);
    var before, after := w.store.audit, WorldAfter(p, w, r, fault).store.audit;
    if after != before {
      DecisionsAppend(before, after[|before|], id);
    }
  }

  lemma OthersLogged(p: Policy, s: System, i: nat, fault: Fault, id: string)
    requires Publication.Inv(p, s) && Enabled(s, StepReview(i, fault))
    ensures !Logged(s, i, id)
    ensures forall j :: j != i ==> (Logged(Next(p, s, StepReview(i, fault)), j, id) <==> Logged(s, j, id))
  {
    StepParts(p, s, i, fault);
    hide Next, ReviewNext, Settled, Publication.Inv, ReviewerOk;
  }

  lemma StepCount(p: Policy, s: System, i: nat, fault: Fault, id: string)
    requires Publication.Inv(p, s) && Inv(p, s) && Enabled(s, StepReview(i, fault))
    ensures var t := Next(p, s, StepReview(i, fault));
      Decisions(t.world.store.audit, id) == if exists j :: Logged(t, j, id) then 1 else 0
  {
    var t := Next(p, s, StepReview(i, fault));
    StepParts(p, s, i, fault);
    StepAdds(p, s.world, s.reviewers[i], fault, id);
    OthersLogged(p, s, i, fault, id);
    StepSettles(p, s, i, fault);
    assert Decisions(s.world.store.audit, id) == if exists j :: Logged(s, j, id) then 1 else 0;
    hide Next, ReviewNext, Settled, ReviewerOk, Publication.Inv, Inv;
    if Logged(t, i, id) {
      SettledOnce(p, s, i, fault);
    }
  }

  lemma StepSettlers(p: Policy, s: System, i: nat, fault: Fault, j: nat)
    requires Submission.Inv(s) && Publication.Inv(p, s) && Inv(p, s) && Enabled(s, StepReview(i, fault))
    requires j in Next(p, s, StepReview(i, fault)).reviewers
    ensures SettlerOk(p, Next(p, s, StepReview(i, fault)).world.store, Next(p, s, StepReview(i, fault)).reviewers[j])
  {
    StepSettles(p, s, i, fault);
    assert j in s.reviewers ==> SettlerOk(p, s.world.store, s.reviewers[j]);
    hide Next, Settled, SettledOk, Inv, Submission.Inv, Publication.Inv;
    if j != i && Settled(s.reviewers[j]) {
      SettledFrame(p, s, StepReview(i, fault), s.reviewers[j]);
    }
  }

  lemma ReviewKeepsAudit(p: Policy, s: System, i: nat, fault: Fault)
    requires Submission.Inv(s) && Publication.Inv(p, s) && Inv(p, s) && Enabled(s, StepReview(i, fault))
    ensures Inv(p, Next(p, s, StepReview(i, fault)))
  {
    var t := Next(p, s, StepReview(i, fault));
    assert Inv(p, s);
    hide Next, SettlerOk, Settles, Logged, EventOk, Submission.Inv, Publication.Inv, Decisions;
    forall j | j in t.reviewers ensures SettlerOk(p, t.world.store, t.reviewers[j]) { StepSettlers(p, s, i, fault, j); }
    forall j, k, id | Settles(t, j, id) && Settles(t, k, id) ensures j == k { StepUnique(p, s, i, fault, j, k, id); }
    var after := t.world.store.candidates;
    forall id | id in after && IsFinal(after[id].status) ensures exists j :: Settles(t, j, id) {
      StepFinal(p, s, i, fault, id);
    }
    forall e | e in t.world.store.audit ensures EventOk(p, t.world.store, e) { StepEvents(p, s, i, fault, e); }
    forall id ensures Decisions(t.world.store.audit, id) == if exists j :: Logged(t, j, id) then 1 else 0 {
      StepCount(p, s, i, fault, id);
    }
  }

  /** Other actions settle nothing, log no decision and make no candidate final. */
  lemma OtherSteps(p: Policy, s: System, a: Action)
    requires Submission.Inv(s) && Publication.Inv(p, s) && Enabled(s, a) && !a.StepReview?
    ensures var t := Next(p, s, a);
      && (forall i, id :: Settles(t, i, id) <==> Settles(s, i, id))
      && (forall i, id :: Logged(t, i, id) <==> Logged(s, i, id))
      && (forall i :: i in t.reviewers && Settled(t.reviewers[i]) ==>
            i in s.reviewers && t.reviewers[i].review == s.reviewers[i].review
                && t.reviewers[i].pc == s.reviewers[i].pc)
  {
    hide SubmitNext, Submission.Inv, Publication.Inv;
  }

  lemma OtherRecords(p: Policy, s: System, a: Action, id: string)
    requires Submission.Inv(s) && Publication.Inv(p, s) && Enabled(s, a) && !a.StepReview?
    ensures var before, after := s.world.store.candidates, Next(p, s, a).world.store.candidates;
      id in after && IsFinal(after[id].status) ==> id in before && IsFinal(before[id].status)
  {
    if a.StepSubmit? {
      hide *;
      SubmitAdds(p, s, a.caller, a.feedbackHex, a.candidateHex);
      AddedIsOpen(s.world.store.candidates, Next(p, s, a).world.store.candidates, id);
    } else {
      OtherActionsAttend(p, s, a);
      hide Next, Submission.Inv, Publication.Inv;
    }
  }

  lemma AddedIsOpen(before: map<string, Candidate>, after: map<string, Candidate>, id: string)
    requires after == before || exists x: Candidate ::
               x.id !in before && IsCandidateId(x.id) && x.status == Pending && after == before[x.id := x]
    ensures id in after && IsFinal(after[id].status) ==> id in before && IsFinal(before[id].status)
  {
  }

  lemma OtherEvents(p: Policy, s: System, a: Action)
    requires Enabled(s, a) && !a.StepReview?
    ensures var before, after := s.world.store.audit, Next(p, s, a).world.store.audit;
      after == before || exists e :: after == before + [e] && !IsDecision(e)
  {
  }

  lemma NoDecision(p: Policy, store: Contents, e: AuditEvent)
    requires !IsDecision(e)
    ensures EventOk(p, store, e)
  {
  }

  lemma OtherCount(p: Policy, s: System, a: Action, id: string)
    requires Submission.Inv(s) && Publication.Inv(p, s) && Inv(p, s) && Enabled(s, a) && !a.StepReview?
    ensures Decisions(Next(p, s, a).world.store.audit, id) == if exists j :: Logged(Next(p, s, a), j, id) then 1 else 0
  {
    OtherSteps(p, s, a);
    OtherEvents(p, s, a);
    assert Decisions(s.world.store.audit, id) == if exists j :: Logged(s, j, id) then 1 else 0;
    hide Next, Logged, Settles, Settled, Inv, Submission.Inv, Publication.Inv, Decisions;
    var before, after := s.world.store.audit, Next(p, s, a).world.store.audit;
    if after != before {
      var e :| after == before + [e] && !IsDecision(e);
      DecisionsAppend(before, e, id);
    }
  }

  lemma OtherEventsOk(p: Policy, s: System, a: Action, e: AuditEvent)
    requires Submission.Inv(s) && Publication.Inv(p, s) && Inv(p, s) && Enabled(s, a) && !a.StepReview?
    requires e in Next(p, s, a).world.store.audit
    ensures EventOk(p, Next(p, s, a).world.store, e)
  {
    OtherEvents(p, s, a);
    assert e in s.world.store.audit ==> EventOk(p, s.world.store, e);
    hide Next, Inv, EventOk, Submission.Inv, Publication.Inv;
    if e in s.world.store.audit {
      EventFrame(p, s, a, e);
    } else {
      NoDecision(p, Next(p, s, a).world.store, e);
    }
  }

  /** Whether it is alive plays no part in what a settled reviewer may rely on. */
  lemma SettledKnows(p: Policy, s: System, j: nat, r: Reviewer)
    requires Inv(p, s) && j in s.reviewers && r == s.reviewers[j].(alive := r.alive) && Settled(r)
    ensures SettledOk(p, s.world.store, r)
  {
    hide Refused, SameCore;
    assert Settled(s.reviewers[j]) && SettlerOk(p, s.world.store, s.reviewers[j]);
  }

  lemma OtherSettled(p: Policy, s: System, a: Action, j: nat)
    requires Submission.Inv(s) && Publication.Inv(p, s) && Inv(p, s) && Enabled(s, a) && !a.StepReview?
    requires j in Next(p, s, a).reviewers && Settled(Next(p, s, a).reviewers[j])
    ensures SettledOk(p, Next(p, s, a).world.store, Next(p, s, a).reviewers[j])
  {
    OtherSteps(p, s, a);
    SettledKnows(p, s, j, Next(p, s, a).reviewers[j]);
    hide *;
    SettledFrame(p, s, a, Next(p, s, a).reviewers[j]);
  }

  lemma OtherFinal(p: Policy, s: System, a: Action, id: string)
    requires Submission.Inv(s) && Publication.Inv(p, s) && Inv(p, s) && Enabled(s, a) && !a.StepReview?
    requires var after := Next(p, s, a).world.store.candidates; id in after && IsFinal(after[id].status)
    ensures exists j :: Settles(Next(p, s, a), j, id)
  {
    hide Next, Settles, Logged, Submission.Inv, Publication.Inv;
    OtherRecords(p, s, a, id);
    OtherSteps(p, s, a);
    var j :| Settles(s, j, id);
    assert Settles(Next(p, s, a), j, id);
  }

  lemma OtherUnique(p: Policy, s: System, a: Action)
    requires Submission.Inv(s) && Publication.Inv(p, s) && Inv(p, s) && Enabled(s, a) && !a.StepReview?
    ensures forall i, j, id :: Settles(Next(p, s, a), i, id) && Settles(Next(p, s, a), j, id) ==> i == j
  {
    assert forall i, j, id :: Settles(s, i, id) && Settles(s, j, id) ==> i == j;
    hide Next, Settles, Logged, Submission.Inv, Publication.Inv, Inv;
    OtherSteps(p, s, a);
  }

  lemma OtherActionsKeepAudit(p: Policy, s: System, a: Action)
    requires Submission.Inv(s) && Publication.Inv(p, s) && Inv(p, s) && Enabled(s, a) && !a.StepReview?
    ensures Inv(p, Next(p, s, a))
  {
    hide Next, Enabled, IsFinal, SettlerOk, Settles, Logged, EventOk, Submission.Inv, Publication.Inv, Decisions;
    var t := Next(p, s, a);
    OtherUnique(p, s, a);
    forall j | j in t.reviewers ensures SettlerOk(p, t.world.store, t.reviewers[j]) { OtherSettler(p, s, a, j); }
    var after := t.world.store.candidates;
    forall id | id in after && IsFinal(after[id].status) ensures exists j :: Settles(t, j, id) {
      OtherFinal(p, s, a, id);
    }
    forall e | e in t.world.store.audit ensures EventOk(p, t.world.store, e) { OtherEventsOk(p, s, a, e); }
    forall id ensures Decisions(t.world.store.audit, id) == if exists j :: Logged(t, j, id) then 1 else 0 {
      OtherCount(p, s, a, id);
    }
  }

  lemma OtherSettler(p: Policy, s: System, a: Action, j: nat)
    requires Submission.Inv(s) && Publication.Inv(p, s) && Inv(p, s) && Enabled(s, a) && !a.StepReview?
    requires j in Next(p, s, a).reviewers
    ensures SettlerOk(p, Next(p, s, a).world.store, Next(p, s, a).reviewers[j])
  {
    hide Next, Settled, SettledOk, Submission.Inv, Publication.Inv, Inv;
    if Settled(Next(p, s, a).reviewers[j]) {
      OtherSettled(p, s, a, j);
    }
  }

  lemma {:induction false} RunKeepsAudit(p: Policy, trace: seq<System>, actions: seq<Action>, k: nat)
    requires LoopSystem.IsRun(p, trace, actions) && k < |trace|
    ensures Inv(p, trace[k])
  {
    hide Inv, Submission.Inv, Publication.Inv, Next;
    if k == 0 {
      InvInitially(p, trace[0]);
    } else {
      RunKeepsAudit(p, trace, actions, k - 1);
      RunKeeps(p, trace, actions, k - 1);
      if actions[k - 1].StepReview? {
        ReviewKeepsAudit(p, trace[k - 1], actions[k - 1].caller, actions[k - 1].fault);
      } else {
        OtherActionsKeepAudit(p, trace[k - 1], actions[k - 1]);
      }
    }
  }

  /**
   * Every decision in the log is true of the stored record, and stays true: status, reviewer and
   * conversation agree.
   */
  lemma DecisionsAreTrue(p: Policy, trace: seq<System>, actions: seq<Action>, k: nat, e: AuditEvent)
    requires LoopSystem.IsRun(p, trace, actions) && k < |trace| && e in trace[k].world.store.audit && IsDecision(e)
    ensures e.entityId in trace[k].world.store.candidates
    ensures var c := trace[k].world.store.candidates[e.entityId];
      && c.reviewedBy == Some(e.actorId) && c.traceId == e.traceId
      && c.status == (if e.eventType == KnowledgePublished then Published else Rejected)
      && (e.eventType == PolicyRejected ==> Refused(p, c))
  {
    RunKeepsAudit(p, trace, actions, k);
    assert EventOk(p, trace[k].world.store, e);
  }

  /**
   * A candidate is final exactly when one reviewer has settled it. The log then holds one decision on it once
   * that reviewer has completed and none before; on a candidate that is not final it holds none.
   */
  lemma OneDecision(p: Policy, trace: seq<System>, actions: seq<Action>, k: nat, id: string)
    requires LoopSystem.IsRun(p, trace, actions) && k < |trace|
    ensures var s := trace[k];
      && ((id in s.world.store.candidates && IsFinal(s.world.store.candidates[id].status)) <==>
            exists i :: Settles(s, i, id))
      && (forall i, j :: Settles(s, i, id) && Settles(s, j, id) ==> i == j)
      && Decisions(s.world.store.audit, id)
         == if exists i :: Settles(s, i, id) && s.reviewers[i].pc.ReviewDone? then 1 else 0
  {
    RunKeepsAudit(p, trace, actions, k);
    var s := trace[k];
    assert forall i :: Settles(s, i, id) ==> SettledOk(p, s.world.store, s.reviewers[i]);
    assert forall i :: Logged(s, i, id) <==> Settles(s, i, id) && s.reviewers[i].pc.ReviewDone?;
  }
}
