/** What every run of the feedback loop keeps about candidates, their reviewers and their documents. */
module Publication {
  import opened Text
  import opened Domain
  import opened OperationsStore
  import opened Knowledge
  import opened FeedbackLoop
  import opened LoopSystem
  import Submission

  /** The reviewer has claimed the candidate and has not yet made its closing compare-and-set. */
  predicate Holding(r: Reviewer) {
    r.review.approved &&
    match r.pc
    case Load => true
    case ListExisting(_) => true
    case WriteFlags(_, _) => true
    case Publish(_, _) => true
    case Refuse(_) => true
    case GiveUp(_) => true
    case Finalize => true
    case Unexpected => true
    case ReviewDone(result) => result == Err(InvalidDocument)
    case _ => false
  }

  predicate Holds(s: System, i: nat, id: string) {
    i in s.reviewers && s.reviewers[i].review.candidateId == id && Holding(s.reviewers[i])
  }

  predicate IsCandidateId(id: string) { "KC-" <= id }

  function FinalDocument(p: Policy, c: Candidate, reviewer: string): Document {
    Seal(p, Draft(p, c, reviewer))
  }

  /** Whether the ingestion policy refuses the candidate's document. The reviewer plays no part in it. */
  predicate Refused(p: Policy, c: Candidate) {
    Blocked(p, Draft(p, c, ""))
  }

  predicate SameCore(a: Candidate, b: Candidate) {
    && a.id == b.id && a.traceId == b.traceId && a.question == b.question && a.currentAnswer == b.currentAnswer
    && a.suggestedAnswer == b.suggestedAnswer && a.reason == b.reason && a.domain == b.domain
  }

  lemma RefusedIsFixed(p: Policy, a: Candidate, b: Candidate, reviewer: string)
    requires SameCore(a, b)
    ensures Refused(p, a) == Blocked(p, Draft(p, b, reviewer))
    ensures FinalDocument(p, a, reviewer) == FinalDocument(p, b, reviewer)
  {
  }

  /** Candidate identifiers and document identifiers determine each other. */
  lemma DocumentIdInjective(a: string, b: string)
    requires IsCandidateId(a) && IsCandidateId(b) && DocumentId(a) == DocumentId(b)
    ensures a == b
  {
    var prefix := "KB-FEEDBACK-";
    assert DocumentId(a)[|prefix|..] == a[3..] && DocumentId(b)[|prefix|..] == b[3..];
    assert a == "KC-" + a[3..] && b == "KC-" + b[3..];
  }

  // ---- the invariant ----

  /** What one reviewer may rely on while it holds a candidate. */
  predicate HolderOk(p: Policy, w: World, r: Reviewer) {
    var id := r.review.candidateId;
    && StatusIs(w.store, id, Publishing)
    && var c := w.store.candidates[id];
    && c.reviewedBy == Some(r.review.reviewer)
    && match r.pc
       case ListExisting(snapshot) => snapshot == c
       case WriteFlags(snapshot, d) =>
         snapshot == c.(riskFlags := snapshot.riskFlags) && d == FinalDocument(p, c, r.review.reviewer)
             && !Refused(p, c)
       case Publish(snapshot, d) =>
         snapshot == c && d == FinalDocument(p, c, r.review.reviewer) && !Refused(p, c)
       case Refuse(snapshot) => snapshot == c && Refused(p, c)
       case GiveUp(snapshot) => snapshot == c
       case Finalize => Under(w.docs, DocumentId(id)) == [FinalDocument(p, c, r.review.reviewer)] && !Refused(p, c)
       case Unexpected => false
       case _ => true
  }

  /** The steps only an approving review takes. */
  predicate ApprovalOnly(pc: ReviewPc) {
    || pc.ClaimRetry? || pc.ListExisting? || pc.WriteFlags? || pc.Publish? || pc.Refuse? || pc.GiveUp?
    || pc.Finalize? || pc.Unexpected?
  }

  predicate ReviewerOk(p: Policy, w: World, r: Reviewer) {
    && (Holding(r) ==> HolderOk(p, w, r))
    && (r.pc.Load? || r.pc.Reload? ==> r.review.candidateId in w.store.candidates)
    && (ApprovalOnly(r.pc) ==> r.review.approved)
    && r.pc != Unexpected
    && r.pc != ReviewDone(Err(StateChanged)) && r.pc != ReviewDone(Err(CandidateVanished))
  }

  /** What the repository holds under a candidate's document identifier. */
  predicate DocumentsOk(p: Policy, c: Candidate, stored: seq<Document>) {
    match c.status
    case Pending => stored == []
    case Rejected => stored == []
    case Published => c.reviewedBy.Some? && stored == [FinalDocument(p, c, c.reviewedBy.value)] && !Refused(p, c)
    case _ =>
      stored == [] ||
      (|stored| == 1 && stored[0].approvedBy.Some? && stored[0] == FinalDocument(p, c, stored[0].approvedBy.value)
          && !Refused(p, c))
  }

  ghost predicate CandidateOk(p: Policy, s: System, id: string)
    requires id in s.world.store.candidates
  {
    var c := s.world.store.candidates[id];
    && c.id == id && IsCandidateId(id)
    && (c.status == Publishing ==> exists i :: Holds(s, i, id))
    && DocumentsOk(p, c, Under(s.world.docs, DocumentId(id)))
  }

  ghost predicate Inv(p: Policy, s: System) {
    && (forall i :: i in s.reviewers ==> ReviewerOk(p, s.world, s.reviewers[i]))
    && (forall i, j, id :: Holds(s, i, id) && Holds(s, j, id) ==> i == j)
    && (forall id :: id in s.world.store.candidates ==> CandidateOk(p, s, id))
    && (forall id :: IsCandidateId(id) && id !in s.world.store.candidates ==> Under(s.world.docs, DocumentId(id)) == [])
  }

  lemma NothingUnder(docs: seq<Document>, id: string)
    requires forall d :: d in docs ==> d.id != id
    ensures Under(docs, id) == []
  {
  }

  lemma InvInitially(p: Policy, s: System)
    requires Initial(s)
    ensures Inv(p, s)
  {
    forall id | IsCandidateId(id) ensures Under(s.world.docs, DocumentId(id)) == [] {
      NothingUnder(s.world.docs, DocumentId(id));
    }
  }

  // ---- submissions ----

  /** A submission touches no document and no reviewer, and at most adds a pending candidate. */
  lemma SubmitAdds(p: Policy, s: System, i: nat, f: string, c: string)
    requires Submission.Inv(s) && Enabled(s, StepSubmit(i, f, c))
    ensures var t := Next(p, s, StepSubmit(i, f, c));
      var before, after := s.world.store.candidates, t.world.store.candidates;
      && t.reviewers == s.reviewers && t.world.docs == s.world.docs
      && (after == before || exists x: Candidate ::
            x.id !in before && IsCandidateId(x.id) && x.status == Pending && after == before[x.id := x])
  {
    assert Submission.SubmitterOk(s, i);
    if s.submitters[i].pc.SaveCandidate? {
      var saved := s.submitters[i].pc.candidate;
      assert !Submission.CandidateStored(s, saved.id);
      assert Next(p, s, StepSubmit(i, f, c)).world.store.candidates == s.world.store.candidates[saved.id := saved];
    }
  }

  /** A reviewer relies only on its own candidate and that candidate's documents. */
  lemma ReviewerFrame(p: Policy, w: World, v: World, r: Reviewer)
    requires ReviewerOk(p, w, r)
    requires var id := r.review.candidateId;
      id in w.store.candidates ==> id in v.store.candidates && v.store.candidates[id] == w.store.candidates[id]
    requires var d := DocumentId(r.review.candidateId); Under(v.docs, d) == Under(w.docs, d)
    ensures ReviewerOk(p, v, r)
  {
    hide FinalDocument, Refused, Under;
  }

  lemma AddKeeps(p: Policy, s: System, t: System, x: Candidate)
    requires Inv(p, s) && t.reviewers == s.reviewers && t.world.docs == s.world.docs
    requires x.id !in s.world.store.candidates && IsCandidateId(x.id) && x.status == Pending
    requires t.world.store.candidates == s.world.store.candidates[x.id := x]
    ensures Inv(p, t)
  {
    assert forall j, id :: Holds(t, j, id) <==> Holds(s, j, id);
    forall j | j in t.reviewers ensures ReviewerOk(p, t.world, t.reviewers[j]) {
      ReviewerFrame(p, s.world, t.world, s.reviewers[j]);
    }
    hide ReviewerOk, Holds;
    forall id | id in t.world.store.candidates ensures CandidateOk(p, t, id) {
      assert id in s.world.store.candidates ==> CandidateOk(p, s, id);
    }
  }

  lemma SameReviewState(p: Policy, s: System, t: System)
    requires Inv(p, s) && t.reviewers == s.reviewers && t.world.docs == s.world.docs
    requires t.world.store.candidates == s.world.store.candidates
    ensures Inv(p, t)
  {
    assert forall j, id :: Holds(t, j, id) <==> Holds(s, j, id);
    forall j | j in t.reviewers ensures ReviewerOk(p, t.world, t.reviewers[j]) {
      ReviewerFrame(p, s.world, t.world, s.reviewers[j]);
    }
    hide ReviewerOk, Holds;
    forall id | id in t.world.store.candidates ensures CandidateOk(p, t, id) {
      assert CandidateOk(p, s, id);
    }
  }

  lemma SubmitKeeps(p: Policy, s: System, i: nat, f: string, c: string)
    requires Submission.Inv(s) && Inv(p, s) && Enabled(s, StepSubmit(i, f, c))
    ensures Inv(p, Next(p, s, StepSubmit(i, f, c)))
  {
    var t := Next(p, s, StepSubmit(i, f, c));
    SubmitAdds(p, s, i, f, c);
    hide *;
    if t.world.store.candidates == s.world.store.candidates {
      SameReviewState(p, s, t);
    } else {
      var x: Candidate :| x.id !in s.world.store.candidates && IsCandidateId(x.id) && x.status == Pending
        && t.world.store.candidates == s.world.store.candidates[x.id := x];
      AddKeeps(p, s, t, x);
    }
  }

  /** A review begins, or a reviewer dies, or something happens elsewhere. */
  ghost predicate Attends(s: System, t: System) {
    && t.world.store.candidates == s.world.store.candidates && t.world.docs == s.world.docs
    && s.reviewers.Keys <= t.reviewers.Keys
    && (forall j :: j in s.reviewers ==> t.reviewers[j] == s.reviewers[j].(alive := t.reviewers[j].alive))
    && (forall j :: j in t.reviewers && j !in s.reviewers ==> t.reviewers[j].pc == Claim)
  }

  lemma OtherActionsAttend(p: Policy, s: System, a: Action)
    requires Enabled(s, a) && !a.StepSubmit? && !a.StepReview?
    ensures Attends(s, Next(p, s, a))
  {
    hide SubmitNext, ReviewNext;
  }

  /** Being alive plays no part in what a reviewer relies on. */
  lemma AttendingReviewer(p: Policy, w: World, v: World, r: Reviewer, x: Reviewer)
    requires ReviewerOk(p, w, r) && x == r.(alive := x.alive)
    requires v.store.candidates == w.store.candidates && v.docs == w.docs
    ensures ReviewerOk(p, v, x)
  {
    hide FinalDocument, Refused, Under;
  }

  lemma NewReviewer(p: Policy, v: World, x: Reviewer)
    requires x.pc == Claim
    ensures ReviewerOk(p, v, x)
  {
  }

  lemma AttendKeeps(p: Policy, s: System, t: System)
    requires Inv(p, s) && Attends(s, t)
    ensures Inv(p, t)
  {
    assert forall j, id :: Holds(t, j, id) <==> Holds(s, j, id) by { hide Inv; }
    forall j | j in t.reviewers ensures ReviewerOk(p, t.world, t.reviewers[j]) {
      if j in s.reviewers {
        AttendingReviewer(p, s.world, t.world, s.reviewers[j], t.reviewers[j]);
      } else {
        NewReviewer(p, t.world, t.reviewers[j]);
      }
    }
    hide ReviewerOk, Holds, DocumentsOk;
    forall id | id in t.world.store.candidates ensures CandidateOk(p, t, id) {
      assert CandidateOk(p, s, id);
    }
  }

  lemma OtherActionsKeep(p: Policy, s: System, a: Action)
    requires Inv(p, s) && Enabled(s, a) && !a.StepSubmit? && !a.StepReview?
    ensures Inv(p, Next(p, s, a))
  {
    hide Next, Inv, Attends;
    OtherActionsAttend(p, s, a);
    AttendKeeps(p, s, Next(p, s, a));
  }

  // ---- reviews ----

  /** A step of reviewer `i` touches at most its own candidate, and that only if nobody else holds it. */
  ghost predicate Local(p: Policy, s: System, t: System, i: nat)
    requires i in s.reviewers
  {
    var id := s.reviewers[i].review.candidateId;
    var before, after := s.world.store.candidates, t.world.store.candidates;
    && i in t.reviewers && t.reviewers == s.reviewers[i := t.reviewers[i]]
    && t.reviewers[i].review == s.reviewers[i].review
    && after.Keys == before.Keys
    && (forall x :: x in before && x != id ==> after[x] == before[x])
    && (forall x :: IsCandidateId(x) && x != id ==>
          Under(t.world.docs, DocumentId(x)) == Under(s.world.docs, DocumentId(x)))
    && (id !in before ==> t.world.docs == s.world.docs)
    && (|| (after == before && t.world.docs == s.world.docs && (Holding(t.reviewers[i]) ==> Holding(s.reviewers[i])))
        || (forall j :: j != i ==> !Holds(s, j, id)))
  }

  /** Overwriting a candidate that nobody else holds is a local step. */
  lemma UpdateIsLocal(p: Policy, s: System, t: System, i: nat, d: Candidate)
    requires i in s.reviewers && i in t.reviewers && t.reviewers == s.reviewers[i := t.reviewers[i]]
    requires t.reviewers[i].review == s.reviewers[i].review
    requires s.reviewers[i].review.candidateId in s.world.store.candidates
    requires t.world.docs == s.world.docs
    requires t.world.store.candidates == s.world.store.candidates[s.reviewers[i].review.candidateId := d]
    requires forall j :: j != i ==> !Holds(s, j, s.reviewers[i].review.candidateId)
    ensures Local(p, s, t, i)
  {
    hide Holds, Holding, Under;
  }

  lemma OthersHold(p: Policy, s: System, t: System, i: nat, j: nat, x: string)
    requires i in s.reviewers && Local(p, s, t, i) && j != i
    ensures Holds(t, j, x) <==> Holds(s, j, x)
  {
    hide Holding, Under;
  }

  /** What another reviewer relies on is not touched. */
  lemma OtherReviewer(p: Policy, s: System, t: System, i: nat, j: nat)
    requires Inv(p, s) && i in s.reviewers && Local(p, s, t, i) && j in s.reviewers && j != i
    ensures j in t.reviewers && ReviewerOk(p, t.world, t.reviewers[j])
  {
    var x := t.reviewers[j].review.candidateId;
    assert ReviewerOk(p, s.world, s.reviewers[j]);
    if Holding(s.reviewers[j]) {
      HeldAlone(p, s, j);
      hide Inv, DocumentsOk;
      ReviewerFrame(p, s.world, t.world, s.reviewers[j]);
    } else {
      hide Inv, HolderOk;
    }
  }

  lemma OtherCandidate(p: Policy, s: System, t: System, i: nat, x: string)
    requires Inv(p, s) && i in s.reviewers && Local(p, s, t, i)
    requires x in t.world.store.candidates && x != s.reviewers[i].review.candidateId
    ensures CandidateOk(p, t, x)
  {
    assert x in s.world.store.candidates.Keys;
    assert CandidateOk(p, s, x);
    hide Inv, DocumentsOk;
    if t.world.store.candidates[x].status == Publishing {
      var j :| Holds(s, j, x);
      OthersHold(p, s, t, i, j, x);
    }
  }

  lemma StillOneHolder(p: Policy, s: System, t: System, i: nat, j: nat, k: nat, x: string)
    requires Inv(p, s) && i in s.reviewers && Local(p, s, t, i) && Holds(t, j, x) && Holds(t, k, x)
    ensures j == k
  {
    assert Holds(s, j, x) && Holds(s, k, x) ==> j == k;
    assert x == s.reviewers[i].review.candidateId && Holding(s.reviewers[i]) ==> Holds(s, i, x);
    hide Inv, Holding;
    if j != i { OthersHold(p, s, t, i, j, x); }
    if k != i { OthersHold(p, s, t, i, k, x); }
  }

  lemma LocalStepKeeps(p: Policy, s: System, t: System, i: nat)
    requires Inv(p, s) && i in s.reviewers && Local(p, s, t, i)
    requires ReviewerOk(p, t.world, t.reviewers[i])
    requires var id := s.reviewers[i].review.candidateId; id in t.world.store.candidates ==> CandidateOk(p, t, id)
    ensures Inv(p, t)
  {
    LocalFrame(p, s, t, i);
    hide Local, Holds, ReviewerOk, CandidateOk;
    forall j | j in t.reviewers ensures ReviewerOk(p, t.world, t.reviewers[j]) {
      if j != i { OtherReviewer(p, s, t, i, j); }
    }
    forall x | x in t.world.store.candidates ensures CandidateOk(p, t, x) {
      if x != s.reviewers[i].review.candidateId { OtherCandidate(p, s, t, i, x); }
    }
    forall j, k, x | Holds(t, j, x) && Holds(t, k, x) ensures j == k { StillOneHolder(p, s, t, i, j, k, x); }
  }

  lemma LocalFrame(p: Policy, s: System, t: System, i: nat)
    requires Inv(p, s) && i in s.reviewers && Local(p, s, t, i)
    ensures t.reviewers.Keys == s.reviewers.Keys
    ensures forall x :: IsCandidateId(x) && x !in t.world.store.candidates ==> Under(t.world.docs, DocumentId(x)) == []
  {
    hide Holds, ReviewerOk, CandidateOk;
    assert forall x :: x in t.world.store.candidates <==> x in s.world.store.candidates.Keys;
  }

  /** A reviewer that holds nothing moves on without touching candidates or documents. */
  lemma UnheldKeeps(p: Policy, s: System, t: System, i: nat)
    requires Inv(p, s) && i in s.reviewers && i in t.reviewers && t.reviewers == s.reviewers[i := t.reviewers[i]]
    requires t.world.store.candidates == s.world.store.candidates && t.world.docs == s.world.docs
    requires t.reviewers[i].review == s.reviewers[i].review
    requires !Holding(s.reviewers[i]) && !Holding(t.reviewers[i]) && ReviewerOk(p, t.world, t.reviewers[i])
    ensures Inv(p, t)
  {
    hide HolderOk, DocumentsOk, Holding;
    var id := s.reviewers[i].review.candidateId;
    assert forall j :: Holds(s, j, id) <==> Holds(t, j, id);
    assert id in s.world.store.candidates ==> CandidateOk(p, s, id);
    LocalStepKeeps(p, s, t, i);
  }

  lemma ClaimKeeps(p: Policy, s: System, i: nat, fault: Fault)
    requires Inv(p, s) && Enabled(s, StepReview(i, fault))
    requires s.reviewers[i].pc.Claim? || s.reviewers[i].pc.ClaimRetry?
    ensures Inv(p, Next(p, s, StepReview(i, fault)))
  {
    var t := Next(p, s, StepReview(i, fault));
    assert ReviewerOk(p, s.world, s.reviewers[i]);
    if t.world != s.world {
      ClaimClaims(p, s, i, fault);
      assert i in s.reviewers && i in t.reviewers;
      hide Inv, Next, ReviewerOk, Local, CandidateOk;
      ClaimSucceeds(p, s, t, i);
      ClaimantOk(p, s, t, i);
      LocalStepKeeps(p, s, t, i);
    } else {
      ClaimFails(p, s, i, fault);
    }
  }

  lemma ClaimFails(p: Policy, s: System, i: nat, fault: Fault)
    requires Inv(p, s) && Enabled(s, StepReview(i, fault))
    requires s.reviewers[i].pc.Claim? || s.reviewers[i].pc.ClaimRetry?
    requires Next(p, s, StepReview(i, fault)).world == s.world
    ensures Inv(p, Next(p, s, StepReview(i, fault)))
  {
    assert ReviewerOk(p, s.world, s.reviewers[i]);
    hide Inv, HolderOk, Scan, Draft, Seal;
    UnheldKeeps(p, s, Next(p, s, StepReview(i, fault)), i);
  }

  lemma NobodyHolds(p: Policy, s: System, id: string)
    requires Inv(p, s) && !StatusIs(s.world.store, id, Publishing)
    ensures forall j :: !Holds(s, j, id)
  {
    assert forall j :: Holds(s, j, id) ==> ReviewerOk(p, s.world, s.reviewers[j]);
  }

  /** A successful claim: the candidate was free, and this reviewer now has it. */
  predicate Claims(s: System, t: System, i: nat)
    requires i in s.reviewers
  {
    var r := s.reviewers[i].review;
    var before := s.world.store.candidates;
    && r.candidateId in before
    && (before[r.candidateId].status == Pending || (r.approved && before[r.candidateId].status == PublishFailed))
    && t.reviewers == s.reviewers[i := Reviewer(r, Load, s.reviewers[i].alive)]
    && t.world.docs == s.world.docs
    && t.world.store.candidates == before[r.candidateId := before[r.candidateId].(
         status := if r.approved then Publishing else Rejected, reviewedBy := Some(r.reviewer))]
  }

  lemma ClaimClaims(p: Policy, s: System, i: nat, fault: Fault)
    requires Enabled(s, StepReview(i, fault))
    requires s.reviewers[i].pc.Claim? || (s.reviewers[i].pc.ClaimRetry? && s.reviewers[i].review.approved)
    requires Next(p, s, StepReview(i, fault)).world != s.world
    ensures Claims(s, Next(p, s, StepReview(i, fault)), i)
  {
    hide Draft, Scan, Seal;
  }

  /** What is stored for a free candidate is still right once it is claimed. */
  lemma ClaimedDocuments(p: Policy, c: Candidate, d: Candidate, stored: seq<Document>)
    requires SameCore(c, d) && DocumentsOk(p, c, stored)
    requires (c.status == Pending && d.status == Rejected) || (c.status != Published && d.status == Publishing)
    ensures DocumentsOk(p, d, stored)
  {
    hide FinalDocument, Refused;
    SameVerdict(p, c, d);
  }

  lemma ClaimantOk(p: Policy, s: System, t: System, i: nat)
    requires i in s.reviewers && Claims(s, t, i)
    ensures ReviewerOk(p, t.world, t.reviewers[i])
    ensures s.reviewers[i].review.approved ==> Holds(t, i, s.reviewers[i].review.candidateId)
  {
    hide FinalDocument, Refused;
  }

  lemma FreeCandidate(p: Policy, s: System, i: nat)
    requires Inv(p, s) && i in s.reviewers
    requires var id := s.reviewers[i].review.candidateId;
      id in s.world.store.candidates && s.world.store.candidates[id].status != Publishing
    ensures CandidateOk(p, s, s.reviewers[i].review.candidateId)
    ensures forall j :: !Holds(s, j, s.reviewers[i].review.candidateId)
  {
    NobodyHolds(p, s, s.reviewers[i].review.candidateId);
  }

  lemma ClaimSucceeds(p: Policy, s: System, t: System, i: nat)
    requires Inv(p, s) && i in s.reviewers && Claims(s, t, i)
    ensures Local(p, s, t, i) && CandidateOk(p, t, s.reviewers[i].review.candidateId)
  {
    hide Inv, DocumentsOk, Holds, Local, ReviewerOk;
    var id := s.reviewers[i].review.candidateId;
    var c, d := s.world.store.candidates[id], t.world.store.candidates[id];
    FreeCandidate(p, s, i);
    UpdateIsLocal(p, s, t, i, d);
    ClaimedDocuments(p, c, d, Under(s.world.docs, DocumentId(id)));
    ClaimantOk(p, s, t, i);
  }

  lemma SameVerdict(p: Policy, a: Candidate, b: Candidate)
    requires SameCore(a, b)
    ensures Refused(p, a) == Refused(p, b)
    ensures forall reviewer :: FinalDocument(p, a, reviewer) == FinalDocument(p, b, reviewer)
  {
  }

  /** What a holder knows: its candidate is in publication, and nobody else holds it. */
  lemma HeldAlone(p: Policy, s: System, i: nat)
    requires Inv(p, s) && i in s.reviewers && Holding(s.reviewers[i])
    ensures var id := s.reviewers[i].review.candidateId;
      && Holds(s, i, id) && id in s.world.store.candidates
      && HolderOk(p, s.world, s.reviewers[i]) && ReviewerOk(p, s.world, s.reviewers[i]) && CandidateOk(p, s, id)
      && forall j :: j != i ==> !Holds(s, j, id)
  {
    var id := s.reviewers[i].review.candidateId;
    assert ReviewerOk(p, s.world, s.reviewers[i]);
    hide FinalDocument, Refused, DocumentsOk;
    assert Holds(s, i, id);
  }

  lemma LoadKeeps(p: Policy, s: System, i: nat, fault: Fault)
    requires Inv(p, s) && Enabled(s, StepReview(i, fault)) && Holding(s.reviewers[i]) && s.reviewers[i].pc.Load?
    ensures Inv(p, Next(p, s, StepReview(i, fault)))
  {
    hide FinalDocument, Refused, Inv;
    var t := Next(p, s, StepReview(i, fault));
    HeldAlone(p, s, i);
    assert Holds(t, i, s.reviewers[i].review.candidateId);
    LocalStepKeeps(p, s, t, i);
  }

  /** A holder's step that changes neither candidates nor documents. */
  lemma SameCandidate(p: Policy, s: System, t: System, i: nat)
    requires Inv(p, s) && i in s.reviewers && Holding(s.reviewers[i])
    requires t.world == s.world && i in t.reviewers && t.reviewers == s.reviewers[i := t.reviewers[i]]
    requires t.reviewers[i].review == s.reviewers[i].review
    requires ReviewerOk(p, t.world, t.reviewers[i]) && Holding(t.reviewers[i])
    ensures Inv(p, t)
  {
    HeldAlone(p, s, i);
    hide Inv, ReviewerOk, HolderOk, DocumentsOk;
    assert Holds(t, i, s.reviewers[i].review.candidateId);
    LocalStepKeeps(p, s, t, i);
  }

  /** The scan leads to a refusal exactly when the candidate is refused, and else to its final document. */
  lemma ScanNext(p: Policy, w: World, r: Reviewer, fault: Fault)
    requires r.pc.ListExisting?
    ensures WorldAfter(p, w, r, fault) == w
    ensures var c := r.pc.candidate;
      match ReviewerAfter(p, w, r, fault).pc
      case GiveUp(d) => d == c
      case Refuse(d) => d == c && Refused(p, c)
      case Publish(d, doc) => d == c && doc == FinalDocument(p, c, r.review.reviewer) && !Refused(p, c)
      case WriteFlags(d, doc) =>
        d == c.(riskFlags := d.riskFlags) && doc == FinalDocument(p, c, r.review.reviewer) && !Refused(p, c)
      case _ => false
  {
    var c := r.pc.candidate;
    RefusedIsFixed(p, c, c, r.review.reviewer);
    hide Refused, Blocked, Draft, Seal, RiskFlags, Listed;
  }

  lemma ScannedOk(p: Policy, w: World, r: Reviewer, fault: Fault)
    requires r.pc.ListExisting? && Holding(r) && HolderOk(p, w, r)
    ensures var next := ReviewerAfter(p, w, r, fault); Holding(next) && ReviewerOk(p, w, next)
  {
    ScanNext(p, w, r, fault);
    hide ReviewNext, FinalDocument, Refused;
  }

  lemma ScanKeeps(p: Policy, s: System, i: nat, fault: Fault)
    requires Inv(p, s) && Enabled(s, StepReview(i, fault)) && Holding(s.reviewers[i]) && s.reviewers[i].pc.ListExisting?
    ensures Inv(p, Next(p, s, StepReview(i, fault)))
  {
    HeldAlone(p, s, i);
    ReviewParts(p, s, i, fault);
    hide Inv, Next, ReviewNext, Holding, ReviewerOk, HolderOk, CandidateOk;
    ScanNext(p, s.world, s.reviewers[i], fault);
    ScannedOk(p, s.world, s.reviewers[i], fault);
    SameCandidate(p, s, Next(p, s, StepReview(i, fault)), i);
  }

  lemma WriteFlagsKeeps(p: Policy, s: System, i: nat, fault: Fault)
    requires Inv(p, s) && Enabled(s, StepReview(i, fault)) && Holding(s.reviewers[i]) && s.reviewers[i].pc.WriteFlags?
    ensures Inv(p, Next(p, s, StepReview(i, fault)))
  {
    hide FinalDocument, Refused, Inv;
    var t := Next(p, s, StepReview(i, fault));
    var id := s.reviewers[i].review.candidateId;
    HeldAlone(p, s, i);
    SameVerdict(p, s.world.store.candidates[id], t.world.store.candidates[id]);
    assert Holds(t, i, id);
    LocalStepKeeps(p, s, t, i);
  }

  /** Upserting the holder's document leaves every other candidate's documents alone. */
  lemma PublishIsLocal(p: Policy, s: System, t: System, i: nat, d: Document)
    requires i in s.reviewers && i in t.reviewers && t.reviewers == s.reviewers[i := t.reviewers[i]]
    requires t.reviewers[i].review == s.reviewers[i].review
    requires var id := s.reviewers[i].review.candidateId;
      && id in s.world.store.candidates && IsCandidateId(id) && d.id == DocumentId(id)
      && forall j :: j != i ==> !Holds(s, j, id)
    requires t.world.store == s.world.store
    requires t.world.docs == s.world.docs || t.world.docs == Upserted(s.world.docs, d)
    ensures Local(p, s, t, i)
    ensures t.world.docs == Upserted(s.world.docs, d) ==> Under(t.world.docs, d.id) == [d]
  {
    hide Upserted, Holds;
    var id := s.reviewers[i].review.candidateId;
    UnderUpsert(s.world.docs, d, d.id);
    forall x | IsCandidateId(x) && x != id
      ensures Under(Upserted(s.world.docs, d), DocumentId(x)) == Under(s.world.docs, DocumentId(x))
    {
      UnderUpsert(s.world.docs, d, DocumentId(x));
      if DocumentId(x) == DocumentId(id) { DocumentIdInjective(x, id); }
    }
  }

  lemma PublishStep(p: Policy, s: System, i: nat, fault: Fault)
    requires Enabled(s, StepReview(i, fault)) && s.reviewers[i].pc.Publish?
    ensures var t, r := Next(p, s, StepReview(i, fault)), s.reviewers[i];
      && t.reviewers == s.reviewers[i := AfterPublish(r, fault)]
      && t.world.store == s.world.store
      && t.world.docs == if fault == FailsBefore then s.world.docs else Upserted(s.world.docs, r.pc.document)
  {
  }

  lemma FinalIdentity(p: Policy, c: Candidate, reviewer: string)
    ensures FinalDocument(p, c, reviewer).id == DocumentId(c.id)
    ensures FinalDocument(p, c, reviewer).approvedBy == Some(reviewer)
  {
  }

  function AfterPublish(r: Reviewer, fault: Fault): Reviewer
    requires r.pc.Publish?
  {
    r.(pc := if fault == Works then Finalize else GiveUp(r.pc.candidate))
  }

  /** What the holder relies on, and its candidate's documents, after an attempted upsert. */
  lemma PublishedOk(p: Policy, w: World, v: World, r: Reviewer, fault: Fault)
    requires r.pc.Publish? && Holding(r) && HolderOk(p, w, r) && v.store == w.store
    requires var id := DocumentId(r.review.candidateId);
      Under(v.docs, id) == if fault == FailsBefore then Under(w.docs, id) else [r.pc.document]
    requires DocumentsOk(p, w.store.candidates[r.review.candidateId], Under(w.docs, DocumentId(r.review.candidateId)))
    ensures Holding(AfterPublish(r, fault)) && ReviewerOk(p, v, AfterPublish(r, fault))
    ensures DocumentsOk(p, v.store.candidates[r.review.candidateId], Under(v.docs, DocumentId(r.review.candidateId)))
  {
    hide FinalDocument, Refused, Under, Draft, Seal;
    FinalIdentity(p, w.store.candidates[r.review.candidateId], r.review.reviewer);
  }

  lemma PublishKeeps(p: Policy, s: System, i: nat, fault: Fault)
    requires Inv(p, s) && Enabled(s, StepReview(i, fault)) && s.reviewers[i].pc.Publish? && Holding(s.reviewers[i])
    ensures Inv(p, Next(p, s, StepReview(i, fault)))
  {
    var t, d := Next(p, s, StepReview(i, fault)), s.reviewers[i].pc.document;
    HeldAlone(p, s, i);
    assert d.id == DocumentId(s.reviewers[i].review.candidateId);
    hide Inv, Next, ReviewerOk, HolderOk, Holding, DocumentsOk, Upserted, Local;
    PublishStep(p, s, i, fault);
    PublishIsLocal(p, s, t, i, d);
    PublishedOk(p, s.world, t.world, s.reviewers[i], fault);
    assert Holds(t, i, s.reviewers[i].review.candidateId);
    LocalStepKeeps(p, s, t, i);
  }

  function ClosingStatus(pc: ReviewPc): Status {
    if pc.Refuse? then Rejected else if pc.GiveUp? then PublishFailed else Published
  }

  /** Reviewer `i` gives its candidate a final status, for which the documents are right, and lets go of it. */
  predicate LetsGo(p: Policy, s: System, t: System, i: nat, status: Status)
    requires i in s.reviewers
  {
    var r := s.reviewers[i].review;
    && i in t.reviewers && t.reviewers == s.reviewers[i := t.reviewers[i]] && t.reviewers[i].review == r
    && (t.reviewers[i].pc.AuditRefusal? || t.reviewers[i].pc.AuditFailure? || t.reviewers[i].pc.Reload?)
    && t.world.docs == s.world.docs && r.candidateId in s.world.store.candidates && status != Publishing
    && var d := s.world.store.candidates[r.candidateId].(status := status, reviewedBy := Some(r.reviewer));
    t.world.store.candidates == s.world.store.candidates[r.candidateId := d]
    && DocumentsOk(p, d, Under(t.world.docs, DocumentId(r.candidateId)))
  }

  lemma LetsGoLocally(p: Policy, s: System, t: System, i: nat, status: Status)
    requires Inv(p, s) && i in s.reviewers && Holding(s.reviewers[i]) && LetsGo(p, s, t, i, status)
    ensures Local(p, s, t, i) && CandidateOk(p, t, s.reviewers[i].review.candidateId)
  {
    HeldAlone(p, s, i);
    UpdateIsLocal(p, s, t, i, t.world.store.candidates[s.reviewers[i].review.candidateId]);
    hide Inv, Holds, HolderOk, DocumentsOk, Holding, Local;
  }

  lemma ClosedKeeps(p: Policy, s: System, t: System, i: nat, status: Status)
    requires Inv(p, s) && i in s.reviewers && Holding(s.reviewers[i]) && LetsGo(p, s, t, i, status)
    ensures Inv(p, t)
  {
    LetsGoLocally(p, s, t, i, status);
    LetsGoFree(p, s, t, i, status);
    hide *;
    LocalStepKeeps(p, s, t, i);
  }

  lemma LetsGoFree(p: Policy, s: System, t: System, i: nat, status: Status)
    requires i in s.reviewers && Holding(s.reviewers[i]) && LetsGo(p, s, t, i, status)
    ensures i in t.reviewers && ReviewerOk(p, t.world, t.reviewers[i])
  {
    hide DocumentsOk, HolderOk;
  }

  /** The record as its holder closes it. */
  function Closed(c: Candidate, r: Reviewer): Candidate {
    c.(status := ClosingStatus(r.pc), reviewedBy := Some(r.review.reviewer))
  }

  /** The documents are right for the status a holder closes with. */
  lemma ClosingDocuments(p: Policy, w: World, r: Reviewer)
    requires Holding(r) && HolderOk(p, w, r) && (r.pc.Refuse? || r.pc.GiveUp? || r.pc.Finalize?)
    requires var id := r.review.candidateId; DocumentsOk(p, w.store.candidates[id], Under(w.docs, DocumentId(id)))
    ensures var id := r.review.candidateId;
      DocumentsOk(p, Closed(w.store.candidates[id], r), Under(w.docs, DocumentId(id)))
  {
    hide FinalDocument, Refused, Under;
    SameVerdict(p, w.store.candidates[r.review.candidateId], Closed(w.store.candidates[r.review.candidateId], r));
  }

  lemma CloseLetsGo(p: Policy, s: System, i: nat, fault: Fault)
    requires Enabled(s, StepReview(i, fault))
    requires s.reviewers[i].pc.Refuse? || s.reviewers[i].pc.GiveUp? || s.reviewers[i].pc.Finalize?
    requires var r := s.reviewers[i].review;
      && StatusIs(s.world.store, r.candidateId, Publishing)
      && DocumentsOk(p, Closed(s.world.store.candidates[r.candidateId], s.reviewers[i]),
          Under(s.world.docs, DocumentId(r.candidateId)))
    ensures LetsGo(p, s, Next(p, s, StepReview(i, fault)), i, ClosingStatus(s.reviewers[i].pc))
  {
    hide DocumentsOk, Draft, Seal, Scan;
  }

  /** The closing compare-and-set of a holder always succeeds. */
  lemma CloseKeeps(p: Policy, s: System, i: nat, fault: Fault)
    requires Inv(p, s) && Enabled(s, StepReview(i, fault)) && Holding(s.reviewers[i])
    requires s.reviewers[i].pc.Refuse? || s.reviewers[i].pc.GiveUp? || s.reviewers[i].pc.Finalize?
    ensures Inv(p, Next(p, s, StepReview(i, fault)))
  {
    HeldAlone(p, s, i);
    hide Inv, Next, LetsGo, DocumentsOk, Holding;
    ClosingDocuments(p, s.world, s.reviewers[i]);
    CloseLetsGo(p, s, i, fault);
    ClosedKeeps(p, s, Next(p, s, StepReview(i, fault)), i, ClosingStatus(s.reviewers[i].pc));
  }

  /** The remaining steps change neither candidates nor documents. */
  lemma QuietStepKeeps(p: Policy, s: System, i: nat, fault: Fault)
    requires Inv(p, s) && Enabled(s, StepReview(i, fault)) && !Holding(s.reviewers[i])
    requires !s.reviewers[i].pc.Claim? && !s.reviewers[i].pc.ClaimRetry?
    ensures Inv(p, Next(p, s, StepReview(i, fault)))
  {
    assert ReviewerOk(p, s.world, s.reviewers[i]);
    ReviewParts(p, s, i, fault);
    hide Inv, Next, ReviewerOk, Holding;
    QuietNext(p, s.world, s.reviewers[i], fault);
    UnheldKeeps(p, s, Next(p, s, StepReview(i, fault)), i);
  }

  lemma QuietNext(p: Policy, w: World, r: Reviewer, fault: Fault)
    requires ReviewerOk(p, w, r) && !Holding(r) && !r.pc.Claim? && !r.pc.ClaimRetry?
    ensures var v, next := WorldAfter(p, w, r, fault), ReviewerAfter(p, w, r, fault);
      v.docs == w.docs && v.store.candidates == w.store.candidates && !Holding(next) && ReviewerOk(p, v, next)
  {
    hide HolderOk, Scan, Draft, Seal;
  }

  /** Whatever a step writes back, it writes under an existing identifier. */
  lemma WritesExisting(p: Policy, s: System, i: nat)
    requires Inv(p, s) && i in s.reviewers
    ensures s.reviewers[i].pc != Unexpected
    ensures s.reviewers[i].pc.WriteFlags? ==> s.reviewers[i].pc.candidate.id in s.world.store.candidates
    ensures ApprovalOnly(s.reviewers[i].pc) ==> s.reviewers[i].review.approved
  {
    assert ReviewerOk(p, s.world, s.reviewers[i]);
    if s.reviewers[i].pc.WriteFlags? {
      HeldAlone(p, s, i);
    }
    hide Inv, FinalDocument, Refused, DocumentsOk;
  }

  predicate AllowedEdge(before: Status, after: Status) {
    || before == after
    || (before == Pending && (after == Publishing || after == Rejected))
    || (before == PublishFailed && after == Publishing)
    || (before == Publishing && (after == Published || after == PublishFailed || after == Rejected))
  }

  predicate IsStatusWrite(before: map<string, Candidate>, after: map<string, Candidate>, r: Review) {
    && r.candidateId in before && r.candidateId in after
    && AllowedEdge(before[r.candidateId].status, after[r.candidateId].status)
    && before[r.candidateId].status != Published && before[r.candidateId].status != Rejected
    && after == before[r.candidateId := before[r.candidateId].(status := after[r.candidateId].status,
        reviewedBy := Some(r.reviewer))]
  }

  /** A review step that changes candidates at all sets status and reviewer of its own, along one edge. */
  lemma StatusNext(p: Policy, w: World, r: Reviewer, fault: Fault)
    requires !r.pc.WriteFlags? && r.pc != Unexpected
    ensures var before, after := w.store.candidates, WorldAfter(p, w, r, fault).store.candidates;
      after == before || IsStatusWrite(before, after, r.review)
  {
    hide Scan, Draft, Seal;
  }

  lemma StatusWrite(p: Policy, s: System, i: nat, fault: Fault)
    requires Enabled(s, StepReview(i, fault)) && !s.reviewers[i].pc.WriteFlags?
    requires s.reviewers[i].pc != Unexpected
    ensures var r := s.reviewers[i].review;
      var before, after := s.world.store.candidates, Next(p, s, StepReview(i, fault)).world.store.candidates;
      after == before || IsStatusWrite(before, after, r)
  {
    ReviewParts(p, s, i, fault);
    hide Next, ReviewNext, IsStatusWrite;
    StatusNext(p, s.world, s.reviewers[i], fault);
  }

  lemma FlagsKeepKeys(p: Policy, s: System, i: nat, fault: Fault)
    requires Enabled(s, StepReview(i, fault)) && s.reviewers[i].pc.WriteFlags?
    requires s.reviewers[i].pc.candidate.id in s.world.store.candidates
    ensures Next(p, s, StepReview(i, fault)).world.store.candidates.Keys == s.world.store.candidates.Keys
  {
    hide Scan, Draft, Seal;
  }

  /** A review never adds or removes a candidate. */
  lemma ReviewKeepsKeys(p: Policy, s: System, i: nat, fault: Fault)
    requires Inv(p, s) && Enabled(s, StepReview(i, fault))
    ensures Next(p, s, StepReview(i, fault)).world.store.candidates.Keys == s.world.store.candidates.Keys
  {
    assert i in s.reviewers;
    hide Inv, ReviewNext, Scan, Draft, Seal;
    WritesExisting(p, s, i);
    if s.reviewers[i].pc.WriteFlags? {
      FlagsKeepKeys(p, s, i, fault);
    } else {
      StatusWrite(p, s, i, fault);
    }
  }

  lemma ReviewKeeps(p: Policy, s: System, i: nat, fault: Fault)
    requires Inv(p, s) && Enabled(s, StepReview(i, fault))
    ensures Inv(p, Next(p, s, StepReview(i, fault)))
    ensures Next(p, s, StepReview(i, fault)).world.store.candidates.Keys == s.world.store.candidates.Keys
  {
    var r := s.reviewers[i];
    assert i in s.reviewers;
    hide Inv, Next, ReviewNext;
    ReviewKeepsKeys(p, s, i, fault);
    WritesExisting(p, s, i);
    if r.pc.Claim? || r.pc.ClaimRetry? { ClaimKeeps(p, s, i, fault); }
    else if !Holding(r) { QuietStepKeeps(p, s, i, fault); }
    else if r.pc.Publish? { PublishKeeps(p, s, i, fault); }
    else if r.pc.Load? { LoadKeeps(p, s, i, fault); }
    else if r.pc.ListExisting? { ScanKeeps(p, s, i, fault); }
    else if r.pc.WriteFlags? { WriteFlagsKeeps(p, s, i, fault); }
    else { CloseKeeps(p, s, i, fault); }
  }
}
