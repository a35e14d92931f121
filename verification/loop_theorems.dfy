/** The guarantees of the feedback loop, over every run of any number of callers. */
module LoopTheorems {
  import opened Text
  import opened Domain
  import opened OperationsStore
  import opened Knowledge
  import opened FeedbackLoop
  import opened LoopSystem
  import opened Publication
  import Submission

  lemma NextKeeps(p: Policy, s: System, a: Action)
    requires Enabled(s, a) && Submission.Inv(s) && Publication.Inv(p, s)
    ensures Submission.Inv(Next(p, s, a)) && Publication.Inv(p, Next(p, s, a))
  {
    match a
    case StepSubmit(i, f, c) =>
      SubmitKeeps(p, s, i, f, c);
      Submission.StepSubmitKeeps(p, s, i, f, c);
    case StepReview(i, fault) =>
      ReviewKeeps(p, s, i, fault);
      Submission.StepReviewKeeps(p, s, i, fault);
    case Chat(_) =>
      OtherActionsKeep(p, s, a);
      Submission.ChatKeeps(p, s, a);
    case BeginSubmit(_, _) =>
      OtherActionsKeep(p, s, a);
      Submission.CallerActionsKeep(p, s, a);
    case KillSubmit(_) =>
      OtherActionsKeep(p, s, a);
      Submission.CallerActionsKeep(p, s, a);
    case BeginReview(_, _) =>
      OtherActionsKeep(p, s, a);
      Submission.ReviewerActionsKeep(p, s, a);
    case KillReview(_) =>
      OtherActionsKeep(p, s, a);
      Submission.ReviewerActionsKeep(p, s, a);
  }

  lemma {:induction false} RunKeeps(p: Policy, trace: seq<System>, actions: seq<Action>, k: nat)
    requires IsRun(p, trace, actions) && k < |trace|
    ensures Submission.Inv(trace[k]) && Publication.Inv(p, trace[k])
  {
    if k == 0 {
      Submission.InvInitially(trace[0]);
      Publication.InvInitially(p, trace[0]);
    } else {
      RunKeeps(p, trace, actions, k - 1);
      NextKeeps(p, trace[k - 1], actions[k - 1]);
    }
  }

  // ---- one reviewer at a time ----

  /** A candidate is being published exactly while one reviewer holds it, and never two. */
  lemma OneOwner(p: Policy, trace: seq<System>, actions: seq<Action>, k: nat, id: string)
    requires IsRun(p, trace, actions) && k < |trace|
    ensures StatusIs(trace[k].world.store, id, Publishing) <==> exists i :: Holds(trace[k], i, id)
    ensures forall i, j :: Holds(trace[k], i, id) && Holds(trace[k], j, id) ==> i == j
  {
    RunKeeps(p, trace, actions, k);
    var s := trace[k];
    if StatusIs(s.world.store, id, Publishing) {
      assert CandidateOk(p, s, id);
    }
    forall i | Holds(s, i, id) ensures StatusIs(s.world.store, id, Publishing) {
      assert ReviewerOk(p, s.world, s.reviewers[i]);
    }
  }

  /**
   * The reviewer holds a candidate but will take no further step: it was killed, or its document could not
   * be built.
   */
  predicate Abandoned(r: Reviewer) {
    Holding(r) && (!r.alive || r.pc.ReviewDone?)
  }

  /** After the claim, the review goes on exactly when the reviewer's name fits the document's field. */
  lemma ReviewGoesOnIff(p: Policy, s: System, i: nat, fault: Fault)
    requires Publication.Inv(p, s) && Enabled(s, StepReview(i, fault))
    requires s.reviewers[i].pc.Load? && s.reviewers[i].review.approved
    ensures Abandoned(Next(p, s, StepReview(i, fault)).reviewers[i]) <==> |s.reviewers[i].review.reviewer| > 128
  {
    assert ReviewerOk(p, s.world, s.reviewers[i]);
    hide Publication.Inv, ReviewerOk, HolderOk, Scan, Draft, Seal;
  }

  predicate Careful(a: Action) {
    && !a.KillReview?
    && (a.BeginReview? ==> !a.review.approved || |a.review.reviewer| <= MAX_NAME)
  }

  predicate NameFits(r: Reviewer) {
    r.alive && (r.review.approved ==> |r.review.reviewer| <= MAX_NAME) && r.pc != ReviewDone(Err(InvalidDocument))
  }

  lemma ReviewKeepsFit(p: Policy, w: World, r: Reviewer, fault: Fault)
    requires NameFits(r) && !r.pc.ReviewDone?
    ensures NameFits(ReviewerAfter(p, w, r, fault))
  {
    hide Scan, Draft, Seal, CompareAndSet;
  }

  lemma StepKeepsFit(p: Policy, s: System, a: Action, i: nat)
    requires Enabled(s, a) && Careful(a) && i in Next(p, s, a).reviewers
    requires (i in s.reviewers ==> NameFits(s.reviewers[i]))
    ensures NameFits(Next(p, s, a).reviewers[i])
  {
    hide SubmitNext, ReviewNext;
    if a.StepReview? && a.caller == i {
      ReviewParts(p, s, i, a.fault);
      ReviewKeepsFit(p, s.world, s.reviewers[i], a.fault);
    }
  }

  lemma {:induction false} NamesFit(p: Policy, trace: seq<System>, actions: seq<Action>, k: nat)
    requires IsRun(p, trace, actions) && k < |trace|
    requires forall a :: a in actions ==> Careful(a)
    ensures forall i :: i in trace[k].reviewers ==> NameFits(trace[k].reviewers[i])
  {
    hide Next, NameFits, Careful;
    if k > 0 {
      NamesFit(p, trace, actions, k - 1);
      assert Careful(actions[k - 1]);
      forall i | i in trace[k].reviewers ensures NameFits(trace[k].reviewers[i]) {
        StepKeepsFit(p, trace[k - 1], actions[k - 1], i);
      }
    }
  }

  /** With no reviewer killed and every approver's name within bounds, whoever holds a candidate can always go on. */
  lemma NoOrphans(p: Policy, trace: seq<System>, actions: seq<Action>, k: nat, id: string)
    requires IsRun(p, trace, actions) && k < |trace|
    requires forall a :: a in actions ==> Careful(a)
    requires StatusIs(trace[k].world.store, id, Publishing)
    ensures exists i :: Holds(trace[k], i, id) && Enabled(trace[k], StepReview(i, Works))
  {
    OneOwner(p, trace, actions, k, id);
    NamesFit(p, trace, actions, k);
    var i :| Holds(trace[k], i, id);
    assert Enabled(trace[k], StepReview(i, Works));
  }

  lemma HeldIsPublishing(p: Policy, s: System, i: nat)
    requires Publication.Inv(p, s) && i in s.reviewers && Holding(s.reviewers[i])
    ensures StatusIs(s.world.store, s.reviewers[i].review.candidateId, Publishing)
  {
    assert ReviewerOk(p, s.world, s.reviewers[i]);
  }

  lemma AbandonedStays(p: Policy, s: System, a: Action, i: nat)
    requires Enabled(s, a) && i in s.reviewers && Abandoned(s.reviewers[i])
    ensures var t := Next(p, s, a);
      i in t.reviewers && Abandoned(t.reviewers[i]) && t.reviewers[i].review == s.reviewers[i].review
  {
    hide SubmitNext, ReviewNext;
  }

  /** A candidate whose holder is gone stays in publication for ever: no later review can claim it. */
  lemma {:induction false} OrphanedForever(p: Policy, trace: seq<System>, actions: seq<Action>, k: nat, m: nat, i: nat)
    requires IsRun(p, trace, actions) && k <= m < |trace|
    requires i in trace[k].reviewers && Abandoned(trace[k].reviewers[i])
    ensures i in trace[m].reviewers && Abandoned(trace[m].reviewers[i])
    ensures trace[m].reviewers[i].review == trace[k].reviewers[i].review
    ensures StatusIs(trace[m].world.store, trace[k].reviewers[i].review.candidateId, Publishing)
    decreases m
  {
    hide Publication.Inv, Submission.Inv, Next;
    if m > k {
      OrphanedForever(p, trace, actions, k, m - 1, i);
      AbandonedStays(p, trace[m - 1], actions[m - 1], i);
    }
    RunKeeps(p, trace, actions, m);
    HeldIsPublishing(p, trace[m], i);
  }

  /** A 129-character reviewer name is enough to strand a candidate. */
  lemma LongNameStrands(p: Policy, s: System, i: nat)
    requires Publication.Inv(p, s) && Enabled(s, StepReview(i, Works))
    requires s.reviewers[i].pc == Claim && s.reviewers[i].review.approved
    requires s.reviewers[i].review.reviewer == seq(129, _ => 'r')
    requires StatusIs(s.world.store, s.reviewers[i].review.candidateId, Pending)
    ensures var t := Next(p, s, StepReview(i, Works));
      Enabled(t, StepReview(i, Works)) &&
      var u := Next(p, t, StepReview(i, Works));
      Abandoned(u.reviewers[i]) && u.reviewers[i].pc == ReviewDone(Err(InvalidDocument))
      && StatusIs(u.world.store, s.reviewers[i].review.candidateId, Publishing)
  {
    hide Publication.Inv, Scan, Draft, Seal;
  }

  /** Every closing compare-and-set finds the candidate in publication; the error of a changed state cannot arise. */
  lemma ClosingSucceeds(p: Policy, trace: seq<System>, actions: seq<Action>, k: nat, i: nat)
    requires IsRun(p, trace, actions) && k < |trace| && i in trace[k].reviewers
    ensures var r := trace[k].reviewers[i];
      && r.pc != Unexpected && r.pc != ReviewDone(Err(StateChanged)) && r.pc != ReviewDone(Err(CandidateVanished))
      && (r.pc.Finalize? || r.pc.Refuse? || r.pc.GiveUp? ==>
            CompareAndSet(trace[k].world.store, r.review.candidateId, Publishing, ClosingStatus(r.pc),
                r.review.reviewer).1)
  {
    RunKeeps(p, trace, actions, k);
    assert ReviewerOk(p, trace[k].world, trace[k].reviewers[i]);
  }

  // ---- the life of a candidate ----

  predicate Progress(c: Candidate, d: Candidate) {
    && SameCore(c, d) && AllowedEdge(c.status, d.status)
    && (c.status == Published || c.status == Rejected ==> c == d)
  }

  lemma WriteBack(p: Policy, s: System, i: nat, fault: Fault)
    requires Publication.Inv(p, s) && Enabled(s, StepReview(i, fault)) && s.reviewers[i].pc.WriteFlags?
    ensures var id := s.reviewers[i].review.candidateId;
      var before := s.world.store.candidates;
      && id in before
      && Next(p, s, StepReview(i, fault)).world.store.candidates
         == before[id := before[id].(riskFlags := s.reviewers[i].pc.candidate.riskFlags)]
  {
    assert ReviewerOk(p, s.world, s.reviewers[i]);
    assert CandidateOk(p, s, s.reviewers[i].review.candidateId);
  }

  predicate IsFlagWrite(before: map<string, Candidate>, after: map<string, Candidate>, id: string) {
    && id in before && id in after && before[id].status == Publishing
    && after == before[id := before[id].(riskFlags := after[id].riskFlags)]
  }

  lemma FlagWrite(p: Policy, s: System, i: nat, fault: Fault)
    requires Publication.Inv(p, s) && Enabled(s, StepReview(i, fault)) && s.reviewers[i].pc.WriteFlags?
    ensures IsFlagWrite(s.world.store.candidates, Next(p, s, StepReview(i, fault)).world.store.candidates,
                        s.reviewers[i].review.candidateId)
  {
    assert ReviewerOk(p, s.world, s.reviewers[i]);
    hide Publication.Inv, ReviewerOk, HolderOk;
    WriteBack(p, s, i, fault);
  }

  lemma WritesProgress(before: map<string, Candidate>, after: map<string, Candidate>, r: Review, id: string)
    requires after == before || IsStatusWrite(before, after, r) || IsFlagWrite(before, after, r.candidateId)
    requires id in before
    ensures id in after && Progress(before[id], after[id])
  {
  }

  lemma ReviewAlongEdges(p: Policy, s: System, i: nat, fault: Fault, id: string)
    requires Publication.Inv(p, s) && Enabled(s, StepReview(i, fault)) && id in s.world.store.candidates
    ensures var t := Next(p, s, StepReview(i, fault));
      id in t.world.store.candidates && Progress(s.world.store.candidates[id], t.world.store.candidates[id])
  {
    assert s.reviewers[i].pc != Unexpected by { assert ReviewerOk(p, s.world, s.reviewers[i]); }
    hide *;
    if s.reviewers[i].pc.WriteFlags? {
      FlagWrite(p, s, i, fault);
    } else {
      StatusWrite(p, s, i, fault);
    }
    WritesProgress(s.world.store.candidates, Next(p, s, StepReview(i, fault)).world.store.candidates,
                   s.reviewers[i].review, id);
  }

  /** Every step moves every candidate along an allowed edge and keeps what the submission wrote. */
  lemma StepAlongEdges(p: Policy, s: System, a: Action, id: string)
    requires Submission.Inv(s) && Publication.Inv(p, s) && Enabled(s, a) && id in s.world.store.candidates
    ensures var t := Next(p, s, a);
      id in t.world.store.candidates && Progress(s.world.store.candidates[id], t.world.store.candidates[id])
  {
    hide Publication.Inv, Submission.Inv, ReviewNext, SubmitNext;
    if a.StepReview? {
      ReviewAlongEdges(p, s, a.caller, a.fault, id);
    } else if a.StepSubmit? {
      SubmitAddsCandidate(p, s, a.caller, a.feedbackHex, a.candidateHex, id);
    }
  }

  /** A submission never overwrites a stored candidate. */
  lemma SubmitAddsCandidate(p: Policy, s: System, i: nat, f: string, c: string, id: string)
    requires Submission.Inv(s) && Enabled(s, StepSubmit(i, f, c)) && id in s.world.store.candidates
    ensures var t := Next(p, s, StepSubmit(i, f, c));
      id in t.world.store.candidates && t.world.store.candidates[id] == s.world.store.candidates[id]
  {
    hide *;
    SubmitAdds(p, s, i, f, c);
  }

  /** Statuses follow the allowed edges through any run; published and rejected records never change again. */
  lemma {:induction false} LifeOfCandidate(
      p: Policy, trace: seq<System>, actions: seq<Action>, k: nat, m: nat, id: string)
    requires IsRun(p, trace, actions) && k <= m < |trace| && id in trace[k].world.store.candidates
    ensures id in trace[m].world.store.candidates
    ensures SameCore(trace[k].world.store.candidates[id], trace[m].world.store.candidates[id])
    ensures var c := trace[k].world.store.candidates[id];
      c.status == Published || c.status == Rejected ==> trace[m].world.store.candidates[id] == c
    ensures m == k + 1 ==>
        AllowedEdge(trace[k].world.store.candidates[id].status, trace[m].world.store.candidates[id].status)
    decreases m
  {
    hide Publication.Inv, Submission.Inv, Next;
    if m > k {
      LifeOfCandidate(p, trace, actions, k, m - 1, id);
      RunKeeps(p, trace, actions, m - 1);
      StepAlongEdges(p, trace[m - 1], actions[m - 1], id);
    }
  }

  /** Writing back a whole snapshot changes the risk flags of one candidate and nothing else. */
  lemma SnapshotLosesNothing(p: Policy, trace: seq<System>, actions: seq<Action>, k: nat, i: nat)
    requires IsRun(p, trace, actions) && k < |actions| && actions[k].StepReview? && actions[k].caller == i
    requires trace[k].reviewers[i].pc.WriteFlags?
    ensures var id := trace[k].reviewers[i].review.candidateId;
      var before := trace[k].world.store.candidates;
      && id in before
      && trace[k + 1].world.store.candidates
         == before[id := before[id].(riskFlags := trace[k].reviewers[i].pc.candidate.riskFlags)]
  {
    RunKeeps(p, trace, actions, k);
    WriteBack(p, trace[k], i, actions[k].fault);
  }

  // ---- what gets published ----

  /** What the document of a candidate that is not refused says. */
  lemma FinalFields(p: Policy, c: Candidate, reviewer: string)
    requires !Refused(p, c)
    ensures var d := FinalDocument(p, c, reviewer);
      && var suggested := Strip(c.suggestedAnswer, IsSpace);
      && d.content == (if suggested == "" then c.currentAnswer else suggested)
      && d.approvedBy == Some(reviewer) && d.keywords == [c.question] && d.domain == c.domain
      && d.trustLevel == Verified && d.evidenceOnly && d.tenantId == "global"
      && d.departments == [] && d.channels == [] && d.validFrom.None? && d.validUntil.None?
      && d.title == "反馈改进：" + (if |c.question| <= 30 then c.question else c.question[..30])
      && d.version == "feedback-" + MapChars(c.id, p.lower) && d.source == "客服反馈审核"
      && d.contentHash == p.digest(Join("\0", SealedFields(d)))
      && !Blocked(p, d)
  {
    SealText(p, Draft(p, c, reviewer));
    hide Join, Strip;
    RefusedIsFixed(p, c, c, reviewer);
    assert PolicyText(FinalDocument(p, c, reviewer)) == PolicyText(Draft(p, c, reviewer));
  }

  /** A published candidate has exactly one document, with the reviewed answer and the recorded approver. */
  lemma PublishedDocument(p: Policy, trace: seq<System>, actions: seq<Action>, k: nat, id: string)
    requires IsRun(p, trace, actions) && k < |trace| && StatusIs(trace[k].world.store, id, Published)
    ensures var c := trace[k].world.store.candidates[id];
      var stored := Under(trace[k].world.docs, DocumentId(id));
      && |stored| == 1
      && var suggested := Strip(c.suggestedAnswer, IsSpace);
      && stored[0].content == (if suggested == "" then c.currentAnswer else suggested)
      && stored[0].approvedBy == c.reviewedBy && c.reviewedBy.Some?
      && stored[0].keywords == [c.question] && stored[0].domain == c.domain
      && stored[0].trustLevel == Verified && stored[0].evidenceOnly && stored[0].tenantId == "global"
      && stored[0].departments == [] && stored[0].channels == []
      && stored[0].validFrom.None? && stored[0].validUntil.None?
      && stored[0].title == "反馈改进：" + (if |c.question| <= 30 then c.question else c.question[..30])
      && stored[0].version == "feedback-" + MapChars(id, p.lower) && stored[0].source == "客服反馈审核"
      && stored[0].contentHash == p.digest(Join("\0", SealedFields(stored[0])))
      && !Blocked(p, stored[0])
  {
    RunKeeps(p, trace, actions, k);
    assert CandidateOk(p, trace[k], id);
    var c := trace[k].world.store.candidates[id];
    hide Inv, Submission.Inv, FinalDocument, Refused, Blocked, Join, Strip, Under, IsRun;
    FinalFields(p, c, c.reviewedBy.value);
  }

  /** Neither a pending nor a rejected candidate has a document, however often publication was tried. */
  lemma UnpublishedHasNoDocument(p: Policy, trace: seq<System>, actions: seq<Action>, k: nat, id: string)
    requires IsRun(p, trace, actions) && k < |trace|
    requires StatusIs(trace[k].world.store, id, Rejected) || StatusIs(trace[k].world.store, id, Pending)
    ensures forall d :: d in trace[k].world.docs ==> d.id != DocumentId(id)
  {
    RunKeeps(p, trace, actions, k);
    assert CandidateOk(p, trace[k], id);
    assert forall d :: d !in Under(trace[k].world.docs, DocumentId(id));
  }

  /** What a refusing policy decides about a candidate it decides at every attempt: nothing of it is ever published. */
  lemma RefusedIsNeverPublished(p: Policy, trace: seq<System>, actions: seq<Action>, k: nat, id: string)
    requires IsRun(p, trace, actions) && k < |trace| && id in trace[k].world.store.candidates
    requires Refused(p, trace[k].world.store.candidates[id])
    ensures trace[k].world.store.candidates[id].status != Published
    ensures Under(trace[k].world.docs, DocumentId(id)) == []
  {
    RunKeeps(p, trace, actions, k);
    assert CandidateOk(p, trace[k], id);
  }

  /** A candidate is refused exactly if the policy objects to the three lines that it would publish. */
  lemma RefusedIff(p: Policy, c: Candidate)
    ensures var suggested := Strip(c.suggestedAnswer, IsSpace);
      var title := "反馈改进：" + (if |c.question| <= 30 then c.question else c.question[..30]);
      var lines := title + "\n" + (if suggested == "" then c.currentAnswer else suggested) + "\n" + c.question;
      Refused(p, c) <==> p.injection(lines) || p.redact(lines) != lines
  {
    var d := Draft(p, c, "");
    PolicyTextIs(d);
    assert d.title == "反馈改进：" + if |c.question| <= 30 then c.question else c.question[..30];
    assert [c.question][..0] == [];
    assert WithLines(d.title + "\n" + d.content, [c.question]) == d.title + "\n" + d.content + "\n" + c.question;
    hide Strip, PolicyText, WithLines;
  }

  /** What a candidate with forbidden words in its question or its answer would publish has them as well. */
  lemma ForbiddenIsRefused(p: Policy, c: Candidate, words: string)
    requires Forbids(p, words)
    requires var suggested := Strip(c.suggestedAnswer, IsSpace);
      Contains(c.question, words) || Contains(if suggested == "" then c.currentAnswer else suggested, words)
    ensures Refused(p, c)
  {
    var d := Draft(p, c, "");
    assert c.question in d.keywords;
    assert HasWords(d, words);
    ForbiddenIsBlocked(p, d, words);
  }

  /** A candidate with forbidden words in its question or in the answer it proposes is never published. */
  lemma ForbiddenIsNeverPublished(
      p: Policy, trace: seq<System>, actions: seq<Action>, k: nat, id: string, words: string)
    requires IsRun(p, trace, actions) && k < |trace| && id in trace[k].world.store.candidates && Forbids(p, words)
    requires var c := trace[k].world.store.candidates[id];
      var suggested := Strip(c.suggestedAnswer, IsSpace);
      Contains(c.question, words) || Contains(if suggested == "" then c.currentAnswer else suggested, words)
    ensures trace[k].world.store.candidates[id].status != Published
    ensures |id| >= 3 && forall d :: d in trace[k].world.docs ==> d.id != "KB-FEEDBACK-" + id[3..]
  {
    hide Forbids;
    ForbiddenIsRefused(p, trace[k].world.store.candidates[id], words);
    RefusedIsNeverPublished(p, trace, actions, k, id);
    RunKeeps(p, trace, actions, k);
    assert CandidateOk(p, trace[k], id);
    assert forall d :: d !in Under(trace[k].world.docs, DocumentId(id));
  }

  /** No document that stems from feedback ever has forbidden words in any of its parts. */
  lemma PublishedIsClean(p: Policy, trace: seq<System>, actions: seq<Action>, k: nat, d: Document, words: string)
    requires IsRun(p, trace, actions) && k < |trace| && d in trace[k].world.docs && "KB-FEEDBACK-" <= d.id
    requires Forbids(p, words)
    ensures !HasWords(d, words)
  {
    RunKeeps(p, trace, actions, k);
    var c := PublishedFrom(p, trace[k], d);
    hide *;
    if HasWords(d, words) {
      ForbiddenIsBlocked(p, d, words);
    }
  }

  /** The candidate identifier behind a document identifier. */
  lemma IdBehind(id: string) returns (candidateId: string)
    requires "KB-FEEDBACK-" <= id
    ensures DocumentId(candidateId) == id && IsCandidateId(candidateId)
  {
    var prefix := "KB-FEEDBACK-";
    candidateId := "KC-" + id[|prefix|..];
    assert candidateId[3..] == id[|prefix|..];
  }

  lemma StoredDocument(p: Policy, c: Candidate, stored: seq<Document>, d: Document)
    requires DocumentsOk(p, c, stored) && d in stored
    ensures d.approvedBy.Some? && d == FinalDocument(p, c, d.approvedBy.value) && !Refused(p, c)
  {
    hide Refused, PolicyText, Answer;
    assert d == stored[0];
  }

  /** A document of feedback is the document of a stored candidate that is not refused. */
  lemma PublishedFrom(p: Policy, s: System, d: Document) returns (c: Candidate)
    requires Publication.Inv(p, s) && d in s.world.docs && "KB-FEEDBACK-" <= d.id
    ensures c.id in s.world.store.candidates && c == s.world.store.candidates[c.id] && d.id == DocumentId(c.id)
    ensures !Blocked(p, d) && d.domain == c.domain
  {
    var id := IdBehind(d.id);
    assert d in Under(s.world.docs, DocumentId(id));
    hide Under, FinalDocument, Refused, Blocked, DocumentsOk, DocumentId, IsCandidateId, ReviewerOk, Holds;
    assert id in s.world.store.candidates;
    assert CandidateOk(p, s, id);
    c := s.world.store.candidates[id];
    hide Inv;
    StoredDocument(p, c, Under(s.world.docs, DocumentId(id)), d);
    FinalFields(p, c, d.approvedBy.value);
  }

  // ---- submissions ----

  /** At most one record per user and non-empty key, ever. */
  lemma OneRecordPerKey(p: Policy, trace: seq<System>, actions: seq<Action>, k: nat, a: nat, b: nat)
    requires IsRun(p, trace, actions) && k < |trace|
    requires a < |trace[k].world.store.feedback| && b < |trace[k].world.store.feedback|
    requires var f, g := trace[k].world.store.feedback[a], trace[k].world.store.feedback[b];
      f.idempotencyKey != "" && HasKey(g, f.userId, f.idempotencyKey)
    ensures a == b
  {
    RunKeeps(p, trace, actions, k);
    var records := trace[k].world.store.feedback;
    assert records[a] in records && records[b] in records;
  }

  /** Records and interactions, once stored, stay as they are. */
  lemma {:induction false} RecordsStay(p: Policy, trace: seq<System>, actions: seq<Action>, k: nat, m: nat)
    requires IsRun(p, trace, actions) && k <= m < |trace|
    ensures trace[k].world.store.feedback <= trace[m].world.store.feedback
    ensures forall t :: t in trace[k].world.store.interactions ==>
      t in trace[m].world.store.interactions
      && trace[m].world.store.interactions[t] == trace[k].world.store.interactions[t]
    decreases m
  {
    hide Publication.Inv, Submission.Inv, Next;
    if m > k {
      RecordsStay(p, trace, actions, k, m - 1);
      RunKeeps(p, trace, actions, m - 1);
      StepAppends(p, trace[m - 1], actions[m - 1]);
    }
  }

  lemma StepAppends(p: Policy, s: System, a: Action)
    requires Submission.Inv(s) && Enabled(s, a)
    ensures var t := Next(p, s, a).world.store;
      && s.world.store.feedback <= t.feedback
      && forall x :: x in s.world.store.interactions ==>
            x in t.interactions && t.interactions[x] == s.world.store.interactions[x]
  {
    if a.StepSubmit? {
      SubmitAppends(p, s, a.caller, a.feedbackHex, a.candidateHex);
    } else if a.StepReview? {
      ReviewFrame(p, s, a.caller, a.fault);
    }
  }

  lemma SubmitAppends(p: Policy, s: System, i: nat, f: string, c: string)
    requires Submission.Inv(s) && Enabled(s, StepSubmit(i, f, c))
    ensures var t := Next(p, s, StepSubmit(i, f, c));
      s.world.store.feedback <= t.world.store.feedback && t.world.store.interactions == s.world.store.interactions
  {
    Submission.StepParts(p, s, i, f, c);
    hide Next, Submission.Inv;
    if s.submitters[i].pc.Save? {
      Submission.SaverIsFresh(s, i);
    }
    hide NewFeedback, NewCandidate, Submission.SubmitterOk;
  }

  function Returned(r: SubmitResult): Option<Feedback> {
    match r
    case Stored(f, _) => Some(f)
    case Replayed(f, _) => Some(f)
    case SubmitFailed(_) => None
  }

  /** Every call completed under a key returned the one record that this user has, or will ever have, under it. */
  lemma CompletedCallsAgree(p: Policy, trace: seq<System>, actions: seq<Action>, k: nat, m: nat, i: nat, g: Feedback)
    requires IsRun(p, trace, actions) && k <= m < |trace|
    requires i in trace[k].submitters && trace[k].submitters[i].pc.SubmitDone?
    requires var q := trace[k].submitters[i].request;
      q.key != "" && g in trace[m].world.store.feedback && HasKey(g, q.userId, q.key)
    requires Returned(trace[k].submitters[i].pc.result).Some?
    ensures Returned(trace[k].submitters[i].pc.result) == Some(g)
  {
    RunKeeps(p, trace, actions, k);
    RunKeeps(p, trace, actions, m);
    RecordsStay(p, trace, actions, k, m);
    assert Submission.SubmitterOk(trace[k], i);
    var f := Returned(trace[k].submitters[i].pc.result).value;
    assert f in trace[k].world.store.feedback;
    assert f in trace[m].world.store.feedback;
  }

  /** Each stored record was stored by exactly one call, and its user owns the interaction it refers to. */
  lemma OneWinnerPerRecord(p: Policy, trace: seq<System>, actions: seq<Action>, k: nat, f: Feedback)
    requires IsRun(p, trace, actions) && k < |trace|
    ensures f in trace[k].world.store.feedback <==>
      exists i :: i in trace[k].submitters && Submission.RecordOf(trace[k].submitters[i].pc) == Some(f)
    ensures forall i, j | i in trace[k].submitters && j in trace[k].submitters ::
      Submission.RecordOf(trace[k].submitters[i].pc) == Some(f) == Submission.RecordOf(trace[k].submitters[j].pc) ==>
          i == j
    ensures f in trace[k].world.store.feedback ==>
      f.traceId in trace[k].world.store.interactions && trace[k].world.store.interactions[f.traceId].userId == f.userId
  {
    RunKeeps(p, trace, actions, k);
    var s := trace[k];
    if f in s.world.store.feedback {
      assert Submission.RecordOk(s, f);
    }
    forall i | i in s.submitters && Submission.RecordOf(s.submitters[i].pc) == Some(f)
      ensures f in s.world.store.feedback && f.id in s.minted && s.minted[f.id] == i
    {
      assert Submission.SubmitterOk(s, i);
    }
  }

  /** A record is announced in the audit log exactly once, when the call that stored it completes. */
  lemma OneSubmissionEvent(p: Policy, trace: seq<System>, actions: seq<Action>, k: nat, i: nat, f: Feedback)
    requires IsRun(p, trace, actions) && k < |trace|
    requires i in trace[k].submitters && Submission.RecordOf(trace[k].submitters[i].pc) == Some(f)
    ensures Submission.SubmissionEvents(trace[k].world.store.audit, f.id)
      == if trace[k].submitters[i].pc.SubmitDone? then 1 else 0
  {
    RunKeeps(p, trace, actions, k);
    assert Submission.SubmitterOk(trace[k], i);
  }

  ghost predicate Announces(store: Contents, e: AuditEvent) {
    exists f :: f in store.feedback && f.id == e.entityId && f.userId == e.actorId && f.traceId == e.traceId
  }

  /** A step of a review logs at most one event, never a submission. */
  lemma ReviewAnnouncesNothing(p: Policy, w: World, r: Reviewer, fault: Fault, e: AuditEvent)
    requires e in WorldAfter(p, w, r, fault).store.audit && e !in w.store.audit
    ensures e.eventType != FeedbackSubmitted
  {
    hide Scan, Draft, Seal, CompareAndSet, CandidateOf, Upserted;
    CasKeepsLog(w.store, r);
  }

  lemma CasKeepsLog(store: Contents, r: Reviewer)
    ensures forall before, after :: CompareAndSet(store, r.review.candidateId, before, after,
        r.review.reviewer).0.audit == store.audit
  {
  }

  lemma SubmitAnnounces(p: Policy, s: System, i: nat, f: string, c: string, e: AuditEvent)
    requires Submission.Inv(s) && Enabled(s, StepSubmit(i, f, c))
    requires e in Next(p, s, StepSubmit(i, f, c)).world.store.audit && e !in s.world.store.audit
    ensures Announces(Next(p, s, StepSubmit(i, f, c)).world.store, e)
  {
    Submission.StepParts(p, s, i, f, c);
    assert Submission.SubmitterOk(s, i);
    hide Next, Submission.Inv, NewFeedback, NewCandidate;
  }

  /** A step that logs a submission is that of a call that stored the record it names. */
  lemma NewAnnouncement(p: Policy, s: System, a: Action, e: AuditEvent)
    requires Submission.Inv(s) && Enabled(s, a)
    requires e in Next(p, s, a).world.store.audit && e !in s.world.store.audit && e.eventType == FeedbackSubmitted
    ensures Announces(Next(p, s, a).world.store, e)
  {
    hide SubmitNext, ReviewNext, Submission.Inv, Announces;
    if a.StepSubmit? {
      SubmitAnnounces(p, s, a.caller, a.feedbackHex, a.candidateHex, e);
    } else if a.StepReview? {
      ReviewParts(p, s, a.caller, a.fault);
      hide Next, WorldAfter;
      ReviewAnnouncesNothing(p, s.world, s.reviewers[a.caller], a.fault, e);
    }
  }

  lemma {:induction false} AnnouncementsAreTrue(
      p: Policy, trace: seq<System>, actions: seq<Action>, k: nat, e: AuditEvent)
    requires IsRun(p, trace, actions) && k < |trace| && e in trace[k].world.store.audit
    requires e.eventType == FeedbackSubmitted
    ensures Announces(trace[k].world.store, e)
  {
    hide Publication.Inv, Submission.Inv, Next;
    if k > 0 {
      RunKeeps(p, trace, actions, k - 1);
      if e in trace[k - 1].world.store.audit {
        AnnouncementsAreTrue(p, trace, actions, k - 1, e);
        StepAppends(p, trace[k - 1], actions[k - 1]);
      } else {
        NewAnnouncement(p, trace[k - 1], actions[k - 1], e);
      }
    }
  }

  /** The stored candidates are exactly those of the calls that got past saving theirs. */
  lemma StoredCandidates(p: Policy, trace: seq<System>, actions: seq<Action>, k: nat, id: string)
    requires IsRun(p, trace, actions) && k < |trace|
    ensures id in trace[k].world.store.candidates <==>
      exists i :: i in trace[k].submitters && Submission.CandidateIdOf(trace[k].submitters[i].pc) == Some(id)
  {
    RunKeeps(p, trace, actions, k);
    var s := trace[k];
    if id in s.world.store.candidates {
      assert Submission.CandidateStored(s, id);
    }
    forall i | i in s.submitters && Submission.CandidateIdOf(s.submitters[i].pc) == Some(id)
      ensures Submission.CandidateStored(s, id)
    {
      assert Submission.SubmitterOk(s, i);
    }
  }

  lemma WinnerOf(s: System, f: Feedback) returns (i: nat)
    requires Submission.Inv(s) && f in s.world.store.feedback && f.candidateId.Some?
    ensures i in s.submitters && Submission.RecordOf(s.submitters[i].pc) == Some(f)
    ensures f.candidateId.value !in s.world.store.candidates <==> s.submitters[i].pc.SaveCandidate?
  {
    assert Submission.RecordOk(s, f);
    i := s.minted[f.id];
    assert Submission.SubmitterOk(s, i);
    assert f.candidateId.value in s.world.store.candidates <==> Submission.CandidateStored(s, f.candidateId.value);
  }

  /** The candidate of a stored record is missing exactly while the call that stored the record is about to store it. */
  lemma MissingCandidateIff(p: Policy, trace: seq<System>, actions: seq<Action>, k: nat, f: Feedback)
    requires IsRun(p, trace, actions) && k < |trace| && f in trace[k].world.store.feedback && f.candidateId.Some?
    ensures f.candidateId.value !in trace[k].world.store.candidates <==>
      exists i :: i in trace[k].submitters && trace[k].submitters[i].pc.SaveCandidate?
          && trace[k].submitters[i].pc.feedback == f
  {
    RunKeeps(p, trace, actions, k);
    var i := WinnerOf(trace[k], f);
    OneWinnerPerRecord(p, trace, actions, k, f);
  }

  /** It can still appear, with the very next step of that call, exactly if the call is alive. */
  lemma MayStillAppearIff(p: Policy, trace: seq<System>, actions: seq<Action>, k: nat, i: nat)
    requires IsRun(p, trace, actions) && k < |trace|
    requires i in trace[k].submitters && trace[k].submitters[i].pc.SaveCandidate?
    ensures var id := trace[k].submitters[i].pc.candidate.id;
      trace[k].submitters[i].alive
      <==> exists a :: Enabled(trace[k], a) && id in Next(p, trace[k], a).world.store.candidates
  {
    RunKeeps(p, trace, actions, k);
    hide *;
    var s, id := trace[k], trace[k].submitters[i].pc.candidate.id;
    if s.submitters[i].alive {
      LivingSubmitterSaves(p, s, i);
    } else {
      forall a | Enabled(s, a) ensures id !in Next(p, s, a).world.store.candidates {
        DeadSubmitterStays(p, s, a, i);
        NextKeeps(p, s, a);
        UnsavedCandidate(p, Next(p, s, a), i);
      }
    }
  }

  lemma LivingSubmitterSaves(p: Policy, s: System, i: nat)
    requires i in s.submitters && s.submitters[i].pc.SaveCandidate? && s.submitters[i].alive
    ensures var a := StepSubmit(i, "", "");
      Enabled(s, a) && s.submitters[i].pc.candidate.id in Next(p, s, a).world.store.candidates
  {
    hide ReviewNext;
  }

  /** A call killed between storing its record and its candidate loses that candidate for good. */
  lemma {:induction false} LostCandidate(p: Policy, trace: seq<System>, actions: seq<Action>, k: nat, m: nat, i: nat)
    requires IsRun(p, trace, actions) && k <= m < |trace|
    requires i in trace[k].submitters && !trace[k].submitters[i].alive && trace[k].submitters[i].pc.SaveCandidate?
    ensures i in trace[m].submitters && trace[m].submitters[i] == trace[k].submitters[i]
    ensures trace[k].submitters[i].pc.feedback in trace[m].world.store.feedback
    ensures trace[k].submitters[i].pc.feedback.candidateId.Some?
    ensures trace[k].submitters[i].pc.feedback.candidateId.value !in trace[m].world.store.candidates
    decreases m
  {
    hide Publication.Inv, Submission.Inv, Next;
    if m > k {
      LostCandidate(p, trace, actions, k, m - 1, i);
      DeadSubmitterStays(p, trace[m - 1], actions[m - 1], i);
    }
    RunKeeps(p, trace, actions, m);
    UnsavedCandidate(p, trace[m], i);
  }

  lemma DeadSubmitterStays(p: Policy, s: System, a: Action, i: nat)
    requires Enabled(s, a) && i in s.submitters && !s.submitters[i].alive
    ensures i in Next(p, s, a).submitters && Next(p, s, a).submitters[i] == s.submitters[i]
  {
    hide SubmitNext, ReviewNext;
  }

  lemma UnsavedCandidate(p: Policy, s: System, i: nat)
    requires Submission.Inv(s) && i in s.submitters && s.submitters[i].pc.SaveCandidate?
    ensures var f := s.submitters[i].pc.feedback;
      f in s.world.store.feedback && f.candidateId.Some? && f.candidateId.value !in s.world.store.candidates
    ensures s.submitters[i].pc.candidate.id !in s.world.store.candidates
  {
    assert Submission.SubmitterOk(s, i);
    assert !Submission.CandidateStored(s, s.submitters[i].pc.candidate.id);
  }
}
