/** Where stored candidates, and with them published documents, come from. */
module CandidateOrigin {
  import opened Text
  import opened Domain
  import opened OperationsStore
  import opened Knowledge
  import opened FeedbackLoop
  import opened LoopSystem
  import opened LoopTheorems
  import Publication
  import Submission

  /** After-sales questions and order questions have a domain each, everything else is about products. */
  predicate IsDomainOf(intent: Intent, domain: string) {
    && (domain == "after_sales" <==> intent == AfterSales)
    && (domain == "order" <==> intent == OrderQuery)
    && (domain == "product" <==> intent != AfterSales && intent != OrderQuery)
  }

  /** The candidate carries what the user was asked and told, and what the low rating said about it. */
  predicate IsFrom(interactions: map<string, Interaction>, f: Feedback, c: Candidate) {
    && f.traceId in interactions
    && var x := interactions[f.traceId];
    && x.userId == f.userId && 1 <= f.rating <= 2 && f.candidateId == Some(c.id)
    && c.traceId == f.traceId && c.question == x.question && c.currentAnswer == x.answer
    && IsDomainOf(x.intent, c.domain) && c.suggestedAnswer == f.suggestedAnswer
    && c.reason == if f.comment != "" then f.comment else if f.rating == 1 then "user rating: 1" else "user rating: 2"
  }

  predicate PcOk(interactions: map<string, Interaction>, pc: SubmitPc) {
    match pc
    case Save(f, Some(c)) => IsFrom(interactions, f, c)
    case SaveCandidate(f, c) => IsFrom(interactions, f, c)
    case _ => true
  }

  ghost predicate HasOrigin(store: Contents, c: Candidate) {
    exists f :: f in store.feedback && IsFrom(store.interactions, f, c)
  }

  ghost predicate Inv(s: System) {
    && (forall i :: i in s.submitters ==> PcOk(s.world.store.interactions, s.submitters[i].pc))
    && (forall id :: id in s.world.store.candidates ==> HasOrigin(s.world.store, s.world.store.candidates[id]))
  }

  /** Records and interactions are never changed, nor is what a candidate took from them. */
  lemma OriginStays(before: Contents, after: Contents, c: Candidate, d: Candidate)
    requires HasOrigin(before, c) && Publication.SameCore(c, d) && before.feedback <= after.feedback
    requires forall x :: x in before.interactions ==>
        x in after.interactions && after.interactions[x] == before.interactions[x]
    ensures HasOrigin(after, d)
  {
    var f :| f in before.feedback && IsFrom(before.interactions, f, c);
    assert f in after.feedback && IsFrom(after.interactions, f, d);
  }

  /** One step of a submission keeps the link between its record and its candidate. */
  lemma SubmitLinks(p: Policy, w: World, q: Request, pc: SubmitPc, f: string, c: string)
    requires PcOk(w.store.interactions, pc)
    requires pc.Save? ==> forall g :: g in w.store.feedback ==> g.id != pc.feedback.id
    ensures var (v, next) := SubmitNext(p, w, q, pc, f, c); PcOk(v.store.interactions, next)
  {
  }

  /** What a submission is about to store stays linked while others move. */
  lemma LinkStays(before: map<string, Interaction>, after: map<string, Interaction>, pc: SubmitPc)
    requires PcOk(before, pc) && forall x :: x in before ==> x in after && after[x] == before[x]
    ensures PcOk(after, pc)
  {
  }

  lemma OwnStepLinks(p: Policy, s: System, i: nat, f: string, c: string)
    requires Submission.Inv(s) && Inv(s) && Enabled(s, StepSubmit(i, f, c))
    ensures PcOk(Next(p, s, StepSubmit(i, f, c)).world.store.interactions,
        Next(p, s, StepSubmit(i, f, c)).submitters[i].pc)
  {
    Submission.StepParts(p, s, i, f, c);
    assert PcOk(s.world.store.interactions, s.submitters[i].pc);
    hide SubmitNext, Next, Submission.Inv, Inv, PcOk;
    if s.submitters[i].pc.Save? { Submission.SaverIsFresh(s, i); }
    SubmitLinks(p, s.world, s.submitters[i].request, s.submitters[i].pc, f, c);
  }

  /** Where another submitter comes from: it was there, or it has just begun. */
  lemma OtherSubmitters(p: Policy, s: System, a: Action, j: nat)
    requires Enabled(s, a) && j in Next(p, s, a).submitters && (a.StepSubmit? ==> a.caller != j)
    ensures Next(p, s, a).submitters[j].pc == Find
        || (j in s.submitters && Next(p, s, a).submitters[j].pc == s.submitters[j].pc)
  {
    hide SubmitNext, ReviewNext;
  }

  lemma StepLinks(p: Policy, s: System, a: Action, j: nat)
    requires Submission.Inv(s) && Publication.Inv(p, s) && Inv(s) && Enabled(s, a)
    requires j in Next(p, s, a).submitters
    ensures PcOk(Next(p, s, a).world.store.interactions, Next(p, s, a).submitters[j].pc)
  {
    assert j in s.submitters ==> PcOk(s.world.store.interactions, s.submitters[j].pc);
    hide Submission.Inv, Publication.Inv, Inv, Next;
    if a.StepSubmit? && j == a.caller {
      OwnStepLinks(p, s, j, a.feedbackHex, a.candidateHex);
    } else {
      StepAppends(p, s, a);
      OtherSubmitters(p, s, a, j);
      if Next(p, s, a).submitters[j].pc != Find {
        LinkStays(s.world.store.interactions, Next(p, s, a).world.store.interactions, s.submitters[j].pc);
      }
    }
  }

  lemma StepOrigin(p: Policy, s: System, a: Action, id: string)
    requires Submission.Inv(s) && Publication.Inv(p, s) && Inv(s) && Enabled(s, a)
    requires id in Next(p, s, a).world.store.candidates
    ensures HasOrigin(Next(p, s, a).world.store, Next(p, s, a).world.store.candidates[id])
  {
    var before, after := s.world.store, Next(p, s, a).world.store;
    if id in before.candidates {
      StepAppends(p, s, a);
      StepAlongEdges(p, s, a, id);
      hide Next, Submission.Inv, Publication.Inv;
      OriginStays(before, after, before.candidates[id], after.candidates[id]);
    } else {
      NewCandidateOrigin(p, s, a, id);
    }
  }

  lemma OnlySavingAdds(p: Policy, w: World, q: Request, pc: SubmitPc, f: string, c: string, id: string)
    requires var v := SubmitNext(p, w, q, pc, f, c).0; id in v.store.candidates && id !in w.store.candidates
    ensures var v := SubmitNext(p, w, q, pc, f, c).0;
      && pc.SaveCandidate? && v.store.candidates[id] == pc.candidate
      && v.store.feedback == w.store.feedback && v.store.interactions == w.store.interactions
  {
    hide NewFeedback, NewCandidate;
  }

  lemma SavedHasOrigin(p: Policy, s: System, i: nat, f: string, c: string, id: string)
    requires Submission.Inv(s) && Inv(s) && Enabled(s, StepSubmit(i, f, c))
    requires id in Next(p, s, StepSubmit(i, f, c)).world.store.candidates && id !in s.world.store.candidates
    ensures HasOrigin(Next(p, s, StepSubmit(i, f, c)).world.store,
        Next(p, s, StepSubmit(i, f, c)).world.store.candidates[id])
  {
    Submission.StepParts(p, s, i, f, c);
    assert Submission.SubmitterOk(s, i);
    assert PcOk(s.world.store.interactions, s.submitters[i].pc);
    hide Submission.Inv, Inv, Next, IsFrom, SubmitNext;
    OnlySavingAdds(p, s.world, s.submitters[i].request, s.submitters[i].pc, f, c, id);
  }

  /** A candidate appears only when its submission saves it, after its record. */
  lemma NewCandidateOrigin(p: Policy, s: System, a: Action, id: string)
    requires Submission.Inv(s) && Publication.Inv(p, s) && Inv(s) && Enabled(s, a)
    requires id in Next(p, s, a).world.store.candidates && id !in s.world.store.candidates
    ensures HasOrigin(Next(p, s, a).world.store, Next(p, s, a).world.store.candidates[id])
  {
    assert id in Next(p, s, a).world.store.candidates.Keys;
    hide Submission.Inv, Publication.Inv, Inv, HasOrigin;
    if a.StepSubmit? {
      SavedHasOrigin(p, s, a.caller, a.feedbackHex, a.candidateHex, id);
    } else if a.StepReview? {
      Publication.ReviewKeepsKeys(p, s, a.caller, a.fault);
    } else {
      Publication.OtherActionsAttend(p, s, a);
    }
    hide Next;
  }

  lemma {:induction false} RunKeepsOrigin(p: Policy, trace: seq<System>, actions: seq<Action>, k: nat)
    requires LoopSystem.IsRun(p, trace, actions) && k < |trace|
    ensures Inv(trace[k])
  {
    hide Submission.Inv, Publication.Inv, Next, PcOk, HasOrigin;
    if k > 0 {
      RunKeepsOrigin(p, trace, actions, k - 1);
      RunKeeps(p, trace, actions, k - 1);
      var s, t := trace[k - 1], trace[k];
      forall j | j in t.submitters ensures PcOk(t.world.store.interactions, t.submitters[j].pc) {
        StepLinks(p, s, actions[k - 1], j);
      }
      forall id | id in t.world.store.candidates ensures HasOrigin(t.world.store, t.world.store.candidates[id]) {
        StepOrigin(p, s, actions[k - 1], id);
      }
    }
  }

  /** Every stored candidate repeats the question and the answer of an interaction that its own user rated low. */
  lemma CandidateHasOrigin(p: Policy, trace: seq<System>, actions: seq<Action>, k: nat, id: string)
    requires LoopSystem.IsRun(p, trace, actions) && k < |trace| && id in trace[k].world.store.candidates
    ensures exists f ::
      f in trace[k].world.store.feedback
          && IsFrom(trace[k].world.store.interactions, f, trace[k].world.store.candidates[id])
  {
    RunKeepsOrigin(p, trace, actions, k);
    assert HasOrigin(trace[k].world.store, trace[k].world.store.candidates[id]);
  }

  /**
   * So what is published under a candidate answers a question that was really asked, in the domain it was
   * asked in, with the words of the low rating or else with the answer that was given.
   */
  lemma PublishedAnswersAQuestion(p: Policy, trace: seq<System>, actions: seq<Action>, k: nat, id: string)
    requires LoopSystem.IsRun(p, trace, actions) && k < |trace| && StatusIs(trace[k].world.store, id, Published)
    ensures exists f, d ::
      && f in trace[k].world.store.feedback && f.candidateId == Some(id) && f.rating <= 2
      && f.traceId in trace[k].world.store.interactions
      && Under(trace[k].world.docs, DocumentId(id)) == [d]
      && Answers(trace[k].world.store.interactions[f.traceId], f, d)
  {
    hide *;
    CandidateIsNamed(p, trace, actions, k, id);
    var c := trace[k].world.store.candidates[id];
    CandidateHasOrigin(p, trace, actions, k, id);
    var f :| f in trace[k].world.store.feedback && IsFrom(trace[k].world.store.interactions, f, c);
    PublishedDocument(p, trace, actions, k, id);
    var stored := Under(trace[k].world.docs, DocumentId(id));
    assert stored == [stored[0]];
    FromAnswers(trace[k].world.store.interactions, f, c, stored[0]);
  }

  lemma CandidateIsNamed(p: Policy, trace: seq<System>, actions: seq<Action>, k: nat, id: string)
    requires LoopSystem.IsRun(p, trace, actions) && k < |trace| && StatusIs(trace[k].world.store, id, Published)
    ensures id in trace[k].world.store.candidates && trace[k].world.store.candidates[id].id == id
  {
    RunKeeps(p, trace, actions, k);
    assert Publication.CandidateOk(p, trace[k], id);
  }

  lemma FromAnswers(interactions: map<string, Interaction>, f: Feedback, c: Candidate, d: Document)
    requires IsFrom(interactions, f, c) && d.keywords == [c.question] && d.domain == c.domain
    requires var suggested := Strip(c.suggestedAnswer, IsSpace);
      d.content == (if suggested == "" then c.currentAnswer else suggested)
    ensures f.traceId in interactions && Answers(interactions[f.traceId], f, d)
    ensures f.candidateId == Some(c.id) && f.rating <= 2
  {
  }

  predicate Answers(x: Interaction, f: Feedback, d: Document) {
    var suggested := Strip(f.suggestedAnswer, IsSpace);
    && d.keywords == [x.question] && IsDomainOf(x.intent, d.domain)
    && d.content == if suggested == "" then x.answer else suggested
  }

  // ---- what a record says ----

  /** The record repeats its request, with the free text redacted, and names a candidate if the rating is low. */
  predicate RecordedFrom(p: Policy, q: Request, f: Feedback) {
    && f.traceId == q.traceId && f.userId == q.userId && f.idempotencyKey == q.key
    && f.rating == q.rating && 1 <= f.rating <= 5
    && f.comment == p.redact(q.comment) && f.suggestedAnswer == p.redact(q.suggestedAnswer)
    && (f.candidateId.Some? <==> f.rating <= 2)
  }

  /** The record a call is about to store or has stored. */
  function OwnRecord(pc: SubmitPc): Option<Feedback> {
    if pc.Save? then Some(pc.feedback) else Submission.RecordOf(pc)
  }

  predicate OwnRecordOk(p: Policy, x: Submitter) {
    OwnRecord(x.pc).Some? ==> RecordedFrom(p, x.request, OwnRecord(x.pc).value)
  }

  lemma SubmitRecords(p: Policy, w: World, x: Submitter, f: string, c: string)
    requires OwnRecordOk(p, x)
    requires x.pc.Save? ==> forall g :: g in w.store.feedback ==> g.id != x.pc.feedback.id
    ensures OwnRecordOk(p, x.(pc := SubmitNext(p, w, x.request, x.pc, f, c).1))
  {
    hide NewCandidate;
  }

  lemma OwnStepRecords(p: Policy, s: System, i: nat, f: string, c: string)
    requires Submission.Inv(s) && Enabled(s, StepSubmit(i, f, c)) && OwnRecordOk(p, s.submitters[i])
    ensures OwnRecordOk(p, Next(p, s, StepSubmit(i, f, c)).submitters[i])
  {
    Submission.StepParts(p, s, i, f, c);
    hide SubmitNext, Next, Submission.Inv, OwnRecordOk;
    if s.submitters[i].pc.Save? { Submission.SaverIsFresh(s, i); }
    SubmitRecords(p, s.world, s.submitters[i], f, c);
  }

  /** Another submitter is as it was, killed, or has just begun. */
  lemma OtherRequests(p: Policy, s: System, a: Action, j: nat)
    requires Enabled(s, a) && j in Next(p, s, a).submitters && (a.StepSubmit? ==> a.caller != j)
    ensures var x := Next(p, s, a).submitters[j];
      x.pc == Find || (j in s.submitters && x.pc == s.submitters[j].pc && x.request == s.submitters[j].request)
  {
    hide SubmitNext, ReviewNext;
  }

  lemma {:induction false} RunKeepsRecords(p: Policy, trace: seq<System>, actions: seq<Action>, k: nat, j: nat)
    requires LoopSystem.IsRun(p, trace, actions) && k < |trace| && j in trace[k].submitters
    ensures OwnRecordOk(p, trace[k].submitters[j])
  {
    if k > 0 {
      var s, a := trace[k - 1], actions[k - 1];
      RunKeeps(p, trace, actions, k - 1);
      if j in s.submitters { RunKeepsRecords(p, trace, actions, k - 1, j); }
      hide Submission.Inv, Publication.Inv, Next, RecordedFrom;
      if a.StepSubmit? && a.caller == j {
        OwnStepRecords(p, s, j, a.feedbackHex, a.candidateHex);
      } else {
        OtherRequests(p, s, a, j);
      }
    }
  }

  /** Every stored record is of a request with a valid rating, and holds none of its free text unredacted. */
  lemma RecordsAreRedacted(p: Policy, trace: seq<System>, actions: seq<Action>, k: nat, f: Feedback)
    requires LoopSystem.IsRun(p, trace, actions) && k < |trace| && f in trace[k].world.store.feedback
    ensures exists i :: i in trace[k].submitters && RecordedFrom(p, trace[k].submitters[i].request, f)
  {
    RunKeeps(p, trace, actions, k);
    assert Submission.RecordOk(trace[k], f);
    var i := trace[k].minted[f.id];
    RunKeepsRecords(p, trace, actions, k, i);
    hide Submission.Inv, Publication.Inv, RecordedFrom;
  }

  // ---- domains ----

  /** A stored candidate is filed under the domain its question was asked in. */
  lemma CandidateDomain(p: Policy, trace: seq<System>, actions: seq<Action>, k: nat, id: string)
    requires LoopSystem.IsRun(p, trace, actions) && k < |trace| && id in trace[k].world.store.candidates
    ensures var c := trace[k].world.store.candidates[id];
      && c.traceId in trace[k].world.store.interactions
      && var intent := trace[k].world.store.interactions[c.traceId].intent;
      && (c.domain == "after_sales" <==> intent == AfterSales)
      && (c.domain == "order" <==> intent == OrderQuery)
      && (c.domain == "product" <==> intent != AfterSales && intent != OrderQuery)
  {
    CandidateHasOrigin(p, trace, actions, k, id);
  }

  /** And so is its document, from the first attempt to publish it on. */
  lemma DocumentDomain(p: Policy, trace: seq<System>, actions: seq<Action>, k: nat, d: Document) returns (id: string)
    requires LoopSystem.IsRun(p, trace, actions) && k < |trace| && d in trace[k].world.docs && "KB-FEEDBACK-" <= d.id
    ensures id in trace[k].world.store.candidates && d.id == DocumentId(id)
    ensures var c := trace[k].world.store.candidates[id];
      && c.traceId in trace[k].world.store.interactions
      && var intent := trace[k].world.store.interactions[c.traceId].intent;
      && (d.domain == "after_sales" <==> intent == AfterSales)
      && (d.domain == "order" <==> intent == OrderQuery)
      && (d.domain == "product" <==> intent != AfterSales && intent != OrderQuery)
  {
    RunKeeps(p, trace, actions, k);
    hide *;
    var c := PublishedFrom(p, trace[k], d);
    id := c.id;
    CandidateDomain(p, trace, actions, k, id);
  }
}
