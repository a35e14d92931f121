/**
 * What one whole call of `review` does when nobody interferes, and how calls compose: a publication
 * that failed and is tried again leaves the same records and documents as one that worked at once.
 */
module UndisturbedReview {
  import opened Text
  import opened Domain
  import opened OperationsStore
  import opened Knowledge
  import opened FeedbackLoop
  import opened Publication

  function With(w: World, c: Candidate): World {
    w.(store := WithCandidate(w.store, c))
  }

  lemma WithTwice(w: World, a: Candidate, b: Candidate)
    requires a.id == b.id
    ensures With(With(w, a), b) == With(w, b)
  {
    var m := w.store.candidates;
    assert m[a.id := a][a.id := b] == m[a.id := b];
  }

  function Marked(c: Candidate, r: Review, status: Status): Candidate {
    c.(status := status, reviewedBy := Some(r.reviewer))
  }

  function Logged(w: World, r: Review, c: Candidate, kind: AuditType): World {
    w.(store := WithAudit(w.store, AuditEvent(kind, r.reviewer, c.id, c.traceId)))
  }

  predicate MayClaim(c: Candidate, r: Review) {
    c.status == Pending || (r.approved && c.status == PublishFailed)
  }

  /** The flags of everything published in the candidate's domain that conflicts with it, or those it had. */
  function Flagged(p: Policy, w: World, c: Candidate, r: Review): Candidate {
    var flags := RiskFlags(p, Draft(p, c, r.reviewer), if p.listing then Listed(w.docs, Some(c.domain)) else []);
    if flags == [] then c else c.(riskFlags := flags)
  }

  /** The world and the result a call ends with. */
  function Outcome(p: Policy, w: World, r: Review, f: Faults): (World, Result<Candidate, ReviewError>) {
    if r.candidateId !in w.store.candidates then (w, Err(CandidateNotFound))
    else
      var c := w.store.candidates[r.candidateId];
      if !MayClaim(c, r) then (w, Err(AlreadyReviewed))
      else if !r.approved then
        var rejected := Marked(c, r, Rejected);
        (Logged(With(w, rejected), r, c, KnowledgeRejected), Ok(rejected))
      else if |r.reviewer| > MAX_NAME then (With(w, Marked(c, r, Publishing)), Err(InvalidDocument))
      else if p.listing && f.listing != Works then
        (Logged(With(w, Marked(c, r, PublishFailed)), r, c, PublishFailedEvent), Err(PublicationFailed))
      else if Refused(p, c) then
        (Logged(With(w, Marked(c, r, Rejected)), r, c, PolicyRejected), Err(PolicyViolation))
      else
        var flagged := Flagged(p, w, c, r);
        var published := w.(docs := Upserted(w.docs, FinalDocument(p, c, r.reviewer)));
        var v := if f.publishing == FailsBefore then w else published;
        if f.publishing != Works then
          (Logged(With(v, Marked(flagged, r, PublishFailed)), r, c, PublishFailedEvent), Err(PublicationFailed))
        else
          var published := Marked(flagged, r, Published);
          (Logged(With(v, published), r, c, KnowledgePublished), Ok(published))
  }

  /** Candidates are stored under their own identifiers, as they are in every run. */
  predicate Keyed(w: World, id: string) {
    id in w.store.candidates ==> w.store.candidates[id].id == id
  }

  ghost predicate Leads(p: Policy, r: Review, f: Faults, w: World, v: World, pc: ReviewPc) {
    ReviewLeads(p, r, f, w, Claim, v, pc)
  }

  lemma More(p: Policy, r: Review, f: Faults, w: World, v: World, pc: ReviewPc, v': World, pc': ReviewPc)
    requires Leads(p, r, f, w, v, pc) && ReviewNext(p, v, r, pc, FaultAt(f, pc)) == (v', pc')
    ensures Leads(p, r, f, w, v', pc')
  {
    ReviewOneMore(p, r, f, w, Claim, v, pc);
  }

  lemma Begins(p: Policy, w: World, r: Review, f: Faults)
    requires Keyed(w, r.candidateId)
    ensures r.candidateId !in w.store.candidates ==> Leads(p, r, f, w, w, ReviewDone(Err(CandidateNotFound)))
    ensures r.candidateId in w.store.candidates ==>
      var c := w.store.candidates[r.candidateId];
      if MayClaim(c, r) then Leads(p, r, f, w, With(w, Marked(c, r, if r.approved then Publishing else Rejected)), Load)
      else Leads(p, r, f, w, w, ReviewDone(Err(AlreadyReviewed)))
  {
    hide Draft, Scan, Seal, ReviewLeads, ReviewSteps;
    ReviewStart(p, r, f, w, Claim);
    if StatusIs(w.store, r.candidateId, Pending) {
      More(p, r, f, w, w, Claim,
          With(w, Marked(w.store.candidates[r.candidateId], r, if r.approved then Publishing else Rejected)), Load);
    } else if r.approved {
      More(p, r, f, w, w, Claim, w, ClaimRetry);
      if StatusIs(w.store, r.candidateId, PublishFailed) {
        More(p, r, f, w, w, ClaimRetry, With(w, Marked(w.store.candidates[r.candidateId], r, Publishing)), Load);
      } else {
        More(p, r, f, w, w, ClaimRetry, w, Explain);
        Explained(p, w, r, f);
      }
    } else {
      More(p, r, f, w, w, Claim, w, Explain);
      Explained(p, w, r, f);
    }
  }

  lemma Explained(p: Policy, w: World, r: Review, f: Faults)
    requires Leads(p, r, f, w, w, Explain)
    ensures Leads(p, r, f, w, w,
        ReviewDone(Err(if r.candidateId in w.store.candidates then AlreadyReviewed else CandidateNotFound)))
  {
    hide Draft, Scan, Seal, ReviewLeads;
    More(p, r, f, w, w, Explain, w,
        ReviewDone(Err(if r.candidateId in w.store.candidates then AlreadyReviewed else CandidateNotFound)));
  }

  predicate Claimed(w: World, r: Review) {
    && Keyed(w, r.candidateId) && r.candidateId in w.store.candidates
    && MayClaim(w.store.candidates[r.candidateId], r)
  }

  lemma Rejects(p: Policy, w: World, r: Review, f: Faults)
    requires Claimed(w, r) && !r.approved
    ensures Leads(p, r, f, w, Outcome(p, w, r, f).0, ReviewDone(Outcome(p, w, r, f).1))
  {
    hide Draft, Scan, Seal, ReviewLeads;
    Begins(p, w, r, f);
    var c := Marked(w.store.candidates[r.candidateId], r, Rejected);
    var v := With(w, c);
    More(p, r, f, w, v, Load, v, AuditReview(c));
    More(p, r, f, w, v, AuditReview(c), Logged(v, r, c, KnowledgeRejected), ReviewDone(Ok(c)));
  }

  lemma Strands(p: Policy, w: World, r: Review, f: Faults)
    requires Claimed(w, r) && r.approved && |r.reviewer| > MAX_NAME
    ensures Leads(p, r, f, w, Outcome(p, w, r, f).0, ReviewDone(Outcome(p, w, r, f).1))
  {
    hide Draft, Scan, Seal, ReviewLeads;
    Begins(p, w, r, f);
    var v := With(w, Marked(w.store.candidates[r.candidateId], r, Publishing));
    More(p, r, f, w, v, Load, v, ReviewDone(Err(InvalidDocument)));
  }

  /** A holder closes its candidate: from any world in which it is in publication. */
  lemma Closes(p: Policy, w: World, r: Review, f: Faults, v: World, c: Candidate, pc: ReviewPc, next: ReviewPc)
    requires c.id == r.candidateId && c.status == Publishing
    requires Leads(p, r, f, w, With(v, c), pc)
    requires (pc.Refuse? && next == AuditRefusal(pc.candidate)) || (pc.GiveUp? && next == AuditFailure(pc.candidate))
             || (pc.Finalize? && next == Reload)
    ensures Leads(p, r, f, w, With(v, Marked(c, r, ClosingStatus(pc))), next)
  {
    hide Draft, Scan, Seal, ReviewLeads;
    var d := Marked(c, r, ClosingStatus(pc));
    WithTwice(v, c, d);
    More(p, r, f, w, With(v, c), pc, With(v, d), next);
  }

  lemma Fails(p: Policy, w: World, r: Review, f: Faults, v: World, c: Candidate)
    requires c.id == r.candidateId && c.status == Publishing && Leads(p, r, f, w, With(v, c), GiveUp(c))
    ensures Leads(p, r, f, w, Logged(With(v, Marked(c, r, PublishFailed)), r, c, PublishFailedEvent),
        ReviewDone(Err(PublicationFailed)))
  {
    hide Draft, Scan, Seal, ReviewLeads, With;
    Closes(p, w, r, f, v, c, GiveUp(c), AuditFailure(c));
    var u := With(v, Marked(c, r, PublishFailed));
    More(p, r, f, w, u, AuditFailure(c), Logged(u, r, c, PublishFailedEvent), ReviewDone(Err(PublicationFailed)));
  }

  lemma Refuses(p: Policy, w: World, r: Review, f: Faults, v: World, c: Candidate)
    requires c.id == r.candidateId && c.status == Publishing && Leads(p, r, f, w, With(v, c), Refuse(c))
    ensures Leads(p, r, f, w, Logged(With(v, Marked(c, r, Rejected)), r, c, PolicyRejected),
        ReviewDone(Err(PolicyViolation)))
  {
    hide Draft, Scan, Seal, ReviewLeads, With;
    Closes(p, w, r, f, v, c, Refuse(c), AuditRefusal(c));
    var u := With(v, Marked(c, r, Rejected));
    More(p, r, f, w, u, AuditRefusal(c), Logged(u, r, c, PolicyRejected), ReviewDone(Err(PolicyViolation)));
  }

  lemma Publishes(p: Policy, w: World, r: Review, f: Faults, v: World, c: Candidate)
    requires r.approved && c.id == r.candidateId && c.status == Publishing && Leads(p, r, f, w, With(v, c), Finalize)
    ensures Leads(p, r, f, w, Logged(With(v, Marked(c, r, Published)), r, c, KnowledgePublished),
        ReviewDone(Ok(Marked(c, r, Published))))
  {
    hide Draft, Scan, Seal, ReviewLeads;
    Closes(p, w, r, f, v, c, Finalize, Reload);
    var d := Marked(c, r, Published);
    var u := With(v, d);
    More(p, r, f, w, u, Reload, u, AuditReview(d));
    More(p, r, f, w, u, AuditReview(d), Logged(u, r, c, KnowledgePublished), ReviewDone(Ok(d)));
  }

  /** From the claim to the scan. */
  lemma Scans(p: Policy, w: World, r: Review, f: Faults)
    requires Claimed(w, r) && r.approved && |r.reviewer| <= MAX_NAME
    ensures var c := Marked(w.store.candidates[r.candidateId], r, Publishing);
      Leads(p, r, f, w, With(w, c), ListExisting(c))
  {
    hide Draft, Scan, Seal, ReviewLeads;
    Begins(p, w, r, f);
    var c := Marked(w.store.candidates[r.candidateId], r, Publishing);
    More(p, r, f, w, With(w, c), Load, With(w, c), ListExisting(c));
  }

  /** From the scan of a candidate that is not refused to the upsert, with the flags written back if there are any. */
  lemma Flags(p: Policy, w: World, r: Review, f: Faults)
    requires Claimed(w, r) && r.approved && |r.reviewer| <= MAX_NAME && (p.listing ==> f.listing == Works)
    requires var c := w.store.candidates[r.candidateId]; !Refused(p, c)
    ensures var c := w.store.candidates[r.candidateId];
      var flagged := Marked(Flagged(p, w, c, r), r, Publishing);
      Leads(p, r, f, w, With(w, flagged), Publish(flagged, FinalDocument(p, c, r.reviewer)))
  {
    hide ReviewLeads;
    Scans(p, w, r, f);
    var c := w.store.candidates[r.candidateId];
    var m, flagged := Marked(c, r, Publishing), Marked(Flagged(p, w, c, r), r, Publishing);
    var draft, doc := Draft(p, c, r.reviewer), FinalDocument(p, c, r.reviewer);
    assert Draft(p, m, r.reviewer) == draft && doc == Seal(p, draft);
    RefusedIsFixed(p, c, c, r.reviewer);
    hide Draft, Seal, FinalDocument, Refused, Blocked;
    var flags := RiskFlags(p, draft, if p.listing then Listed(w.docs, Some(c.domain)) else []);
    if flags == [] {
      More(p, r, f, w, With(w, m), ListExisting(m), With(w, m), Publish(m, doc));
    } else {
      More(p, r, f, w, With(w, m), ListExisting(m), With(w, m), WriteFlags(flagged, doc));
      WithTwice(w, m, flagged);
      More(p, r, f, w, With(w, m), WriteFlags(flagged, doc), With(w, flagged), Publish(flagged, doc));
    }
  }

  /** An approval past the checks: publication works, or is given up. */
  lemma Approves(p: Policy, w: World, r: Review, f: Faults)
    requires Claimed(w, r) && r.approved && |r.reviewer| <= MAX_NAME && (p.listing ==> f.listing == Works)
    requires !Refused(p, w.store.candidates[r.candidateId])
    ensures Leads(p, r, f, w, Outcome(p, w, r, f).0, ReviewDone(Outcome(p, w, r, f).1))
  {
    hide ReviewLeads, FinalDocument, Refused, Flagged;
    Flags(p, w, r, f);
    var c := w.store.candidates[r.candidateId];
    FlaggedKeeps(p, w, c, r);
    var flagged, doc := Marked(Flagged(p, w, c, r), r, Publishing), FinalDocument(p, c, r.reviewer);
    var v := if f.publishing == FailsBefore then w else w.(docs := Upserted(w.docs, doc));
    hide Draft, Scan, Seal, Upserted;
    if f.publishing == Works {
      More(p, r, f, w, With(w, flagged), Publish(flagged, doc), With(v, flagged), Finalize);
      Publishes(p, w, r, f, v, flagged);
    } else {
      More(p, r, f, w, With(w, flagged), Publish(flagged, doc), With(v, flagged), GiveUp(flagged));
      Fails(p, w, r, f, v, flagged);
    }
  }

  lemma FlaggedKeeps(p: Policy, w: World, c: Candidate, r: Review)
    ensures SameCore(Flagged(p, w, c, r), c)
  {
  }

  lemma RefusalOrFailure(p: Policy, w: World, r: Review, f: Faults)
    requires Claimed(w, r) && r.approved && |r.reviewer| <= MAX_NAME
    requires (p.listing && f.listing != Works) || Refused(p, w.store.candidates[r.candidateId])
    ensures Leads(p, r, f, w, Outcome(p, w, r, f).0, ReviewDone(Outcome(p, w, r, f).1))
  {
    hide ReviewLeads;
    Scans(p, w, r, f);
    var c := w.store.candidates[r.candidateId];
    var m := Marked(c, r, Publishing);
    RefusedIsFixed(p, c, m, r.reviewer);
    hide Draft, Seal, Blocked, Refused, Flagged;
    if p.listing && f.listing != Works {
      More(p, r, f, w, With(w, m), ListExisting(m), With(w, m), GiveUp(m));
      Fails(p, w, r, f, w, m);
    } else {
      More(p, r, f, w, With(w, m), ListExisting(m), With(w, m), Refuse(m));
      Refuses(p, w, r, f, w, m);
    }
  }

  /** The steps of a call that nobody interferes with end in its outcome. */
  lemma StepsReachOutcome(p: Policy, w: World, r: Review, f: Faults)
    requires Keyed(w, r.candidateId)
    ensures ReviewLeads(p, r, f, w, Claim, Outcome(p, w, r, f).0, ReviewDone(Outcome(p, w, r, f).1))
  {
    assert Leads(p, r, f, w, Outcome(p, w, r, f).0, ReviewDone(Outcome(p, w, r, f).1)) by {
      hide Leads, Refused, Flagged;
      if !Claimed(w, r) {
        Begins(p, w, r, f);
      } else if !r.approved {
        Rejects(p, w, r, f);
      } else if |r.reviewer| > MAX_NAME {
        Strands(p, w, r, f);
      } else if (p.listing && f.listing != Works) || Refused(p, w.store.candidates[r.candidateId]) {
        RefusalOrFailure(p, w, r, f);
      } else {
        Approves(p, w, r, f);
      }
    }
  }

  lemma {:induction false} DoneStays(
      p: Policy, w: World, r: Review, f: Faults, v: World, e: Result<Candidate, ReviewError>, n: nat, m: nat)
    requires ReviewSteps(p, w, r, Claim, f, n) == (v, ReviewDone(e)) && n <= m
    ensures ReviewSteps(p, w, r, Claim, f, m) == (v, ReviewDone(e))
    decreases m
  {
    if m > n { DoneStays(p, w, r, f, v, e, n, m - 1); }
  }

  /** So whatever a call run by itself ends in is its outcome. */
  lemma ReviewEndsInOutcome(p: Policy, w: World, r: Review, f: Faults, v: World, e: Result<Candidate, ReviewError>)
    requires Keyed(w, r.candidateId) && ReviewLeads(p, r, f, w, Claim, v, ReviewDone(e))
    ensures (v, e) == Outcome(p, w, r, f)
  {
    StepsReachOutcome(p, w, r, f);
    hide Outcome;
    var (v', e') := Outcome(p, w, r, f);
    var n: nat :| ReviewSteps(p, w, r, Claim, f, n) == (v, ReviewDone(e));
    var m: nat :| ReviewSteps(p, w, r, Claim, f, m) == (v', ReviewDone(e'));
    var top := if n > m then n else m;
    DoneStays(p, w, r, f, v, e, n, top);
    DoneStays(p, w, r, f, v', e', m, top);
  }

  // ---- trying again ----

  lemma SameFlags(p: Policy, a: Candidate, b: Candidate, first: string, second: string, docs: seq<Document>)
    requires SameCore(a, b)
    ensures RiskFlags(p, Draft(p, a, first), docs) == RiskFlags(p, Draft(p, b, second), docs)
  {
    var d, e := Draft(p, a, first), Draft(p, b, second);
    assert forall item :: Conflicts(p, d, item) <==> Conflicts(p, e, item);
    SortedUnique(RiskFlags(p, d, docs), RiskFlags(p, e, docs));
  }

  /** The flags found at the first attempt are found again at the second, also when the first upsert took effect. */
  lemma FlagsAgain(p: Policy, w: World, v: World, c: Candidate, d: Candidate, first: Review, second: Review)
    requires SameCore(c, d) && d.riskFlags in {c.riskFlags, Flagged(p, w, c, first).riskFlags}
    requires v.docs == w.docs || v.docs == Upserted(w.docs, FinalDocument(p, c, first.reviewer))
    ensures Flagged(p, v, d, second).riskFlags == Flagged(p, w, c, second).riskFlags
  {
    SameFlags(p, c, c, first.reviewer, second.reviewer, if p.listing then Listed(w.docs, Some(c.domain)) else []);
    SameFlags(p, d, c, second.reviewer, second.reviewer, if p.listing then Listed(v.docs, Some(c.domain)) else []);
    FinalIdentity(p, c, first.reviewer);
    OwnDocumentIsIgnored(p, Draft(p, c, second.reviewer), w.docs, FinalDocument(p, c, first.reviewer), Some(c.domain));
  }

  /** What a failed publication leaves behind. */
  lemma FailureLeaves(p: Policy, w: World, r: Review, f: Faults)
    requires Keyed(w, r.candidateId) && Outcome(p, w, r, f).1 == Err(PublicationFailed)
    ensures var (v, _) := Outcome(p, w, r, f);
      && r.candidateId in w.store.candidates
      && var c := w.store.candidates[r.candidateId];
      && v.store.candidates == w.store.candidates[r.candidateId := v.store.candidates[r.candidateId]]
      && var d := v.store.candidates[r.candidateId];
      && MayClaim(c, r) && SameCore(c, d) && d.status == PublishFailed
      && d.riskFlags in {c.riskFlags, Flagged(p, w, c, r).riskFlags}
      && (v.docs == w.docs || v.docs == Upserted(w.docs, FinalDocument(p, c, r.reviewer)))
      && v.store.audit == w.store.audit + [AuditEvent(PublishFailedEvent, r.reviewer, c.id, c.traceId)]
  {
    hide Refused, FinalDocument, Upserted;
    FlaggedKeeps(p, w, w.store.candidates[r.candidateId], r);
  }

  /** What a publication that works leaves behind. */
  lemma SuccessLeaves(p: Policy, w: World, r: Review, f: Faults)
    requires Keyed(w, r.candidateId) && r.approved && Outcome(p, w, r, f).1.Ok?
    ensures var (v, result) := Outcome(p, w, r, f);
      && r.candidateId in w.store.candidates
      && var c := w.store.candidates[r.candidateId];
      && result.value == Marked(c.(riskFlags := Flagged(p, w, c, r).riskFlags), r, Published)
      && v.store.candidates == w.store.candidates[r.candidateId := result.value]
      && v.docs == Upserted(w.docs, FinalDocument(p, c, r.reviewer))
  {
    hide Refused, FinalDocument, Upserted;
  }

  /** The flag names a document of the candidate's domain that contradicts what the candidate would publish. */
  ghost predicate Names(p: Policy, w: World, c: Candidate, reviewer: string, flag: string) {
    exists item ::
      && item in w.docs && (c.domain == "" || item.domain == c.domain)
      && Contradicts(p, Draft(p, c, reviewer), item) && flag == "potential_conflict:" + item.id + ":" + item.version
  }

  /**
   * A publication that works leaves the candidate with exactly the flags that name, in the end, the contradicting
   * documents of its domain; without any such document it keeps the flags it had.
   */
  lemma PublishedFlags(p: Policy, w: World, r: Review, f: Faults, flag: string)
    requires Keyed(w, r.candidateId) && r.approved && Outcome(p, w, r, f).1.Ok? && p.listing
    ensures r.candidateId in w.store.candidates
    ensures var c := w.store.candidates[r.candidateId];
      flag in Outcome(p, w, r, f).1.value.riskFlags <==>
        if exists x :: Names(p, w, c, r.reviewer, x) then Names(p, w, c, r.reviewer, flag) else flag in c.riskFlags
  {
    SuccessLeaves(p, w, r, f);
    var c := w.store.candidates[r.candidateId];
    hide Outcome, Refused, FinalDocument, Upserted, Draft, Contradicts;
    forall x ensures Names(p, w, c, r.reviewer, x) <==>
      x in RiskFlags(p, Draft(p, c, r.reviewer), Listed(w.docs, Some(c.domain)))
    {
      FlagsNameContradictions(p, Draft(p, c, r.reviewer), Listed(w.docs, Some(c.domain)), x);
      forall item { ListedMember(w.docs, Some(c.domain), item); }
    }
    hide Names;
    var flags := RiskFlags(p, Draft(p, c, r.reviewer), Listed(w.docs, Some(c.domain)));
    if flags != [] { assert flags[0] in flags; }
  }

  /** Whether an approval gets through depends on the candidate's content, the name's length and the repository. */
  lemma SuccessIff(p: Policy, w: World, r: Review, f: Faults)
    requires r.approved
    ensures Outcome(p, w, r, f).1.Ok? <==>
      && r.candidateId in w.store.candidates && MayClaim(w.store.candidates[r.candidateId], r)
      && |r.reviewer| <= MAX_NAME && f.publishing == Works && (p.listing ==> f.listing == Works)
      && !Refused(p, w.store.candidates[r.candidateId])
  {
    hide Refused, FinalDocument, Upserted, Flagged;
  }

  /**
   * A publication that failed at any point, before or after the upsert took effect, and is tried again by a
   * reviewer that would have got through at once, ends as if it had got through at once: same result, same
   * records, same documents. Only the log tells the difference.
   */
  lemma RetryHeals(p: Policy, w: World, first: Review, f: Faults, second: Review, g: Faults)
    requires Keyed(w, first.candidateId) && second.candidateId == first.candidateId && second.approved
    requires Outcome(p, w, first, f).1 == Err(PublicationFailed) && Outcome(p, w, second, g).1.Ok?
    ensures var (v, _) := Outcome(p, w, first, f);
      var (again, result) := Outcome(p, v, second, g);
      var (once, direct) := Outcome(p, w, second, g);
      result == direct && again.docs == once.docs && again.store.candidates == once.store.candidates
  {
    hide *;
    RetryGetsThrough(p, w, first, f, second, g);
    FailureLeaves(p, w, first, f);
    var v, id := Outcome(p, w, first, f).0, first.candidateId;
    var c, d := w.store.candidates[id], v.store.candidates[id];
    FlagsAgain(p, w, v, c, d, first, second);
    SuccessLeaves(p, w, second, g);
    SuccessLeaves(p, v, second, g);
    SameRecord(p, w, v, c, d, second);
    SameDocuments(p, w.docs, v.docs, c, d, first.reviewer, second.reviewer);
  }

  lemma RetryGetsThrough(p: Policy, w: World, first: Review, f: Faults, second: Review, g: Faults)
    requires Keyed(w, first.candidateId) && second.candidateId == first.candidateId && second.approved
    requires Outcome(p, w, first, f).1 == Err(PublicationFailed) && Outcome(p, w, second, g).1.Ok?
    ensures var v := Outcome(p, w, first, f).0; Outcome(p, v, second, g).1.Ok? && Keyed(v, second.candidateId)
    ensures Keyed(w, second.candidateId)
  {
    FailureLeaves(p, w, first, f);
    var v := Outcome(p, w, first, f).0;
    hide Outcome, Refused, Flagged, FinalDocument, Upserted;
    SameVerdict(p, w.store.candidates[first.candidateId], v.store.candidates[first.candidateId]);
    SuccessIff(p, w, second, g);
    SuccessIff(p, v, second, g);
  }

  /** Apart from flags, status and reviewer, which are set anew, the record is what it was. */
  lemma SameRecord(p: Policy, w: World, v: World, c: Candidate, d: Candidate, r: Review)
    requires SameCore(c, d) && Flagged(p, v, d, r).riskFlags == Flagged(p, w, c, r).riskFlags
    ensures Marked(d.(riskFlags := Flagged(p, v, d, r).riskFlags), r, Published)
      == Marked(c.(riskFlags := Flagged(p, w, c, r).riskFlags), r, Published)
    ensures c.id == d.id
  {
    hide Flagged;
  }

  lemma SameDocuments(
      p: Policy, before: seq<Document>, after: seq<Document>, c: Candidate, d: Candidate, first: string,
      second: string)
    requires SameCore(c, d) && (after == before || after == Upserted(before, FinalDocument(p, c, first)))
    ensures Upserted(after, FinalDocument(p, d, second)) == Upserted(before, FinalDocument(p, c, second))
  {
    SameVerdict(p, c, d);
    FinalIdentity(p, c, first);
    FinalIdentity(p, c, second);
    hide FinalDocument, Upserted, Refused;
    UpsertTwice(before, FinalDocument(p, c, first), FinalDocument(p, c, second));
  }
}
