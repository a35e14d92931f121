/** What every run of the feedback loop keeps about submitted feedback. */
module Submission {
  import opened Text
  import opened Domain
  import opened OperationsStore
  import opened Knowledge
  import opened FeedbackLoop
  import opened LoopSystem

  /** The record this call has put in the store, if it has got that far. */
  function RecordOf(pc: SubmitPc): Option<Feedback> {
    match pc
    case SaveCandidate(f, _) => Some(f)
    case AuditSubmission(f, _) => Some(f)
    case SubmitDone(Stored(f, _)) => Some(f)
    case _ => None
  }

  /** The candidate this call has put in the store, if it has got that far. */
  function CandidateIdOf(pc: SubmitPc): Option<string> {
    match pc
    case AuditSubmission(f, _) => f.candidateId
    case SubmitDone(Stored(f, _)) => f.candidateId
    case _ => None
  }

  predicate IsSubmissionOf(e: AuditEvent, id: string) {
    e.eventType == FeedbackSubmitted && e.entityId == id
  }

  /** How many submission events the audit log holds for this record. */
  function SubmissionEvents(audit: seq<AuditEvent>, id: string): nat {
    if audit == [] then 0
    else SubmissionEvents(audit[..|audit| - 1], id) + (if IsSubmissionOf(audit[|audit| - 1], id) then 1 else 0)
  }

  lemma SubmissionEventsAppend(audit: seq<AuditEvent>, e: AuditEvent, id: string)
    ensures SubmissionEvents(audit + [e], id) == SubmissionEvents(audit, id) + (if IsSubmissionOf(e, id) then 1 else 0)
  {
    assert (audit + [e])[..|audit|] == audit;
  }

  // ---- the invariant ----

  /** The submitter that drew this identifier, if there is one. */
  predicate MintedBy(s: System, id: string, i: nat) {
    id in s.minted && s.minted[id] == i && i in s.submitters
  }

  predicate OwnsInteraction(store: Contents, f: Feedback) {
    f.traceId in store.interactions && store.interactions[f.traceId].userId == f.userId
  }

  predicate Matches(q: Request, f: Feedback) {
    f.userId == q.userId && f.idempotencyKey == q.key
  }

  /** A record and the candidate planned with it. */
  predicate Paired(f: Feedback, c: Option<Candidate>) {
    && (f.candidateId.None? <==> c.None?)
    && (c.Some? ==> f.candidateId == Some(c.value.id) && "KC-" <= c.value.id && c.value.status == Pending)
  }

  predicate MintedPair(s: System, f: Feedback, i: nat) {
    MintedBy(s, f.id, i) && (f.candidateId.Some? ==> MintedBy(s, f.candidateId.value, i))
  }

  predicate ReplayOk(store: Contents, q: Request, f: Feedback) {
    f in store.feedback && Matches(q, f) && q.key != ""
  }

  predicate SubmitterOk(s: System, i: nat)
    requires i in s.submitters
  {
    var store, q := s.world.store, s.submitters[i].request;
    match s.submitters[i].pc
    case Find => true
    case LoadInteraction => true
    case FetchReplayed(f) => ReplayOk(store, q, f)
    case SubmitDone(Replayed(f, _)) => ReplayOk(store, q, f)
    case SubmitDone(SubmitFailed(_)) => true
    case Save(f, c) =>
      MintedPair(s, f, i) && Paired(f, c) && Matches(q, f) && f.traceId == q.traceId && OwnsInteraction(store, f)
    case SaveCandidate(f, c) =>
      f in store.feedback && MintedPair(s, f, i) && Paired(f, Some(c)) && Matches(q, f) && f.traceId == q.traceId
    case AuditSubmission(f, c) =>
      f in store.feedback && MintedPair(s, f, i) && Paired(f, c) && Matches(q, f) && f.traceId == q.traceId
    case SubmitDone(Stored(f, c)) => f in store.feedback && MintedPair(s, f, i) && Paired(f, c) && Matches(q, f)
  }

  /** The call that stored the record is the one that drew its identifier, and its user owns the interaction. */
  predicate RecordOk(s: System, f: Feedback) {
    && f.id in s.minted && s.minted[f.id] in s.submitters
    && RecordOf(s.submitters[s.minted[f.id]].pc) == Some(f)
    && OwnsInteraction(s.world.store, f)
  }

  /** Whether the call that drew this identifier has stored it as a candidate. */
  predicate CandidateStored(s: System, id: string) {
    && id in s.minted && s.minted[id] in s.submitters
    && CandidateIdOf(s.submitters[s.minted[id]].pc) == Some(id)
  }

  /** Whether the call that drew this identifier has finished storing it as a record. */
  predicate SubmissionFinished(s: System, id: string) {
    && id in s.minted && s.minted[id] in s.submitters
    && s.submitters[s.minted[id]].pc.SubmitDone?
    && var f := RecordOf(s.submitters[s.minted[id]].pc); f.Some? && f.value.id == id
  }

  ghost predicate KeysUnique(records: seq<Feedback>) {
    forall f, g :: f in records && g in records && f.idempotencyKey != "" && HasKey(g, f.userId, f.idempotencyKey) ==>
        f == g
  }

  ghost predicate NoDuplicates(records: seq<Feedback>) {
    forall a, b :: 0 <= a < b < |records| ==> records[a] != records[b]
  }

  ghost predicate Inv(s: System) {
    var store := s.world.store;
    && (forall i :: i in s.submitters ==> SubmitterOk(s, i))
    && (forall f :: f in store.feedback ==> RecordOk(s, f))
    && KeysUnique(store.feedback) && NoDuplicates(store.feedback)
    && (forall id :: id in store.candidates <==> CandidateStored(s, id))
    && (forall id :: SubmissionEvents(store.audit, id) == if SubmissionFinished(s, id) then 1 else 0)
    && (forall id :: id in s.minted ==> s.minted[id] in s.submitters)
  }

  lemma InvInitially(s: System)
    requires Initial(s)
    ensures Inv(s)
  {
  }

  // ---- the steps of a submission ----

  /** One submitter moves; records are only added, identifiers only drawn, and interactions stay. */
  ghost predicate Moves(s: System, t: System, i: nat) {
    && i in s.submitters && i in t.submitters && t.submitters == s.submitters[i := t.submitters[i]]
    && t.submitters[i].request == s.submitters[i].request
    && s.world.store.feedback <= t.world.store.feedback
    && t.world.store.interactions == s.world.store.interactions
    && (forall id :: id in s.minted ==> id in t.minted && t.minted[id] == s.minted[id])
  }

  lemma OtherSubmitter(s: System, t: System, i: nat, j: nat)
    requires Moves(s, t, i) && j in s.submitters && j != i && SubmitterOk(s, j)
    ensures j in t.submitters && SubmitterOk(t, j)
  {
    hide Paired, Matches;
    assert forall f :: f in s.world.store.feedback ==> f in t.world.store.feedback;
  }

  /** A record stays in order when its winner keeps it. */
  lemma KeptRecord(s: System, t: System, i: nat, f: Feedback)
    requires Moves(s, t, i) && RecordOk(s, f)
    requires RecordOf(s.submitters[i].pc).Some? ==> RecordOf(t.submitters[i].pc) == RecordOf(s.submitters[i].pc)
    ensures RecordOk(t, f)
  {
    hide RecordOf;
  }

  lemma SameCandidate(s: System, t: System, i: nat, id: string)
    requires Moves(s, t, i) && (id in t.minted && id !in s.minted ==> t.minted[id] == i)
    requires CandidateIdOf(t.submitters[i].pc) == CandidateIdOf(s.submitters[i].pc)
    requires CandidateIdOf(t.submitters[i].pc) == Some(id) ==> id in s.minted
    ensures CandidateStored(t, id) <==> CandidateStored(s, id)
  {
    hide CandidateIdOf;
  }

  predicate FinishedWith(pc: SubmitPc, id: string) {
    pc.SubmitDone? && var f := RecordOf(pc); f.Some? && f.value.id == id
  }

  lemma SameFinish(s: System, t: System, i: nat, id: string)
    requires Moves(s, t, i) && (id in t.minted && id !in s.minted ==> t.minted[id] == i)
    requires FinishedWith(t.submitters[i].pc, id) <==> FinishedWith(s.submitters[i].pc, id)
    requires FinishedWith(t.submitters[i].pc, id) ==> id in s.minted
    ensures SubmissionFinished(t, id) <==> SubmissionFinished(s, id)
  {
    hide RecordOf;
  }

  /** A step that neither stores nor logs anything, of a call that has stored nothing. */
  lemma QuietMove(s: System, t: System, i: nat)
    requires Inv(s) && Moves(s, t, i) && t.world == s.world && SubmitterOk(t, i)
    requires RecordOf(s.submitters[i].pc).None? && RecordOf(t.submitters[i].pc).None?
    requires CandidateIdOf(s.submitters[i].pc).None? && CandidateIdOf(t.submitters[i].pc).None?
    requires forall id :: id in t.minted && id !in s.minted ==> t.minted[id] == i
    ensures Inv(t)
  {
    hide SubmitterOk, RecordOk, CandidateStored, SubmissionFinished, RecordOf, CandidateIdOf, KeysUnique, NoDuplicates;
    forall j | j in t.submitters ensures SubmitterOk(t, j) {
      if j != i { OtherSubmitter(s, t, i, j); }
    }
    forall f | f in t.world.store.feedback ensures RecordOk(t, f) { KeptRecord(s, t, i, f); }
    forall id ensures CandidateStored(t, id) <==> CandidateStored(s, id) { SameCandidate(s, t, i, id); }
    forall id ensures SubmissionFinished(t, id) <==> SubmissionFinished(s, id) { SameFinish(s, t, i, id); }
  }

  /** What a step of a submission is, taken out of the whole system. */
  lemma StepParts(p: Policy, s: System, i: nat, f: string, c: string)
    requires Enabled(s, StepSubmit(i, f, c))
    ensures var t, x := Next(p, s, StepSubmit(i, f, c)), s.submitters[i];
      var (w, pc) := SubmitNext(p, s.world, x.request, x.pc, f, c);
      && i in s.submitters && t.world == w && t.submitters == s.submitters[i := x.(pc := pc)]
      && t.minted == if x.pc.LoadInteraction? then s.minted["FB-" + f := i]["KC-" + c := i] else s.minted
  {
    hide SubmitNext;
  }

  lemma StepFind(p: Policy, s: System, i: nat, f: string, c: string)
    requires Inv(s) && Enabled(s, StepSubmit(i, f, c)) && s.submitters[i].pc.Find?
    ensures Inv(Next(p, s, StepSubmit(i, f, c)))
  {
    StepParts(p, s, i, f, c);
    hide Next, Inv;
    QuietMove(s, Next(p, s, StepSubmit(i, f, c)), i);
  }

  lemma StepFetch(p: Policy, s: System, i: nat, f: string, c: string)
    requires Inv(s) && Enabled(s, StepSubmit(i, f, c)) && s.submitters[i].pc.FetchReplayed?
    ensures Inv(Next(p, s, StepSubmit(i, f, c)))
  {
    StepParts(p, s, i, f, c);
    assert SubmitterOk(s, i);
    hide Next, Inv;
    QuietMove(s, Next(p, s, StepSubmit(i, f, c)), i);
  }

  /** What the call has drawn is its own. */
  lemma LoadedOk(p: Policy, s: System, i: nat, f: string, c: string)
    requires Enabled(s, StepSubmit(i, f, c)) && s.submitters[i].pc.LoadInteraction?
    ensures var t := Next(p, s, StepSubmit(i, f, c)); Moves(s, t, i) && SubmitterOk(t, i)
  {
    StepParts(p, s, i, f, c);
    hide Next;
  }

  lemma StepLoad(p: Policy, s: System, i: nat, f: string, c: string)
    requires Inv(s) && Enabled(s, StepSubmit(i, f, c)) && s.submitters[i].pc.LoadInteraction?
    ensures Inv(Next(p, s, StepSubmit(i, f, c)))
  {
    StepParts(p, s, i, f, c);
    LoadedOk(p, s, i, f, c);
    hide Next, Inv, SubmitterOk, NewFeedback, NewCandidate;
    QuietMove(s, Next(p, s, StepSubmit(i, f, c)), i);
  }

  /** A call about to save holds a record under an identifier of its own. */
  lemma SaverIsFresh(s: System, i: nat)
    requires Inv(s) && i in s.submitters && s.submitters[i].pc.Save?
    ensures SubmitterOk(s, i)
    ensures forall g :: g in s.world.store.feedback ==> g.id != s.submitters[i].pc.feedback.id
  {
    assert SubmitterOk(s, i);
    assert forall g :: g in s.world.store.feedback ==> RecordOk(s, g);
    hide Inv;
  }

  lemma StepSave(p: Policy, s: System, i: nat, f: string, c: string)
    requires Inv(s) && Enabled(s, StepSubmit(i, f, c)) && s.submitters[i].pc.Save?
    ensures Inv(Next(p, s, StepSubmit(i, f, c)))
  {
    assert i in s.submitters;
    hide Inv, Next;
    var record := s.submitters[i].pc.feedback;
    if Lookup(s.world.store, record.userId, record.idempotencyKey).None? {
      StepSaveNew(p, s, i, f, c);
    } else {
      StepSaveReplay(p, s, i, f, c);
    }
  }

  /** A record of this user already carries the key: nothing is stored. */
  lemma StepSaveReplay(p: Policy, s: System, i: nat, f: string, c: string)
    requires Inv(s) && Enabled(s, StepSubmit(i, f, c)) && s.submitters[i].pc.Save?
    requires var r := s.submitters[i].pc.feedback; Lookup(s.world.store, r.userId, r.idempotencyKey).Some?
    ensures Inv(Next(p, s, StepSubmit(i, f, c)))
  {
    StepParts(p, s, i, f, c);
    SaverIsFresh(s, i);
    hide Next, Inv, MintedPair, OwnsInteraction;
    QuietMove(s, Next(p, s, StepSubmit(i, f, c)), i);
  }

  lemma AppendUnique(records: seq<Feedback>, r: Feedback)
    requires KeysUnique(records) && NoDuplicates(records)
    requires forall g :: g in records ==> g.id != r.id
    requires r.idempotencyKey != "" ==> forall g :: g in records ==> !HasKey(g, r.userId, r.idempotencyKey)
    ensures KeysUnique(records + [r]) && NoDuplicates(records + [r])
  {
  }

  /** A call stores its record. */
  ghost predicate Appends(s: System, t: System, i: nat, r: Feedback) {
    && Moves(s, t, i) && t.minted == s.minted && s.submitters[i].pc.Save? && s.submitters[i].pc.feedback == r
    && t.world.store == s.world.store.(feedback := s.world.store.feedback + [r])
    && (forall g :: g in s.world.store.feedback ==> g.id != r.id)
    && (r.idempotencyKey != "" ==> forall g :: g in s.world.store.feedback ==> !HasKey(g, r.userId, r.idempotencyKey))
    && match t.submitters[i].pc
       case SaveCandidate(f, c) => f == r && s.submitters[i].pc.planned == Some(c)
       case AuditSubmission(f, c) => f == r && c.None? && s.submitters[i].pc.planned.None?
       case _ => false
  }

  lemma SaveAppends(p: Policy, s: System, i: nat, f: string, c: string)
    requires Enabled(s, StepSubmit(i, f, c)) && s.submitters[i].pc.Save?
    requires var r := s.submitters[i].pc.feedback; Lookup(s.world.store, r.userId, r.idempotencyKey).None?
    requires forall g :: g in s.world.store.feedback ==> g.id != s.submitters[i].pc.feedback.id
    ensures Appends(s, Next(p, s, StepSubmit(i, f, c)), i, s.submitters[i].pc.feedback)
  {
    StepParts(p, s, i, f, c);
    hide Next;
  }

  lemma AppendedRecord(s: System, t: System, i: nat, r: Feedback)
    requires Appends(s, t, i, r) && SubmitterOk(s, i)
    ensures RecordOk(t, r) && SubmitterOk(t, i) && CandidateIdOf(t.submitters[i].pc).None?
    ensures forall id :: !FinishedWith(t.submitters[i].pc, id)
  {
    hide KeysUnique, NoDuplicates;
  }

  lemma AppendKeeps(s: System, t: System, i: nat, r: Feedback)
    requires Inv(s) && Appends(s, t, i, r)
    ensures Inv(t)
  {
    hide SubmitterOk, RecordOk, CandidateStored, SubmissionFinished, RecordOf, CandidateIdOf, KeysUnique, NoDuplicates;
    AppendedRecord(s, t, i, r);
    forall j | j in t.submitters ensures SubmitterOk(t, j) {
      if j != i { OtherSubmitter(s, t, i, j); }
    }
    SavesNothingYet(s.submitters[i].pc);
    forall f | f in t.world.store.feedback ensures RecordOk(t, f) {
      if f != r { KeptRecord(s, t, i, f); }
    }
    AppendUnique(s.world.store.feedback, r);
    forall id ensures CandidateStored(t, id) <==> CandidateStored(s, id) { SameCandidate(s, t, i, id); }
    forall id ensures SubmissionFinished(t, id) <==> SubmissionFinished(s, id) { SameFinish(s, t, i, id); }
  }

  lemma SavesNothingYet(pc: SubmitPc)
    requires pc.Save?
    ensures RecordOf(pc).None? && CandidateIdOf(pc).None? && forall id :: !FinishedWith(pc, id)
  {
  }

  /** No record of this user carries the key yet: the new one is appended. */
  lemma StepSaveNew(p: Policy, s: System, i: nat, f: string, c: string)
    requires Inv(s) && Enabled(s, StepSubmit(i, f, c)) && s.submitters[i].pc.Save?
    requires var r := s.submitters[i].pc.feedback; Lookup(s.world.store, r.userId, r.idempotencyKey).None?
    ensures Inv(Next(p, s, StepSubmit(i, f, c)))
  {
    assert i in s.submitters;
    hide Inv, Next, Appends;
    SaverIsFresh(s, i);
    SaveAppends(p, s, i, f, c);
    AppendKeeps(s, Next(p, s, StepSubmit(i, f, c)), i, s.submitters[i].pc.feedback);
  }

  /** The last two steps: the candidate is stored, or the submission is logged. */
  ghost predicate Completes(s: System, t: System, i: nat) {
    && Moves(s, t, i) && t.minted == s.minted && t.world.store.feedback == s.world.store.feedback
    && match s.submitters[i].pc
       case SaveCandidate(f, c) =>
         && t.world.store == s.world.store.(candidates := s.world.store.candidates[c.id := c])
         && t.submitters[i].pc == AuditSubmission(f, Some(c))
       case AuditSubmission(f, c) =>
         && t.submitters[i].pc == SubmitDone(Stored(f, c))
         && exists e: AuditEvent :: e.eventType == FeedbackSubmitted && e.entityId == f.id
              && t.world.store == s.world.store.(audit := s.world.store.audit + [e])
       case _ => false
  }

  lemma StepCompletes(p: Policy, s: System, i: nat, f: string, c: string)
    requires Enabled(s, StepSubmit(i, f, c))
    requires s.submitters[i].pc.SaveCandidate? || s.submitters[i].pc.AuditSubmission?
    ensures Completes(s, Next(p, s, StepSubmit(i, f, c)), i)
  {
    StepParts(p, s, i, f, c);
    hide Next;
  }

  lemma CompletedCandidate(s: System, t: System, i: nat, id: string)
    requires Completes(s, t, i) && SubmitterOk(s, i) && (id in s.world.store.candidates <==> CandidateStored(s, id))
    ensures id in t.world.store.candidates <==> CandidateStored(t, id)
  {
    hide RecordOf, Matches, OwnsInteraction;
  }

  lemma CompletedEvents(s: System, t: System, i: nat, id: string)
    requires Completes(s, t, i) && SubmitterOk(s, i)
    requires SubmissionEvents(s.world.store.audit, id) == if SubmissionFinished(s, id) then 1 else 0
    ensures SubmissionEvents(t.world.store.audit, id) == if SubmissionFinished(t, id) then 1 else 0
  {
    hide SubmissionEvents, CandidateIdOf, Matches, OwnsInteraction, Paired;
    if s.submitters[i].pc.AuditSubmission? {
      var e: AuditEvent :| e.eventType == FeedbackSubmitted && e.entityId == s.submitters[i].pc.feedback.id
        && t.world.store == s.world.store.(audit := s.world.store.audit + [e]);
      SubmissionEventsAppend(s.world.store.audit, e, id);
    }
  }

  lemma CompletedSubmitter(s: System, t: System, i: nat)
    requires Completes(s, t, i) && SubmitterOk(s, i)
    ensures SubmitterOk(t, i) && RecordOf(t.submitters[i].pc) == RecordOf(s.submitters[i].pc)
  {
    hide SubmissionEvents, CandidateIdOf;
  }

  lemma CompleteKeeps(s: System, t: System, i: nat)
    requires Inv(s) && Completes(s, t, i)
    ensures Inv(t)
  {
    hide SubmitterOk, RecordOk, CandidateStored, SubmissionFinished, RecordOf, CandidateIdOf;
    hide KeysUnique, NoDuplicates, SubmissionEvents;
    CompletedSubmitter(s, t, i);
    forall j | j in t.submitters ensures SubmitterOk(t, j) {
      if j != i { OtherSubmitter(s, t, i, j); }
    }
    forall f | f in t.world.store.feedback ensures RecordOk(t, f) { KeptRecord(s, t, i, f); }
    forall id ensures id in t.world.store.candidates <==> CandidateStored(t, id) { CompletedCandidate(s, t, i, id); }
    forall id ensures SubmissionEvents(t.world.store.audit, id) == if SubmissionFinished(t, id) then 1 else 0 {
      CompletedEvents(s, t, i, id);
    }
  }

  lemma StepComplete(p: Policy, s: System, i: nat, f: string, c: string)
    requires Inv(s) && Enabled(s, StepSubmit(i, f, c))
    requires s.submitters[i].pc.SaveCandidate? || s.submitters[i].pc.AuditSubmission?
    ensures Inv(Next(p, s, StepSubmit(i, f, c)))
  {
    assert i in s.submitters;
    hide Inv, Next, Completes;
    StepCompletes(p, s, i, f, c);
    CompleteKeeps(s, Next(p, s, StepSubmit(i, f, c)), i);
  }

  lemma StepSubmitKeeps(p: Policy, s: System, i: nat, f: string, c: string)
    requires Inv(s) && Enabled(s, StepSubmit(i, f, c))
    ensures Inv(Next(p, s, StepSubmit(i, f, c)))
  {
    match s.submitters[i].pc
    case Find => StepFind(p, s, i, f, c);
    case FetchReplayed(_) => StepFetch(p, s, i, f, c);
    case LoadInteraction => StepLoad(p, s, i, f, c);
    case Save(_, _) => StepSave(p, s, i, f, c);
    case SaveCandidate(_, _) => StepComplete(p, s, i, f, c);
    case AuditSubmission(_, _) => StepComplete(p, s, i, f, c);
  }

  /** A review logs at most one event, and never a submission. */
  lemma ReviewLogs(p: Policy, s: System, i: nat, fault: Fault, id: string)
    requires Enabled(s, StepReview(i, fault))
    ensures SubmissionEvents(Next(p, s, StepReview(i, fault)).world.store.audit, id)
        == SubmissionEvents(s.world.store.audit, id)
  {
    var before, after := s.world.store.audit, Next(p, s, StepReview(i, fault)).world.store.audit;
    assert after == before || exists e :: after == before + [e] && e.eventType != FeedbackSubmitted by {
      hide Scan, Draft, Seal, SubmissionEvents;
      assert after != before ==> after == before + [after[|before|]];
    }
    hide Next;
    if after != before {
      SubmissionEventsAppend(before, after[|before|], id);
    }
  }

  /** A review changes no record and no identifier of a candidate, and logs no submission. */
  lemma StepReviewKeeps(p: Policy, s: System, i: nat, fault: Fault)
    requires Inv(s) && Enabled(s, StepReview(i, fault))
    requires Next(p, s, StepReview(i, fault)).world.store.candidates.Keys == s.world.store.candidates.Keys
    ensures Inv(Next(p, s, StepReview(i, fault)))
  {
    var t := Next(p, s, StepReview(i, fault));
    ReviewFrame(p, s, i, fault);
    hide Next;
    forall id ensures SubmissionEvents(t.world.store.audit, id) == SubmissionEvents(s.world.store.audit, id) {
      ReviewLogs(p, s, i, fault, id);
    }
    SameSubmissions(s, t);
  }

  /** Steps of others: same submitters, same records, same candidate identifiers, same submission events. */
  lemma SameSubmissions(s: System, t: System)
    requires Inv(s) && t.submitters == s.submitters && t.minted == s.minted
    requires t.world.store.interactions == s.world.store.interactions
    requires t.world.store.feedback == s.world.store.feedback
    requires t.world.store.candidates.Keys == s.world.store.candidates.Keys
    requires forall id :: SubmissionEvents(t.world.store.audit, id) == SubmissionEvents(s.world.store.audit, id)
    ensures Inv(t)
  {
    forall j | j in t.submitters ensures SubmitterOk(t, j) { assert SubmitterOk(s, j); }
    forall g | g in t.world.store.feedback ensures RecordOk(t, g) { assert RecordOk(s, g); }
    forall id ensures CandidateStored(t, id) <==> CandidateStored(s, id) {}
    forall id ensures SubmissionFinished(t, id) <==> SubmissionFinished(s, id) {}
  }

  /** A conversation turn records its interaction only once: what a record refers to never changes. */
  lemma ChatKeeps(p: Policy, s: System, a: Action)
    requires Inv(s) && a.Chat?
    ensures Inv(Next(p, s, a))
  {
    var t := Next(p, s, a);
    forall f | OwnsInteraction(s.world.store, f) ensures OwnsInteraction(t.world.store, f) {}
    forall j | j in t.submitters ensures SubmitterOk(t, j) { assert SubmitterOk(s, j); }
    forall g | g in t.world.store.feedback ensures RecordOk(t, g) { assert RecordOk(s, g); }
    forall id ensures CandidateStored(t, id) <==> CandidateStored(s, id) {}
    forall id ensures SubmissionFinished(t, id) <==> SubmissionFinished(s, id) {}
  }

  /** A call begins, or one dies: what every call has done so far stays. */
  ghost predicate Attends(s: System, t: System) {
    && t.world == s.world && t.minted == s.minted && s.submitters.Keys <= t.submitters.Keys
    && (forall j :: j in s.submitters ==> t.submitters[j] == s.submitters[j].(alive := t.submitters[j].alive))
    && (forall j :: j in t.submitters && j !in s.submitters ==> t.submitters[j].pc == Find)
  }

  lemma AttendingSubmitter(s: System, t: System, j: nat)
    requires Attends(s, t) && j in t.submitters && (j in s.submitters ==> SubmitterOk(s, j))
    ensures SubmitterOk(t, j)
  {
    hide Paired, Matches, OwnsInteraction;
  }

  lemma AttendingRecord(s: System, t: System, f: Feedback)
    requires Attends(s, t) && RecordOk(s, f)
    ensures RecordOk(t, f)
  {
    hide RecordOf, OwnsInteraction;
  }

  lemma AttendingSame(s: System, t: System, id: string)
    requires Attends(s, t) && (id in s.minted ==> s.minted[id] in s.submitters)
    ensures CandidateStored(t, id) <==> CandidateStored(s, id)
    ensures SubmissionFinished(t, id) <==> SubmissionFinished(s, id)
  {
    hide RecordOf, CandidateIdOf;
  }

  lemma CallerAttends(p: Policy, s: System, a: Action)
    requires Enabled(s, a) && (a.BeginSubmit? || a.KillSubmit?)
    ensures Attends(s, Next(p, s, a))
  {
    hide SubmitNext, ReviewNext;
  }

  lemma CallerActionsKeep(p: Policy, s: System, a: Action)
    requires Inv(s) && Enabled(s, a) && (a.BeginSubmit? || a.KillSubmit?)
    ensures Inv(Next(p, s, a))
  {
    hide Next, Attends, SubmitterOk, RecordOk, CandidateStored, SubmissionFinished, KeysUnique, NoDuplicates;
    var t := Next(p, s, a);
    CallerAttends(p, s, a);
    AttendedWorld(s, t);
    forall j | j in t.submitters ensures SubmitterOk(t, j) { AttendingSubmitter(s, t, j); }
    forall g | g in t.world.store.feedback ensures RecordOk(t, g) { AttendingRecord(s, t, g); }
    forall id ensures CandidateStored(t, id) <==> CandidateStored(s, id) { AttendingSame(s, t, id); }
    forall id ensures SubmissionFinished(t, id) <==> SubmissionFinished(s, id) { AttendingSame(s, t, id); }
  }

  lemma AttendedWorld(s: System, t: System)
    requires Attends(s, t)
    ensures t.world == s.world && t.minted == s.minted && s.submitters.Keys <= t.submitters.Keys
  {
  }

  lemma ReviewerActionsKeep(p: Policy, s: System, a: Action)
    requires Inv(s) && Enabled(s, a) && (a.BeginReview? || a.KillReview?)
    ensures Inv(Next(p, s, a))
  {
    SameSubmissions(s, Next(p, s, a));
  }
}
