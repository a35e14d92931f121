/** `InMemoryOperationsStore`: every public operation runs under one lock, so each is one atomic step. */
module OperationsStore {
  import opened Text
  import opened Domain

  /** The store as a value. Feedback is a dictionary in insertion order, kept as its list of values. */
  datatype Contents = Contents(
    interactions: map<string, Interaction>,
    feedback: seq<Feedback>,
    candidates: map<string, Candidate>,
    audit: seq<AuditEvent>)

  const EMPTY := Contents(map[], [], map[], [])

  function WithInteraction(s: Contents, record: Interaction): Contents {
    if record.traceId in s.interactions then s
    else s.(interactions := s.interactions[record.traceId := record])
  }

  predicate HasKey(f: Feedback, user: string, key: string) {
    f.userId == user && f.idempotencyKey == key
  }

  /** The first record, in insertion order, of this user under this key. */
  function FindByKey(records: seq<Feedback>, user: string, key: string): (r: Option<Feedback>)
    ensures r.Some? ==> r.value in records && HasKey(r.value, user, key)
    ensures r.None? ==> forall f :: f in records ==> !HasKey(f, user, key)
  {
    if records == [] then None
    else if HasKey(records[0], user, key) then Some(records[0])
    else FindByKey(records[1..], user, key)
  }

  function Lookup(s: Contents, user: string, key: string): Option<Feedback> {
    if key == "" then None else FindByKey(s.feedback, user, key)
  }

  /** `dict[f.id] = f`: replaces in place, or appends. */
  function Put(records: seq<Feedback>, f: Feedback): (r: seq<Feedback>)
    ensures (forall g :: g in records ==> g.id != f.id) ==> r == records + [f]
  {
    if records == [] then [f]
    else if records[0].id == f.id then [f] + records[1..]
    else [records[0]] + Put(records[1..], f)
  }

  /** Returns the record already stored under this user and key, or stores the new one. */
  function Saved(s: Contents, f: Feedback): (Contents, Feedback) {
    match Lookup(s, f.userId, f.idempotencyKey)
    case Some(existing) => (s, existing)
    case None => (s.(feedback := Put(s.feedback, f)), f)
  }

  function CandidateOf(s: Contents, id: string): Option<Candidate> {
    if id in s.candidates then Some(s.candidates[id]) else None
  }

  function InteractionOf(s: Contents, trace: string): Option<Interaction> {
    if trace in s.interactions then Some(s.interactions[trace]) else None
  }

  /** Both `save_candidate` and `update_candidate`: the whole record is overwritten. */
  function WithCandidate(s: Contents, c: Candidate): Contents {
    s.(candidates := s.candidates[c.id := c])
  }

  predicate StatusIs(s: Contents, id: string, expected: Status) {
    id in s.candidates && s.candidates[id].status == expected
  }

  /** The compare-and-set on the status field. */
  function CompareAndSet(s: Contents, id: string, expected: Status, next: Status, reviewer: string): (Contents, bool) {
    if StatusIs(s, id, expected)
    then (s.(candidates := s.candidates[id := s.candidates[id].(status := next, reviewedBy := Some(reviewer))]), true)
    else (s, false)
  }

  function WithAudit(s: Contents, e: AuditEvent): Contents {
    s.(audit := s.audit + [e])
  }

  class InMemoryOperationsStore {
    var interactions: map<string, Interaction>
    var feedback: seq<Feedback>
    var candidates: map<string, Candidate>
    var audit: seq<AuditEvent>

    ghost function Value(): Contents
      reads this
    {
      Contents(interactions, feedback, candidates, audit)
    }

    constructor ()
      ensures Value() == EMPTY
    {
      interactions, feedback, candidates, audit := map[], [], map[], [];
    }

    method RecordInteraction(record: Interaction)
      modifies this`interactions
      ensures Value() == WithInteraction(old(Value()), record)
    {
      if record.traceId !in interactions {
        interactions := interactions[record.traceId := record];
      }
    }

    method GetInteraction(trace: string) returns (r: Option<Interaction>)
      ensures r == InteractionOf(Value(), trace)
    {
      r := if trace in interactions then Some(interactions[trace]) else None;
    }

    method GetFeedbackByIdempotency(user: string, key: string) returns (r: Option<Feedback>)
      ensures r == Lookup(Value(), user, key)
    {
      if key == "" { return None; }
      var i := 0;
      while i < |feedback|
        invariant i <= |feedback|
        invariant FindByKey(feedback, user, key) == FindByKey(feedback[i..], user, key)
      {
        if HasKey(feedback[i], user, key) { return Some(feedback[i]); }
        i := i + 1;
      }
      return None;
    }

    method SaveFeedback(f: Feedback) returns (saved: Feedback)
      modifies this`feedback
      ensures (Value(), saved) == Saved(old(Value()), f)
    {
      var existing := GetFeedbackByIdempotency(f.userId, f.idempotencyKey);
      if existing.Some? { return existing.value; }
      feedback := Put(feedback, f);
      saved := f;
    }

    method GetCandidate(id: string) returns (r: Option<Candidate>)
      ensures r == CandidateOf(Value(), id)
    {
      r := if id in candidates then Some(candidates[id]) else None;
    }

    method PutCandidate(c: Candidate)
      modifies this`candidates
      ensures Value() == WithCandidate(old(Value()), c)
    {
      candidates := candidates[c.id := c];
    }

    method UpdateStatus(id: string, expected: Status, next: Status, reviewer: string) returns (updated: bool)
      modifies this`candidates
      ensures (Value(), updated) == CompareAndSet(old(Value()), id, expected, next, reviewer)
    {
      if id !in candidates || candidates[id].status != expected { return false; }
      candidates := candidates[id := candidates[id].(status := next, reviewedBy := Some(reviewer))];
      updated := true;
    }

    method RecordAudit(e: AuditEvent)
      modifies this`audit
      ensures Value() == WithAudit(old(Value()), e)
    {
      audit := audit + [e];
    }
  }
}
