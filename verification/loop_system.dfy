/**
 * Any number of submitters and reviewers over one store and one knowledge repository. A run interleaves
 * their steps freely; a caller may also be killed between two steps (a cancelled task or a lost process).
 */
module LoopSystem {
  import opened Domain
  import opened OperationsStore
  import opened Knowledge
  import opened FeedbackLoop

  datatype Submitter = Submitter(request: Request, pc: SubmitPc, alive: bool)

  datatype Reviewer = Reviewer(review: Review, pc: ReviewPc, alive: bool)

  /** `minted` records which submitter drew each identifier: a random identifier is never drawn twice. */
  datatype System = System(
    world: World, submitters: map<nat, Submitter>, reviewers: map<nat, Reviewer>, minted: map<string, nat>)

  datatype Action =
    | Chat(interaction: Interaction)
    | BeginSubmit(caller: nat, request: Request)
    | StepSubmit(caller: nat, feedbackHex: string, candidateHex: string)
    | KillSubmit(caller: nat)
    | BeginReview(caller: nat, review: Review)
    | StepReview(caller: nat, fault: Fault)
    | KillReview(caller: nat)

  predicate Enabled(s: System, a: Action) {
    match a
    case Chat(_) => true
    case BeginSubmit(i, _) => i !in s.submitters
    case StepSubmit(i, f, c) =>
      && i in s.submitters && s.submitters[i].alive && !s.submitters[i].pc.SubmitDone?
      && (s.submitters[i].pc.LoadInteraction? ==> "FB-" + f !in s.minted && "KC-" + c !in s.minted)
    case KillSubmit(i) => i in s.submitters
    case BeginReview(i, _) => i !in s.reviewers
    case StepReview(i, _) => i in s.reviewers && s.reviewers[i].alive && !s.reviewers[i].pc.ReviewDone?
    case KillReview(i) => i in s.reviewers
  }

  function Next(p: Policy, s: System, a: Action): System
    requires Enabled(s, a)
  {
    match a
    case Chat(interaction) => s.(world := s.world.(store := WithInteraction(s.world.store, interaction)))
    case BeginSubmit(i, q) => s.(submitters := s.submitters[i := Submitter(q, Find, true)])
    case StepSubmit(i, f, c) =>
      var (w, pc) := SubmitNext(p, s.world, s.submitters[i].request, s.submitters[i].pc, f, c);
      s.(world := w,
         submitters := s.submitters[i := s.submitters[i].(pc := pc)],
         minted := if s.submitters[i].pc.LoadInteraction? then s.minted["FB-" + f := i]["KC-" + c := i] else s.minted)
    case KillSubmit(i) => s.(submitters := s.submitters[i := s.submitters[i].(alive := false)])
    case BeginReview(i, r) => s.(reviewers := s.reviewers[i := Reviewer(r, Claim, true)])
    case StepReview(i, fault) =>
      var (w, pc) := ReviewNext(p, s.world, s.reviewers[i].review, s.reviewers[i].pc, fault);
      s.(world := w, reviewers := s.reviewers[i := s.reviewers[i].(pc := pc)])
    case KillReview(i) => s.(reviewers := s.reviewers[i := s.reviewers[i].(alive := false)])
  }

  /** Nothing has happened, and no document sits under an identifier reserved for feedback. */
  ghost predicate Initial(s: System) {
    && s.world.store == EMPTY
    && s.submitters == map[] && s.reviewers == map[] && s.minted == map[]
    && forall d :: d in s.world.docs ==> !("KB-FEEDBACK-" <= d.id)
  }

  /** `trace` lists the states of a run, one per action. */
  ghost predicate IsRun(p: Policy, trace: seq<System>, actions: seq<Action>) {
    && |trace| == |actions| + 1
    && Initial(trace[0])
    && forall k :: 0 <= k < |actions| ==> Enabled(trace[k], actions[k]) && trace[k + 1] == Next(p, trace[k], actions[k])
  }

  function WorldAfter(p: Policy, w: World, r: Reviewer, fault: Fault): World {
    ReviewNext(p, w, r.review, r.pc, fault).0
  }

  function ReviewerAfter(p: Policy, w: World, r: Reviewer, fault: Fault): Reviewer {
    r.(pc := ReviewNext(p, w, r.review, r.pc, fault).1)
  }

  /** What a step of a review is, taken out of the whole system. */
  lemma ReviewParts(p: Policy, s: System, i: nat, fault: Fault)
    requires Enabled(s, StepReview(i, fault))
    ensures var t := Next(p, s, StepReview(i, fault));
      && i in s.reviewers && !s.reviewers[i].pc.ReviewDone?
      && t.world == WorldAfter(p, s.world, s.reviewers[i], fault)
      && t.reviewers == s.reviewers[i := ReviewerAfter(p, s.world, s.reviewers[i], fault)]
      && t.submitters == s.submitters && t.minted == s.minted
  {
    hide ReviewNext;
  }

  lemma ReviewNextFrame(p: Policy, w: World, r: Reviewer, fault: Fault)
    ensures var v := WorldAfter(p, w, r, fault);
      v.store.interactions == w.store.interactions && v.store.feedback == w.store.feedback
  {
    hide Draft, Scan, Seal;
  }

  /** The field changes a review step may make leave the submission side alone. */
  lemma ReviewFrame(p: Policy, s: System, i: nat, fault: Fault)
    requires Enabled(s, StepReview(i, fault))
    ensures var t := Next(p, s, StepReview(i, fault));
      && t.submitters == s.submitters && t.minted == s.minted
      && t.world.store.interactions == s.world.store.interactions
      && t.world.store.feedback == s.world.store.feedback
  {
    hide ReviewNext;
    ReviewParts(p, s, i, fault);
    ReviewNextFrame(p, s.world, s.reviewers[i], fault);
  }
}
