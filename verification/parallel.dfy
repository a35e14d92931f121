/**
 * All requests in progress at once: plans run in parallel by `asyncio.gather`, plans run task by task, and
 * messages with a single task. The tasks of plans share one semaphore; a single task takes no permit.
 * Requests in progress at once belong to different sessions, since a session's own wait for its lock.
 *
 * Each task runs in atomic steps from one await to the next: it starts, waits for a permit if it belongs to
 * a plan and calls an agent, runs the agent, and finishes.
 */
module ParallelExecution {
  import opened Text
  import opened Planner
  import opened Executor
  import D = Domain

  /** A request: its tasks, and what each task's agent answers when called with the inputs of this request. */
  datatype Job = Job(tasks: seq<Task>, replies: seq<AgentReply>)

  datatype Mode = Direct | Parallel | Sequential

  function ModeOf(job: Job): Mode {
    if !IsMulti(job.tasks) then Direct else if IsParallel(job.tasks) then Parallel else Sequential
  }

  datatype Phase = NotStarted | Queued | Running | Finished(outcome: Outcome)

  /** `slots` names the tasks that hold a permit, `permits` counts the free ones. */
  datatype Pool = Pool(phases: map<(nat, nat), Phase>, permits: int, slots: set<(nat, nat)>)

  predicate IsTask(jobs: seq<Job>, x: (nat, nat)) {
    x.0 < |jobs| && x.1 < |jobs[x.0].tasks| == |jobs[x.0].replies|
  }

  function TaskAt(jobs: seq<Job>, x: (nat, nat)): Task
    requires IsTask(jobs, x)
  {
    jobs[x.0].tasks[x.1]
  }

  function ReplyAt(jobs: seq<Job>, x: (nat, nat)): AgentReply
    requires IsTask(jobs, x)
  {
    jobs[x.0].replies[x.1]
  }

  function ModeAt(jobs: seq<Job>, x: (nat, nat)): Mode
    requires IsTask(jobs, x)
  {
    ModeOf(jobs[x.0])
  }

  function AllTasks(jobs: seq<Job>): set<(nat, nat)> {
    set r, i | 0 <= r < |jobs| && 0 <= i < |jobs[r].tasks| && IsTask(jobs, (r, i)) :: (r, i)
  }

  lemma AllTasksAre(jobs: seq<Job>, x: (nat, nat))
    ensures x in AllTasks(jobs) <==> IsTask(jobs, x)
  {
    assert x == (x.0, x.1);
  }

  // ---- a message with a single task ----

  function DirectNotice(reason: Reason): string {
    match reason
    case LowConfidence => "我还不能准确判断你的需求，请补充商品、订单号或具体办理事项。"
    case Hello => "你好，我是 ShopAgent。可以帮你查商品、价格、参数和库存，也可以按场景推荐。"
    case NoAgent => "该业务能力尚未接入，请转人工客服处理。"
    case _ => "当前自动服务暂时不可用，已为你转接人工客服，请稍后重试。"
  }

  /** The answer to a single task. Its condition and dependencies, of which it has none, are not looked at. */
  function AnsweredDirectly(o: Config, t: Task, reply: AgentReply): Outcome {
    var nothing := Data("{}", false, false, Absent);
    var agent := o.agentFor(t.intent.intent);
    if t.intent.confidence < o.threshold || t.intent.intent == D.Unknown then
      Outcome(t, InputRequired, DirectNotice(LowConfidence), nothing, [], None, true)
    else if t.intent.intent == D.Greeting then
      Outcome(t, Completed, DirectNotice(Hello), nothing, [], None, false)
    else if agent.None? then
      var data := Data(o.render(NotConnected, t), false, false, Absent);
      Outcome(t, NotConnected, DirectNotice(NoAgent), data, [], None, true)
    else
      match reply
      case Raised =>
        var data := Data(o.render(Failed, t), false, true, Absent);
        Outcome(t, Failed, DirectNotice(AgentFailed), data, [], agent, true)
      case Reply(answer, data, tools, degraded) =>
        var state :=
          if degraded || data.error then Partial else if data.missingFields then InputRequired else Completed;
        Outcome(t, state, answer, data, tools, agent, degraded || data.missingFields || data.error)
  }

  /** A single task fares like a task of a plan; only the fixed answers read differently. */
  lemma DirectAgrees(o: Config, t: Task, reply: AgentReply)
    ensures var x, y := AnsweredDirectly(o, t, reply), Execute(o, t, reply);
      && x.state == y.state && x.toolsUsed == y.toolsUsed && x.agent == y.agent && x.needHuman == y.needHuman
      && (CallsAgent(o, t) && reply.Reply? ==> x == y)
  {
    hide Notice, DirectNotice;
  }

  // ---- the steps ----

  function Start(jobs: seq<Job>, limit: nat): Pool {
    Pool(map x | x in AllTasks(jobs) :: NotStarted, limit, {})
  }

  /** The outcomes, so far, of the first `n` tasks of a request, by task identifier. */
  function DoneIn(jobs: seq<Job>, p: Pool, r: nat, n: nat): map<string, Outcome>
    requires r < |jobs| && n <= |jobs[r].tasks|
    requires forall i: nat :: i < n ==> (r, i) in p.phases
  {
    if n == 0 then map[]
    else
      var done, phase := DoneIn(jobs, p, r, n - 1), p.phases[(r, n - 1)];
      if phase.Finished? then done[jobs[r].tasks[n - 1].id := phase.outcome] else done
  }

  /** A plan that is not parallel starts a task when the one before it is finished. */
  predicate Ready(jobs: seq<Job>, p: Pool, x: (nat, nat))
    requires IsTask(jobs, x) && p.phases.Keys == AllTasks(jobs)
  {
    ModeAt(jobs, x) == Sequential && x.1 > 0 ==>
      (AllTasksAre(jobs, (x.0, x.1 - 1)); p.phases[(x.0, x.1 - 1)].Finished?)
  }

  function GateIn(o: Config, jobs: seq<Job>, p: Pool, x: (nat, nat)): Option<Outcome>
    requires IsTask(jobs, x) && p.phases.Keys == AllTasks(jobs)
  {
    if ModeAt(jobs, x) != Sequential then None
    else
      assert forall i: nat :: i < x.1 ==> IsTask(jobs, (x.0, i)) && (x.0, i) in AllTasks(jobs);
      Gate(o, TaskAt(jobs, x), DoneIn(jobs, p, x.0, x.1))
  }

  /** The outcome of a task that no check holds up. */
  function OutcomeIn(o: Config, jobs: seq<Job>, x: (nat, nat)): Outcome
    requires IsTask(jobs, x)
  {
    if ModeAt(jobs, x) == Direct then AnsweredDirectly(o, TaskAt(jobs, x), ReplyAt(jobs, x))
    else Execute(o, TaskAt(jobs, x), ReplyAt(jobs, x))
  }

  /** The next phase of a task, or `None` while it has to wait or is done. */
  function NextPhase(o: Config, jobs: seq<Job>, p: Pool, x: (nat, nat)): Option<Phase>
    requires IsTask(jobs, x) && x in p.phases && p.phases.Keys == AllTasks(jobs)
  {
    match p.phases[x]
    case NotStarted =>
      if !Ready(jobs, p, x) then None
      else if GateIn(o, jobs, p, x).Some? then Some(Finished(GateIn(o, jobs, p, x).value))
      else if !CallsAgent(o, TaskAt(jobs, x)) then Some(Finished(OutcomeIn(o, jobs, x)))
      else if ModeAt(jobs, x) == Direct then Some(Running)
      else Some(Queued)
    case Queued => if p.permits <= 0 then None else Some(Running)
    case Running => Some(Finished(OutcomeIn(o, jobs, x)))
    case Finished(_) => None
  }

  function Advance(o: Config, jobs: seq<Job>, p: Pool, x: (nat, nat)): Option<Pool>
    requires IsTask(jobs, x) && x in p.phases && p.phases.Keys == AllTasks(jobs)
  {
    match NextPhase(o, jobs, p, x)
    case None => None
    case Some(phase) =>
      var phases := p.phases[x := phase];
      if p.phases[x] == Queued then Some(Pool(phases, p.permits - 1, p.slots + {x}))
      else if p.phases[x] == Running && ModeAt(jobs, x) != Direct then Some(Pool(phases, p.permits + 1, p.slots - {x}))
      else Some(Pool(phases, p.permits, p.slots))
  }

  ghost predicate Steps(o: Config, jobs: seq<Job>, p: Pool, x: (nat, nat), q: Pool) {
    IsTask(jobs, x) && x in p.phases && p.phases.Keys == AllTasks(jobs) && Advance(o, jobs, p, x) == Some(q)
  }

  /** The pools of a run in which the tasks `steps` advance one after another. */
  ghost predicate IsRun(o: Config, jobs: seq<Job>, limit: nat, run: seq<Pool>, steps: seq<(nat, nat)>) {
    && |run| == |steps| + 1 && run[0] == Start(jobs, limit)
    && forall k :: 0 <= k < |steps| ==> Steps(o, jobs, run[k], steps[k], run[k + 1])
  }

  // ---- the invariant ----

  /** The outcome the task has when its request runs alone, one task after another if it is a plan. */
  function Expected(o: Config, jobs: seq<Job>, x: (nat, nat)): Outcome
    requires IsTask(jobs, x)
  {
    if ModeAt(jobs, x) == Sequential then Final(o, jobs[x.0].tasks, jobs[x.0].replies, x.1) else OutcomeIn(o, jobs, x)
  }

  /** Whether the task calls its agent. */
  predicate WillCall(o: Config, jobs: seq<Job>, x: (nat, nat))
    requires IsTask(jobs, x)
  {
    if ModeAt(jobs, x) == Sequential then Runs(o, jobs[x.0].tasks, jobs[x.0].replies, x.1)
    else CallsAgent(o, TaskAt(jobs, x))
  }

  predicate PhaseOk(o: Config, jobs: seq<Job>, x: (nat, nat), phase: Phase)
    requires IsTask(jobs, x)
  {
    match phase
    case NotStarted => true
    case Queued => WillCall(o, jobs, x) && ModeAt(jobs, x) != Direct
    case Running => WillCall(o, jobs, x)
    case Finished(outcome) => outcome == Expected(o, jobs, x)
  }

  predicate HoldsPermit(jobs: seq<Job>, p: Pool, x: (nat, nat)) {
    IsTask(jobs, x) && x in p.phases && p.phases[x] == Running && ModeAt(jobs, x) != Direct
  }

  ghost predicate Inv(o: Config, jobs: seq<Job>, limit: nat, p: Pool) {
    && p.phases.Keys == AllTasks(jobs)
    && PermitsOk(jobs, limit, p)
    && (forall x :: x in p.phases ==> TaskOk(o, jobs, p, x))
  }

  ghost predicate PermitsOk(jobs: seq<Job>, limit: nat, p: Pool) {
    && p.permits >= 0 && p.permits + |p.slots| == limit
    && (forall x :: x in p.slots <==> HoldsPermit(jobs, p, x))
  }

  predicate TaskOk(o: Config, jobs: seq<Job>, p: Pool, x: (nat, nat))
    requires p.phases.Keys == AllTasks(jobs) && x in p.phases
  {
    IsTask(jobs, x) && PhaseOk(o, jobs, x, p.phases[x]) && (p.phases[x] != NotStarted ==> Ready(jobs, p, x))
  }

  lemma InvInitially(o: Config, jobs: seq<Job>, limit: nat)
    ensures Inv(o, jobs, limit, Start(jobs, limit))
  {
    forall x | x in AllTasks(jobs) ensures IsTask(jobs, x) { AllTasksAre(jobs, x); }
  }

  lemma PreviousFinished(o: Config, jobs: seq<Job>, limit: nat, p: Pool, x: (nat, nat))
    requires Inv(o, jobs, limit, p) && IsTask(jobs, x) && ModeAt(jobs, x) == Sequential && Ready(jobs, p, x) && x.1 > 0
    ensures var y := (x.0, x.1 - 1);
      IsTask(jobs, y) && ModeAt(jobs, y) == Sequential && y in p.phases && p.phases[y].Finished? && Ready(jobs, p, y)
  {
    var y := (x.0, x.1 - 1);
    AllTasksAre(jobs, y);
    assert TaskOk(o, jobs, p, y);
    hide PhaseOk, PermitsOk, AllTasks;
  }

  /** In a plan that is not parallel everything before a ready task is finished. */
  lemma {:induction false} EarlierFinished(o: Config, jobs: seq<Job>, limit: nat, p: Pool, x: (nat, nat), i: nat)
    requires Inv(o, jobs, limit, p) && IsTask(jobs, x) && ModeAt(jobs, x) == Sequential && Ready(jobs, p, x) && i < x.1
    ensures (x.0, i) in p.phases && p.phases[(x.0, i)].Finished?
    decreases x.1
  {
    hide *;
    PreviousFinished(o, jobs, limit, p, x);
    if i < x.1 - 1 {
      EarlierFinished(o, jobs, limit, p, (x.0, x.1 - 1), i);
    }
  }

  /** What a plan knows when a task is ready is what it would know running alone. */
  lemma {:induction false} DoneIsDoneAfter(o: Config, jobs: seq<Job>, limit: nat, p: Pool, r: nat, n: nat)
    requires Inv(o, jobs, limit, p) && r < |jobs| && n <= |jobs[r].tasks| == |jobs[r].replies|
    requires ModeOf(jobs[r]) == Sequential
    requires forall i: nat :: i < n ==> (r, i) in p.phases && p.phases[(r, i)].Finished?
    ensures DoneIn(jobs, p, r, n) == DoneAfter(o, jobs[r].tasks, jobs[r].replies, n)
  {
    hide OutcomeOf, HoldsPermit, AllTasks, Ready;
    if n > 0 {
      DoneIsDoneAfter(o, jobs, limit, p, r, n - 1);
      assert TaskOk(o, jobs, p, (r, n - 1));
    }
  }

  lemma GateAsAlone(o: Config, jobs: seq<Job>, limit: nat, p: Pool, x: (nat, nat))
    requires Inv(o, jobs, limit, p) && IsTask(jobs, x) && ModeAt(jobs, x) == Sequential && Ready(jobs, p, x)
    ensures GateIn(o, jobs, p, x)
      == Gate(o, TaskAt(jobs, x), DoneAfter(o, jobs[x.0].tasks, jobs[x.0].replies, x.1))
  {
    hide Gate, DoneIn, DoneAfter, Ready, PhaseOk;
    forall i: nat | i < x.1 ensures (x.0, i) in p.phases && p.phases[(x.0, i)].Finished? {
      EarlierFinished(o, jobs, limit, p, x, i);
    }
    DoneIsDoneAfter(o, jobs, limit, p, x.0, x.1);
  }

  lemma RunningEndsAsExpected(o: Config, jobs: seq<Job>, x: (nat, nat))
    requires IsTask(jobs, x) && WillCall(o, jobs, x)
    ensures OutcomeIn(o, jobs, x) == Expected(o, jobs, x)
  {
    hide Gate, CallsAgent, Execute, AnsweredDirectly, DoneAfter;
  }

  lemma StartsAsExpected(o: Config, jobs: seq<Job>, limit: nat, p: Pool, x: (nat, nat))
    requires Inv(o, jobs, limit, p) && IsTask(jobs, x) && x in p.phases && p.phases[x] == NotStarted
    requires NextPhase(o, jobs, p, x).Some?
    ensures Ready(jobs, p, x) && PhaseOk(o, jobs, x, NextPhase(o, jobs, p, x).value)
  {
    if ModeAt(jobs, x) == Sequential && Ready(jobs, p, x) {
      GateAsAlone(o, jobs, limit, p, x);
    }
    hide Inv, Gate, Execute, AnsweredDirectly, CallsAgent, DoneIn, DoneAfter, Ready, AllTasks;
  }

  lemma NextPhaseOk(o: Config, jobs: seq<Job>, limit: nat, p: Pool, x: (nat, nat))
    requires Inv(o, jobs, limit, p) && IsTask(jobs, x) && x in p.phases && NextPhase(o, jobs, p, x).Some?
    ensures PhaseOk(o, jobs, x, NextPhase(o, jobs, p, x).value)
    ensures Ready(jobs, p, x)
  {
    assert TaskOk(o, jobs, p, x);
    if p.phases[x] == NotStarted {
      StartsAsExpected(o, jobs, limit, p, x);
    } else if p.phases[x] == Running {
      RunningEndsAsExpected(o, jobs, x);
    }
    hide Inv, GateIn, OutcomeIn, WillCall, Expected, CallsAgent, Ready;
  }

  /** One step changes one task's phase, and with it at most that task's hold on a permit. */
  lemma AdvanceShape(o: Config, jobs: seq<Job>, p: Pool, x: (nat, nat), q: Pool)
    requires Steps(o, jobs, p, x, q) && p.permits >= 0 && (x in p.slots <==> HoldsPermit(jobs, p, x))
    requires p.phases[x] == Queued ==> ModeAt(jobs, x) != Direct
    ensures x in q.phases && NextPhase(o, jobs, p, x) == Some(q.phases[x]) && q.phases == p.phases[x := q.phases[x]]
    ensures q.slots == (if HoldsPermit(jobs, q, x) then p.slots + {x} else p.slots - {x})
    ensures q.permits >= 0 && q.permits + |q.slots| == p.permits + |p.slots|
    ensures !p.phases[x].Finished?
  {
    hide OutcomeIn, GateIn, CallsAgent, Ready, AllTasks;
  }

  /** Whatever is ready stays ready: nothing that is finished starts again. */
  lemma ReadyStays(jobs: seq<Job>, p: Pool, q: Pool, x: (nat, nat), y: (nat, nat))
    requires p.phases.Keys == AllTasks(jobs) && x in p.phases && x in q.phases && q.phases == p.phases[x := q.phases[x]]
    requires !p.phases[x].Finished? && IsTask(jobs, y) && Ready(jobs, p, y)
    ensures q.phases.Keys == AllTasks(jobs) && Ready(jobs, q, y)
  {
    assert q.phases.Keys == p.phases.Keys;
    hide AllTasks;
  }

  lemma OthersHold(jobs: seq<Job>, p: Pool, q: Pool, x: (nat, nat), y: (nat, nat))
    requires x in p.phases && x in q.phases && q.phases == p.phases[x := q.phases[x]] && y != x
    ensures HoldsPermit(jobs, q, y) <==> HoldsPermit(jobs, p, y)
  {
  }

  lemma PermitsKept(jobs: seq<Job>, limit: nat, p: Pool, x: (nat, nat), q: Pool)
    requires PermitsOk(jobs, limit, p)
    requires x in p.phases && x in q.phases && q.phases == p.phases[x := q.phases[x]]
    requires q.slots == (if HoldsPermit(jobs, q, x) then p.slots + {x} else p.slots - {x})
    requires q.permits >= 0 && q.permits + |q.slots| == p.permits + |p.slots|
    ensures PermitsOk(jobs, limit, q)
  {
    hide HoldsPermit;
    forall y ensures y in q.slots <==> HoldsPermit(jobs, q, y) {
      if y != x { OthersHold(jobs, p, q, x, y); }
    }
  }

  lemma StepKeepsPermits(o: Config, jobs: seq<Job>, limit: nat, p: Pool, x: (nat, nat), q: Pool)
    requires Inv(o, jobs, limit, p) && Steps(o, jobs, p, x, q)
    ensures PermitsOk(jobs, limit, q) && q.phases.Keys == AllTasks(jobs)
    ensures x in q.phases && NextPhase(o, jobs, p, x) == Some(q.phases[x]) && q.phases == p.phases[x := q.phases[x]]
    ensures !p.phases[x].Finished?
  {
    assert TaskOk(o, jobs, p, x);
    hide Advance, NextPhase, HoldsPermit, Ready, WillCall, Expected, AllTasks, ModeOf;
    AdvanceShape(o, jobs, p, x, q);
    PermitsKept(jobs, limit, p, x, q);
    assert q.phases.Keys == p.phases.Keys;
  }

  lemma StepKeeps(o: Config, jobs: seq<Job>, limit: nat, p: Pool, x: (nat, nat), q: Pool)
    requires Inv(o, jobs, limit, p) && Steps(o, jobs, p, x, q)
    ensures Inv(o, jobs, limit, q)
  {
    StepKeepsPermits(o, jobs, limit, p, x, q);
    NextPhaseOk(o, jobs, limit, p, x);
    hide Advance, NextPhase, PhaseOk, Ready, AllTasks, PermitsOk;
    forall y | y in q.phases ensures TaskOk(o, jobs, q, y) {
      assert TaskOk(o, jobs, p, y);
      if p.phases[y] != NotStarted || y == x {
        ReadyStays(jobs, p, q, x, y);
      }
    }
  }

  lemma {:induction false} RunKeeps(
      o: Config, jobs: seq<Job>, limit: nat, run: seq<Pool>, steps: seq<(nat, nat)>, k: nat)
    requires IsRun(o, jobs, limit, run, steps) && k < |run|
    ensures Inv(o, jobs, limit, run[k])
  {
    hide Inv, Steps;
    if k > 0 {
      RunKeeps(o, jobs, limit, run, steps, k - 1);
      StepKeeps(o, jobs, limit, run[k - 1], steps[k - 1], run[k]);
    } else {
      InvInitially(o, jobs, limit);
    }
  }

  // ---- how many agents run ----

  function RunningTasks(p: Pool): set<(nat, nat)> {
    set x | x in p.phases && p.phases[x] == Running
  }

  function RunningDirectly(jobs: seq<Job>, p: Pool): set<(nat, nat)> {
    set x | x in p.phases && p.phases[x] == Running && IsTask(jobs, x) && ModeAt(jobs, x) == Direct
  }

  lemma RunningSplits(o: Config, jobs: seq<Job>, limit: nat, p: Pool)
    requires Inv(o, jobs, limit, p)
    ensures RunningTasks(p) == p.slots + RunningDirectly(jobs, p)
    ensures |RunningTasks(p)| == |p.slots| + |RunningDirectly(jobs, p)|
  {
    forall x | x in p.phases ensures IsTask(jobs, x) { assert TaskOk(o, jobs, p, x); }
    hide TaskOk;
    assert p.slots !! RunningDirectly(jobs, p);
    assert RunningTasks(p) == p.slots + RunningDirectly(jobs, p);
  }

  /**
   * Over all requests together the agents of plans never exceed the limit. A single task takes no permit, so
   * all agents together exceed it exactly when more single tasks run than permits are free.
   */
  lemma BoundedAgents(o: Config, jobs: seq<Job>, limit: nat, run: seq<Pool>, steps: seq<(nat, nat)>, k: nat)
    requires IsRun(o, jobs, limit, run, steps) && k < |run|
    ensures var planned := RunningTasks(run[k]) - RunningDirectly(jobs, run[k]);
      && |planned| <= limit && |planned| + run[k].permits == limit
      && |RunningTasks(run[k])| <= limit + |RunningDirectly(jobs, run[k])|
      && (|RunningTasks(run[k])| > limit <==> |RunningDirectly(jobs, run[k])| > run[k].permits)
  {
    RunKeeps(o, jobs, limit, run, steps, k);
    RunningSplits(o, jobs, limit, run[k]);
    hide IsRun, TaskOk, RunningTasks;
    assert RunningTasks(run[k]) - RunningDirectly(jobs, run[k]) == run[k].slots;
  }

  /** The single tasks that call an agent. */
  function DirectCallers(o: Config, jobs: seq<Job>): set<(nat, nat)> {
    set x | x in AllTasks(jobs) && IsTask(jobs, x) && ModeAt(jobs, x) == Direct && CallsAgent(o, TaskAt(jobs, x))
  }

  predicate PlannedCall(o: Config, jobs: seq<Job>, x: (nat, nat)) {
    IsTask(jobs, x) && ModeAt(jobs, x) != Direct && WillCall(o, jobs, x)
  }

  /** A call that can come first: of any task of a parallel plan, or of the first task of another plan to make one. */
  predicate CallsFirst(o: Config, jobs: seq<Job>, x: (nat, nat)) {
    && PlannedCall(o, jobs, x)
    && (ModeAt(jobs, x) == Sequential ==> forall i: nat :: i < x.1 ==> !PlannedCall(o, jobs, (x.0, i)))
  }

  /** The tasks of plans that can run their agents all at the same time. */
  function PlannedCallers(o: Config, jobs: seq<Job>): set<(nat, nat)> {
    set x | x in AllTasks(jobs) && CallsFirst(o, jobs, x)
  }

  /** The least number from `i` on that satisfies `holds`, given that `n` does and none below `i` does. */
  function Least(holds: nat -> bool, i: nat, n: nat): (k: nat)
    requires i <= n && holds(n) && forall m: nat :: m < i ==> !holds(m)
    ensures k <= n && holds(k) && forall m: nat :: m < k ==> !holds(m)
    decreases n - i
  {
    if holds(i) then i else Least(holds, i + 1, n)
  }

  /** The task itself, or the first of its plan to call an agent when the tasks take turns. */
  function FirstCaller(o: Config, jobs: seq<Job>, x: (nat, nat)): (nat, nat) {
    var calls := (i: nat) => PlannedCall(o, jobs, (x.0, i));
    if calls(x.1) && ModeAt(jobs, x) == Sequential then (x.0, Least(calls, 0, x.1)) else x
  }

  lemma FirstCallerIs(o: Config, jobs: seq<Job>, x: (nat, nat))
    requires PlannedCall(o, jobs, x)
    ensures var y := FirstCaller(o, jobs, x);
      y.0 == x.0 && CallsFirst(o, jobs, y) && (ModeAt(jobs, x) == Parallel ==> y == x)
  {
    assert x == (x.0, x.1);
    if ModeAt(jobs, x) == Sequential {
      var calls := (i: nat) => PlannedCall(o, jobs, (x.0, i));
      var k := Least(calls, 0, x.1);
      hide PlannedCall, Least, ModeOf;
      assert calls(k) && forall m: nat :: m < k ==> !calls(m);
      assert PlannedCall(o, jobs, (x.0, k));
      forall m: nat | m < k ensures !PlannedCall(o, jobs, (x.0, m)) { assert !calls(m); }
      PlannedIsTask(o, jobs, (x.0, k));
    }
  }

  lemma PlannedIsTask(o: Config, jobs: seq<Job>, x: (nat, nat))
    requires PlannedCall(o, jobs, x)
    ensures IsTask(jobs, x)
  {
  }

  /** The tasks of a plan that is not parallel run one at a time. */
  lemma OneOfASequence(o: Config, jobs: seq<Job>, limit: nat, p: Pool, x: (nat, nat), y: (nat, nat))
    requires Inv(o, jobs, limit, p) && x in p.slots && y in p.slots && x.0 == y.0 && ModeOf(jobs[x.0]) == Sequential
    ensures x == y
  {
    assert TaskOk(o, jobs, p, x) && TaskOk(o, jobs, p, y);
    hide PhaseOk, Ready, AllTasks;
    if x.1 < y.1 {
      EarlierFinished(o, jobs, limit, p, y, x.1);
    } else if y.1 < x.1 {
      EarlierFinished(o, jobs, limit, p, x, y.1);
    }
  }

  lemma {:induction false} Injects<T>(a: set<T>, b: set<T>, f: T -> T)
    requires forall x :: x in a ==> f(x) in b
    requires forall x, y :: x in a && y in a && f(x) == f(y) ==> x == y
    ensures |a| <= |b|
    decreases |a|
  {
    if a != {} {
      var x :| x in a;
      Injects(a - {x}, b - {f(x)}, f);
      assert b == (b - {f(x)}) + {f(x)};
    }
  }

  /** No more agents of plans run than plans can have running at the same time. */
  lemma PlannedAtMost(o: Config, jobs: seq<Job>, limit: nat, p: Pool)
    requires Inv(o, jobs, limit, p)
    ensures |p.slots| <= |PlannedCallers(o, jobs)|
  {
    forall x | x in p.slots ensures PlannedCall(o, jobs, x) {
      assert TaskOk(o, jobs, p, x);
    }
    var f := x => FirstCaller(o, jobs, x);
    forall x | x in p.slots
      ensures f(x) in PlannedCallers(o, jobs) && f(x).0 == x.0 && (ModeAt(jobs, x) == Parallel ==> f(x) == x)
    {
      AllTasksAre(jobs, f(x));
      FirstCallerIs(o, jobs, x);
    }
    hide PlannedCallers, FirstCaller;
    forall x, y | x in p.slots && y in p.slots && f(x) == f(y) ensures x == y {
      if ModeAt(jobs, x) == Sequential { OneOfASequence(o, jobs, limit, p, x, y); }
    }
    hide *;
    Injects(p.slots, PlannedCallers(o, jobs), f);
  }

  lemma DirectAtMost(o: Config, jobs: seq<Job>, limit: nat, p: Pool)
    requires Inv(o, jobs, limit, p)
    ensures |RunningDirectly(jobs, p)| <= |DirectCallers(o, jobs)|
  {
    forall x | x in RunningDirectly(jobs, p) ensures x in DirectCallers(o, jobs) {
      assert TaskOk(o, jobs, p, x);
    }
    Injects(RunningDirectly(jobs, p), DirectCallers(o, jobs), x => x);
  }

  ghost predicate Reached(o: Config, jobs: seq<Job>, limit: nat, p: Pool) {
    exists run, steps :: IsRun(o, jobs, limit, run, steps) && run[|steps|] == p
  }

  lemma ReachedKeeps(o: Config, jobs: seq<Job>, limit: nat, p: Pool)
    requires Reached(o, jobs, limit, p)
    ensures Inv(o, jobs, limit, p)
  {
    hide Inv, Steps;
    var run, steps :| IsRun(o, jobs, limit, run, steps) && run[|steps|] == p;
    RunKeeps(o, jobs, limit, run, steps, |steps|);
  }

  lemma ReachedStep(o: Config, jobs: seq<Job>, limit: nat, p: Pool, x: (nat, nat), q: Pool)
    requires Reached(o, jobs, limit, p) && Steps(o, jobs, p, x, q)
    ensures Reached(o, jobs, limit, q)
  {
    hide Steps, Start;
    var run, steps :| IsRun(o, jobs, limit, run, steps) && run[|steps|] == p;
    assert IsRun(o, jobs, limit, run + [q], steps + [x]);
  }

  /**
   * Exactly the tasks of `target` run. Nothing else has started, but for what comes before a running task in
   * a plan that is not parallel.
   */
  ghost predicate JustRunning(o: Config, jobs: seq<Job>, limit: nat, p: Pool, target: set<(nat, nat)>) {
    && Reached(o, jobs, limit, p) && target <= p.phases.Keys
    && (forall x: (nat, nat) :: x in target ==> p.phases[x] == Running)
    && (forall x: (nat, nat) :: x in p.phases && x !in target ==>
          p.phases[x] == NotStarted
          || (IsTask(jobs, x) && p.phases[x].Finished? && ModeOf(jobs[x.0]) == Sequential
                && exists y :: y in target && y.0 == x.0))
  }

  /** Tasks that can all run at once: single ones, and first callers of plans. */
  predicate CanRunTogether(o: Config, jobs: seq<Job>, x: (nat, nat)) {
    x in DirectCallers(o, jobs) || x in PlannedCallers(o, jobs)
  }

  /** A single task that calls an agent runs it at once. */
  lemma EnterDirectly(o: Config, jobs: seq<Job>, limit: nat, p: Pool, x: (nat, nat)) returns (q: Pool)
    requires Reached(o, jobs, limit, p) && x in p.phases && p.phases[x] == NotStarted && x in DirectCallers(o, jobs)
    ensures Reached(o, jobs, limit, q) && q.phases == p.phases[x := Running]
  {
    ReachedKeeps(o, jobs, limit, p);
    hide Reached, TaskOk, PermitsOk, CallsAgent, OutcomeIn, AllTasks;
    q := Advance(o, jobs, p, x).value;
    ReachedStep(o, jobs, limit, p, x, q);
  }

  /** A task of a plan that is about to call an agent runs it once a permit is free. */
  lemma EnterPlanned(o: Config, jobs: seq<Job>, limit: nat, p: Pool, x: (nat, nat)) returns (q: Pool)
    requires Reached(o, jobs, limit, p) && x in p.phases && p.phases[x] == NotStarted && p.permits > 0
    requires PlannedCall(o, jobs, x) && p.phases.Keys == AllTasks(jobs) && Ready(jobs, p, x)
    ensures Reached(o, jobs, limit, q) && q.phases == p.phases[x := Running]
  {
    ReachedKeeps(o, jobs, limit, p);
    GateOpens(o, jobs, limit, p, x);
    hide Reached, Inv, Ready, GateIn, CallsAgent, OutcomeIn, AllTasks, WillCall, ModeOf;
    var queued := Pool(p.phases[x := Queued], p.permits, p.slots);
    assert Steps(o, jobs, p, x, queued);
    ReachedStep(o, jobs, limit, p, x, queued);
    q := TakePermit(o, jobs, limit, queued, x);
    assert q.phases == p.phases[x := Running];
  }

  lemma TakePermit(o: Config, jobs: seq<Job>, limit: nat, p: Pool, x: (nat, nat)) returns (q: Pool)
    requires Reached(o, jobs, limit, p) && IsTask(jobs, x) && x in p.phases && p.phases[x] == Queued && p.permits > 0
    ensures Reached(o, jobs, limit, q) && q.phases == p.phases[x := Running]
  {
    ReachedKeeps(o, jobs, limit, p);
    hide Reached, TaskOk, PermitsOk, Ready, GateIn, CallsAgent, OutcomeIn, AllTasks;
    q := Advance(o, jobs, p, x).value;
    ReachedStep(o, jobs, limit, p, x, q);
  }

  lemma GateOpens(o: Config, jobs: seq<Job>, limit: nat, p: Pool, x: (nat, nat))
    requires Inv(o, jobs, limit, p) && PlannedCall(o, jobs, x) && Ready(jobs, p, x)
    ensures GateIn(o, jobs, p, x).None? && CallsAgent(o, TaskAt(jobs, x))
  {
    hide Gate, CallsAgent, DoneIn, DoneAfter, Ready, TaskOk, PermitsOk;
    if ModeAt(jobs, x) == Sequential { GateAsAlone(o, jobs, limit, p, x); }
  }

  lemma GateCloses(o: Config, jobs: seq<Job>, limit: nat, p: Pool, x: (nat, nat))
    requires Inv(o, jobs, limit, p) && IsTask(jobs, x) && Ready(jobs, p, x)
    requires ModeAt(jobs, x) == Sequential && !PlannedCall(o, jobs, x)
    ensures GateIn(o, jobs, p, x).Some? || !CallsAgent(o, TaskAt(jobs, x))
  {
    GateAsAlone(o, jobs, limit, p, x);
    hide Gate, CallsAgent, DoneIn, DoneAfter, Ready, TaskOk, PermitsOk;
  }

  /** Before the first caller of a plan that is not parallel, tasks finish in one step. */
  lemma FinishOne(o: Config, jobs: seq<Job>, limit: nat, p: Pool, x: (nat, nat)) returns (q: Pool)
    requires Reached(o, jobs, limit, p) && IsTask(jobs, x) && x in p.phases && p.phases[x] == NotStarted
    requires p.phases.Keys == AllTasks(jobs) && Ready(jobs, p, x)
    requires ModeAt(jobs, x) == Sequential && !PlannedCall(o, jobs, x)
    ensures Reached(o, jobs, limit, q) && q.permits == p.permits && x in q.phases && q.phases[x].Finished?
    ensures q.phases == p.phases[x := q.phases[x]]
  {
    ReachedKeeps(o, jobs, limit, p);
    GateCloses(o, jobs, limit, p, x);
    hide Reached, Inv, Ready, GateIn, CallsAgent, OutcomeIn, AllTasks, WillCall, ModeOf;
    q := Advance(o, jobs, p, x).value;
    ReachedStep(o, jobs, limit, p, x, q);
  }

  /** From `p` to `q`, just the first `n` tasks of request `r` have finished. */
  ghost predicate FinishedUpTo(p: Pool, q: Pool, r: nat, n: nat) {
    && q.permits == p.permits && q.phases.Keys == p.phases.Keys
    && forall y :: y in p.phases ==>
         if y.0 == r && y.1 < n then q.phases[y].Finished? else q.phases[y] == p.phases[y]
  }

  lemma FinishedOneMore(p: Pool, q: Pool, u: Pool, r: nat, n: nat)
    requires FinishedUpTo(p, q, r, n) && (r, n) in p.phases && (r, n) in u.phases
    requires u.permits == q.permits && u.phases == q.phases[(r, n) := u.phases[(r, n)]] && u.phases[(r, n)].Finished?
    ensures FinishedUpTo(p, u, r, n + 1)
  {
    assert u.phases.Keys == q.phases.Keys;
    forall y | y in p.phases
      ensures if y.0 == r && y.1 < n + 1 then u.phases[y].Finished? else u.phases[y] == p.phases[y]
    {
      assert y == (y.0, y.1);
    }
  }

  lemma ReadyAfter(jobs: seq<Job>, p: Pool, q: Pool, x: (nat, nat))
    requires FinishedUpTo(p, q, x.0, x.1) && IsTask(jobs, x) && p.phases.Keys == AllTasks(jobs)
    ensures q.phases.Keys == AllTasks(jobs) && Ready(jobs, q, x)
  {
    if x.1 > 0 { AllTasksAre(jobs, (x.0, x.1 - 1)); }
    hide AllTasks, ModeOf;
  }

  lemma {:induction false} FinishEarlier(
      o: Config, jobs: seq<Job>, limit: nat, p: Pool, x: (nat, nat), n: nat) returns (q: Pool)
    requires Reached(o, jobs, limit, p) && IsTask(jobs, x) && ModeAt(jobs, x) == Sequential && n <= x.1
    requires p.phases.Keys == AllTasks(jobs)
    requires forall i: nat :: i < x.1 && (x.0, i) in p.phases ==> p.phases[(x.0, i)] == NotStarted
    requires forall i: nat :: i < x.1 ==> !PlannedCall(o, jobs, (x.0, i))
    ensures Reached(o, jobs, limit, q) && FinishedUpTo(p, q, x.0, n)
    decreases n
  {
    hide *;
    q := p;
    if n == 0 {
      NothingFinished(p, x.0);
    } else {
      var y := (x.0, n - 1);
      EarlierTask(jobs, x, n - 1);
      AllTasksAre(jobs, y);
      var u := FinishEarlier(o, jobs, limit, p, x, n - 1);
      ReadyAfter(jobs, p, u, y);
      StillNotStarted(p, u, y);
      q := FinishOne(o, jobs, limit, u, y);
      FinishedOneMore(p, u, q, x.0, n - 1);
    }
  }

  lemma NothingFinished(p: Pool, r: nat)
    ensures FinishedUpTo(p, p, r, 0)
  {
  }

  lemma EarlierTask(jobs: seq<Job>, x: (nat, nat), i: nat)
    requires IsTask(jobs, x) && i <= x.1
    ensures IsTask(jobs, (x.0, i)) && ModeAt(jobs, (x.0, i)) == ModeAt(jobs, x)
  {
  }

  lemma StillNotStarted(p: Pool, q: Pool, x: (nat, nat))
    requires FinishedUpTo(p, q, x.0, x.1) && x in p.phases
    ensures x in q.phases && q.phases[x] == p.phases[x]
  {
  }

  lemma CallerFacts(o: Config, jobs: seq<Job>, x: (nat, nat))
    requires CanRunTogether(o, jobs, x)
    ensures IsTask(jobs, x) && x in AllTasks(jobs)
    ensures ModeAt(jobs, x) == Direct <==> x in DirectCallers(o, jobs)
    ensures ModeAt(jobs, x) != Direct <==> x in PlannedCallers(o, jobs)
    ensures x in PlannedCallers(o, jobs) ==> PlannedCall(o, jobs, x)
  {
    hide CallsAgent, WillCall, ModeOf, AllTasks;
  }

  lemma OneCallerPerSequence(o: Config, jobs: seq<Job>, x: (nat, nat), y: (nat, nat))
    requires x in PlannedCallers(o, jobs) && y in PlannedCallers(o, jobs) && x.0 == y.0
    requires IsTask(jobs, x) && ModeAt(jobs, x) == Sequential
    ensures x == y
  {
    hide WillCall, ModeOf, AllTasks;
    assert x == (x.0, x.1) && y == (y.0, y.1);
    assert CallsFirst(o, jobs, x) && CallsFirst(o, jobs, y);
  }

  /** The permits taken are those of the running tasks of plans. */
  lemma SlotsOfTarget(o: Config, jobs: seq<Job>, limit: nat, p: Pool, target: set<(nat, nat)>)
    requires JustRunning(o, jobs, limit, p, target) && forall x :: x in target ==> CanRunTogether(o, jobs, x)
    ensures p.slots == target * PlannedCallers(o, jobs) && p.permits == limit - |target * PlannedCallers(o, jobs)|
    ensures p.phases.Keys == AllTasks(jobs)
  {
    ReachedKeeps(o, jobs, limit, p);
    hide Reached, TaskOk, AllTasks, PlannedCallers, DirectCallers, CanRunTogether;
    forall x ensures x in p.slots <==> x in target * PlannedCallers(o, jobs) {
      if x in target { CallerFacts(o, jobs, x); }
    }
  }

  lemma FreshTask(o: Config, jobs: seq<Job>, limit: nat, p: Pool, target: set<(nat, nat)>, x: (nat, nat))
    requires JustRunning(o, jobs, limit, p, target) && x !in target && CanRunTogether(o, jobs, x) && x in p.phases
    requires forall y :: y in target ==> CanRunTogether(o, jobs, y)
    ensures p.phases[x] == NotStarted
    ensures IsTask(jobs, x)
    ensures ModeAt(jobs, x) == Sequential ==> forall i: nat :: (x.0, i) in p.phases ==> p.phases[(x.0, i)] == NotStarted
  {
    CallerFacts(o, jobs, x);
    hide Reached, AllTasks, PlannedCallers, DirectCallers, CanRunTogether, ModeOf;
    if ModeAt(jobs, x) == Sequential {
      forall y | y in target ensures y.0 != x.0 {
        CallerFacts(o, jobs, y);
        if y.0 == x.0 { OneCallerPerSequence(o, jobs, x, y); }
      }
    }
  }

  lemma NowRunning(o: Config, jobs: seq<Job>, limit: nat, p: Pool, target: set<(nat, nat)>, x: (nat, nat), q: Pool)
    requires JustRunning(o, jobs, limit, p, target) && Reached(o, jobs, limit, q) && x in p.phases
    requires q.phases == p.phases[x := Running]
    ensures JustRunning(o, jobs, limit, q, target + {x})
  {
    hide Reached, ModeOf;
    forall y: (nat, nat) | y in q.phases && y !in target + {x}
      ensures q.phases[y] == NotStarted
        || (IsTask(jobs, y) && q.phases[y].Finished? && ModeOf(jobs[y.0]) == Sequential
              && exists z :: z in target + {x} && z.0 == y.0)
    {
      if q.phases[y] != NotStarted {
        var z :| z in target && z.0 == y.0;
        assert z in target + {x};
      }
    }
  }

  lemma NowRunningAfter(
      o: Config, jobs: seq<Job>, limit: nat, p: Pool, target: set<(nat, nat)>, x: (nat, nat), u: Pool, q: Pool)
    requires JustRunning(o, jobs, limit, p, target) && Reached(o, jobs, limit, q) && x in p.phases
    requires p.phases.Keys == AllTasks(jobs) && IsTask(jobs, x) && ModeAt(jobs, x) == Sequential
    requires forall i: nat :: (x.0, i) in p.phases ==> p.phases[(x.0, i)] == NotStarted
    requires FinishedUpTo(p, u, x.0, x.1) && x in u.phases && q.phases == u.phases[x := Running]
    ensures JustRunning(o, jobs, limit, q, target + {x})
  {
    hide Reached, ModeOf, AllTasks;
    assert q.phases.Keys == p.phases.Keys;
    forall y: (nat, nat) | y in target ensures q.phases[y] == Running {
      assert y == (y.0, y.1);
    }
    forall y: (nat, nat) | y in q.phases && y !in target + {x}
      ensures q.phases[y] == NotStarted
        || (IsTask(jobs, y) && q.phases[y].Finished? && ModeOf(jobs[y.0]) == Sequential
              && exists z :: z in target + {x} && z.0 == y.0)
    {
      if y.0 == x.0 && y.1 < x.1 {
        AllTasksAre(jobs, y);
        assert x in target + {x};
      } else if q.phases[y] != NotStarted {
        var z :| z in target && z.0 == y.0;
        assert z in target + {x};
      }
    }
  }

  lemma OneMorePermit(a: set<(nat, nat)>, x: (nat, nat), b: set<(nat, nat)>, limit: nat)
    requires x in b && x !in a && |(a + {x}) * b| <= limit
    ensures |a * b| < limit
  {
    assert (a + {x}) * b == a * b + {x};
  }

  lemma StartPlanned(
      o: Config, jobs: seq<Job>, limit: nat, p: Pool, target: set<(nat, nat)>, x: (nat, nat)) returns (q: Pool)
    requires JustRunning(o, jobs, limit, p, target) && x !in target && x in PlannedCallers(o, jobs)
    requires p.permits > 0 && p.phases.Keys == AllTasks(jobs) && x in p.phases && p.phases[x] == NotStarted
    requires PlannedCall(o, jobs, x)
    requires ModeAt(jobs, x) == Sequential ==>
        forall i: nat :: (x.0, i) in p.phases ==> p.phases[(x.0, i)] == NotStarted
    ensures JustRunning(o, jobs, limit, q, target + {x})
  {
    assert CallsFirst(o, jobs, x);
    assert Reached(o, jobs, limit, p);
    hide PlannedCallers, JustRunning, Reached, AllTasks, ModeOf, WillCall, Ready;
    if ModeAt(jobs, x) == Sequential {
      hide PlannedCall;
      var u := FinishEarlier(o, jobs, limit, p, x, x.1);
      ReadyAfter(jobs, p, u, x);
      StillNotStarted(p, u, x);
      SamePermits(p, u, x.0, x.1);
      q := EnterPlanned(o, jobs, limit, u, x);
      NowRunningAfter(o, jobs, limit, p, target, x, u, q);
    } else {
      ReadyInParallel(jobs, p, x);
      q := EnterPlanned(o, jobs, limit, p, x);
      NowRunning(o, jobs, limit, p, target, x, q);
    }
  }

  lemma SamePermits(p: Pool, q: Pool, r: nat, n: nat)
    requires FinishedUpTo(p, q, r, n)
    ensures q.permits == p.permits && q.phases.Keys == p.phases.Keys
  {
  }

  lemma ReadyInParallel(jobs: seq<Job>, p: Pool, x: (nat, nat))
    requires IsTask(jobs, x) && p.phases.Keys == AllTasks(jobs) && ModeAt(jobs, x) != Sequential
    ensures Ready(jobs, p, x)
  {
  }

  lemma StartOneMore(
      o: Config, jobs: seq<Job>, limit: nat, p: Pool, target: set<(nat, nat)>, x: (nat, nat)) returns (q: Pool)
    requires JustRunning(o, jobs, limit, p, target) && x !in target && CanRunTogether(o, jobs, x)
    requires forall y :: y in target ==> CanRunTogether(o, jobs, y)
    requires |(target + {x}) * PlannedCallers(o, jobs)| <= limit
    ensures JustRunning(o, jobs, limit, q, target + {x})
  {
    assert Reached(o, jobs, limit, p);
    hide *;
    CallerFacts(o, jobs, x);
    SlotsOfTarget(o, jobs, limit, p, target);
    FreshTask(o, jobs, limit, p, target, x);
    if x in PlannedCallers(o, jobs) {
      OneMorePermit(target, x, PlannedCallers(o, jobs), limit);
      q := StartPlanned(o, jobs, limit, p, target, x);
    } else {
      q := EnterDirectly(o, jobs, limit, p, x);
      NowRunning(o, jobs, limit, p, target, x, q);
    }
  }

  lemma NothingRunning(o: Config, jobs: seq<Job>, limit: nat)
    ensures JustRunning(o, jobs, limit, Start(jobs, limit), {})
  {
    hide Steps, AllTasks;
    assert IsRun(o, jobs, limit, [Start(jobs, limit)], []);
  }

  lemma FewerPermits(a: set<(nat, nat)>, b: set<(nat, nat)>, x: (nat, nat))
    ensures |(a - {x}) * b| <= |a * b|
  {
    assert a * b == (a - {x}) * b + ({x} * a * b);
  }

  /** Any single tasks and first callers of plans can all run at once, as long as the plans among them find permits. */
  lemma {:induction false} RunTogether(o: Config, jobs: seq<Job>, limit: nat, target: set<(nat, nat)>) returns (p: Pool)
    requires forall x :: x in target ==> CanRunTogether(o, jobs, x)
    requires |target * PlannedCallers(o, jobs)| <= limit
    ensures JustRunning(o, jobs, limit, p, target)
    decreases |target|
  {
    hide *;
    if target == {} {
      p := Start(jobs, limit);
      NothingRunning(o, jobs, limit);
    } else {
      var x :| x in target;
      var rest := target - {x};
      FewerPermits(target, PlannedCallers(o, jobs), x);
      p := RunTogether(o, jobs, limit, rest);
      assert target == rest + {x};
      p := StartOneMore(o, jobs, limit, p, rest, x);
    }
  }

  lemma {:induction false} TakeSome<T>(s: set<T>, n: nat) returns (t: set<T>)
    requires n <= |s|
    ensures t <= s && |t| == n
  {
    t := {};
    if n > 0 {
      var x :| x in s;
      t := TakeSome(s - {x}, n - 1);
      t := t + {x};
    }
  }

  lemma JustRunningCount(o: Config, jobs: seq<Job>, limit: nat, p: Pool, target: set<(nat, nat)>)
    requires JustRunning(o, jobs, limit, p, target)
    ensures Reached(o, jobs, limit, p) && RunningTasks(p) == target
  {
    hide Reached;
    assert target <= RunningTasks(p);
    forall x | x in RunningTasks(p) ensures x in target {
      assert x in p.phases && p.phases[x] == Running;
    }
  }

  lemma ApartCount<T>(a: set<T>, b: set<T>)
    requires a !! b
    ensures |a + b| == |a| + |b|
  {
  }

  /** All single tasks that call an agent, together with as many planned ones as find permits, can run at once. */
  lemma MostAtOnce(o: Config, jobs: seq<Job>, limit: nat) returns (p: Pool)
    ensures Reached(o, jobs, limit, p)
    ensures var planned := |PlannedCallers(o, jobs)|;
      |RunningTasks(p)| == |DirectCallers(o, jobs)| + if planned < limit then planned else limit
  {
    hide Reached, RunningTasks, JustRunning;
    var planned := PlannedCallers(o, jobs);
    var some := TakeSome(planned, if |planned| < limit then |planned| else limit);
    var target := DirectCallers(o, jobs) + some;
    forall x | x in target ensures CanRunTogether(o, jobs, x) {}
    forall x | x in DirectCallers(o, jobs) ensures x !in planned { CallerFacts(o, jobs, x); }
    hide *;
    assert target * planned == some;
    ApartCount(DirectCallers(o, jobs), some);
    p := RunTogether(o, jobs, limit, target);
    JustRunningCount(o, jobs, limit, p, target);
  }

  /**
   * The limit holds for all agents together, single tasks included, exactly if no single task calls an agent
   * or all that can run at the same time are within the limit anyway.
   */
  lemma OverallBoundIff(o: Config, jobs: seq<Job>, limit: nat)
    ensures (forall p :: Reached(o, jobs, limit, p) ==> |RunningTasks(p)| <= limit)
      <==> DirectCallers(o, jobs) == {} || |DirectCallers(o, jobs)| + |PlannedCallers(o, jobs)| <= limit
  {
    hide Reached, RunningTasks, DirectCallers, PlannedCallers;
    forall p | Reached(o, jobs, limit, p)
      ensures |RunningTasks(p)| <= |DirectCallers(o, jobs)| + |PlannedCallers(o, jobs)|
      ensures |RunningTasks(p)| <= |DirectCallers(o, jobs)| + limit
    {
      ReachedKeeps(o, jobs, limit, p);
      RunningSplits(o, jobs, limit, p);
      PlannedAtMost(o, jobs, limit, p);
      DirectAtMost(o, jobs, limit, p);
    }
    var most := MostAtOnce(o, jobs, limit);
  }

  // ---- progress ----

  predicate IsFinished(p: Pool) {
    forall x :: x in p.phases ==> p.phases[x].Finished?
  }

  /** Before an unfinished task, or there, is one that is unfinished and ready. */
  lemma {:induction false} ReadyTask(jobs: seq<Job>, p: Pool, x: (nat, nat)) returns (y: (nat, nat))
    requires p.phases.Keys == AllTasks(jobs) && IsTask(jobs, x) && x in p.phases && !p.phases[x].Finished?
    ensures IsTask(jobs, y) && y in p.phases && !p.phases[y].Finished? && Ready(jobs, p, y)
    decreases x.1
  {
    if Ready(jobs, p, x) {
      y := x;
    } else {
      AllTasksAre(jobs, (x.0, x.1 - 1));
      hide AllTasks;
      y := ReadyTask(jobs, p, (x.0, x.1 - 1));
    }
  }

  /** As long as some task is unfinished, some task can advance. */
  lemma NeverStuck(o: Config, jobs: seq<Job>, limit: nat, p: Pool)
    requires Reached(o, jobs, limit, p) && limit >= 1 && !IsFinished(p)
    ensures exists x, q :: Steps(o, jobs, p, x, q)
  {
    ReachedKeeps(o, jobs, limit, p);
    hide Reached, PhaseOk, Ready, GateIn, CallsAgent, OutcomeIn, AllTasks;
    var x :| x in p.phases && !p.phases[x].Finished?;
    assert TaskOk(o, jobs, p, x);
    var y := ReadyTask(jobs, p, x);
    if p.phases[y] == Queued && p.permits <= 0 {
      assert |p.slots| >= 1;
      var z :| z in p.slots;
      assert Steps(o, jobs, p, z, Advance(o, jobs, p, z).value);
    } else {
      assert Steps(o, jobs, p, y, Advance(o, jobs, p, y).value);
    }
  }

  function InPhase(p: Pool, phase: Phase): set<(nat, nat)> {
    set x | x in p.phases && p.phases[x] == phase
  }

  /** The steps still to come: three for a task that has not started, fewer once it is on its way. */
  function Remaining(p: Pool): nat {
    3 * |InPhase(p, NotStarted)| + 2 * |InPhase(p, Queued)| + |InPhase(p, Running)|
  }

  lemma PhaseMoves(p: Pool, q: Pool, x: (nat, nat), phase: Phase)
    requires x in p.phases && x in q.phases && q.phases == p.phases[x := q.phases[x]] && p.phases[x] != q.phases[x]
    ensures |InPhase(q, phase)|
        == |InPhase(p, phase)| + (if q.phases[x] == phase then 1 else 0) - (if p.phases[x] == phase then 1 else 0)
  {
    assert InPhase(q, phase) ==
      if p.phases[x] == phase then InPhase(p, phase) - {x}
      else if q.phases[x] == phase then InPhase(p, phase) + {x} else InPhase(p, phase);
  }

  /** Every step makes progress, so every run ends. */
  lemma StepsRunOut(o: Config, jobs: seq<Job>, p: Pool, x: (nat, nat), q: Pool)
    requires Steps(o, jobs, p, x, q)
    ensures Remaining(q) < Remaining(p)
  {
    hide Ready, GateIn, CallsAgent, OutcomeIn, AllTasks, InPhase, ModeOf;
    assert q.phases == p.phases[x := q.phases[x]];
    PhaseMoves(p, q, x, NotStarted);
    PhaseMoves(p, q, x, Queued);
    PhaseMoves(p, q, x, Running);
  }

  // ---- what is reported ----

  /** The outcomes of a request, read off the finished pool in task order. */
  function OutcomesOf(jobs: seq<Job>, p: Pool, r: nat): (s: seq<Outcome>)
    requires r < |jobs| && forall i: nat :: i < |jobs[r].tasks| ==> (r, i) in p.phases && p.phases[(r, i)].Finished?
    ensures |s| == |jobs[r].tasks|
    ensures forall i :: 0 <= i < |s| ==> s[i] == p.phases[(r, i)].outcome
  {
    seq(|jobs[r].tasks|, i requires 0 <= i < |jobs[r].tasks| => p.phases[(r, i)].outcome)
  }

  lemma FinishedRequest(o: Config, jobs: seq<Job>, limit: nat, p: Pool, r: nat)
    requires Reached(o, jobs, limit, p) && IsFinished(p) && r < |jobs| && |jobs[r].tasks| == |jobs[r].replies|
    ensures forall i: nat :: i < |jobs[r].tasks| ==> (r, i) in p.phases && p.phases[(r, i)].Finished?
    ensures forall i: nat :: i < |jobs[r].tasks| ==> OutcomesOf(jobs, p, r)[i] == Expected(o, jobs, (r, i))
  {
    ReachedKeeps(o, jobs, limit, p);
    hide Reached, Ready, Expected, AllTasks, PermitsOk;
    forall i: nat | i < |jobs[r].tasks|
      ensures (r, i) in p.phases && p.phases[(r, i)].Finished? && p.phases[(r, i)].outcome == Expected(o, jobs, (r, i))
    {
      AllTasksAre(jobs, (r, i));
      assert TaskOk(o, jobs, p, (r, i));
    }
  }

  /**
   * However the requests interleave, a finished plan reports what running its tasks one after another, alone,
   * reports: the same outcomes in the same order. For a parallel plan this is so exactly if no task carries a
   * condition.
   */
  lemma PlansReportAsInSequence(o: Config, jobs: seq<Job>, limit: nat, p: Pool, r: nat)
    requires Reached(o, jobs, limit, p) && IsFinished(p) && r < |jobs| && |jobs[r].tasks| == |jobs[r].replies|
    requires IsMulti(jobs[r].tasks)
    ensures forall i: nat :: i < |jobs[r].tasks| ==> (r, i) in p.phases && p.phases[(r, i)].Finished?
    ensures OutcomesOf(jobs, p, r) == SequentialOutcomes(o, jobs[r].tasks, jobs[r].replies)
      <==> !IsParallel(jobs[r].tasks) || forall t :: t in jobs[r].tasks ==> t.condition.None? || t.condition.value == ""
  {
    FinishedRequest(o, jobs, limit, p, r);
    hide Reached, IsFinished, Execute, Final, IsParallel;
    ExpectedOfPlan(o, jobs, r);
    hide Expected;
    var s, q := OutcomesOf(jobs, p, r), SequentialOutcomes(o, jobs[r].tasks, jobs[r].replies);
    assert s == q <==> forall i :: 0 <= i < |s| ==> s[i] == q[i];
    if IsParallel(jobs[r].tasks) {
      IndependentTasksIff(o, jobs[r].tasks, jobs[r].replies);
    }
  }

  lemma ExpectedOfPlan(o: Config, jobs: seq<Job>, r: nat)
    requires r < |jobs| && |jobs[r].tasks| == |jobs[r].replies| && IsMulti(jobs[r].tasks)
    ensures forall i: nat :: i < |jobs[r].tasks| ==>
      Expected(o, jobs, (r, i)) ==
        if IsParallel(jobs[r].tasks) then Execute(o, jobs[r].tasks[i], jobs[r].replies[i])
        else Final(o, jobs[r].tasks, jobs[r].replies, i)
  {
    hide Execute, Final, AnsweredDirectly;
  }

  /** A message with a single task is answered as it would be alone. */
  lemma SingleTasksAreAnswered(o: Config, jobs: seq<Job>, limit: nat, p: Pool, r: nat)
    requires Reached(o, jobs, limit, p) && IsFinished(p) && r < |jobs| && |jobs[r].tasks| == |jobs[r].replies| == 1
    ensures (r, 0) in p.phases
    ensures p.phases[(r, 0)] == Finished(AnsweredDirectly(o, jobs[r].tasks[0], jobs[r].replies[0]))
  {
    FinishedRequest(o, jobs, limit, p, r);
    hide Reached, IsFinished, AnsweredDirectly;
    assert OutcomesOf(jobs, p, r)[0] == Expected(o, jobs, (r, 0));
  }

  /** Every parallel plan the planner builds is without conditions. */
  lemma PlannedPlansQualify(content: string, maxTasks: int, classifier: string -> IntentResult, tasks: seq<Task>)
    requires IsPlan(content, maxTasks, classifier, tasks) && IsParallel(tasks)
    ensures forall t :: t in tasks ==> t.condition.None?
  {
    PlansAreWellFormed(content, maxTasks, classifier, tasks);
  }
}
