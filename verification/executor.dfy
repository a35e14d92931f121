/** `_execute_plan` and `_execute_planned_task`: running the tasks of a plan. */
module Executor {
  import opened Text
  import opened Domain
  import opened Planner

  /** The `stock` entry of an agent's data; a Python truth value counts as a number. */
  datatype Stock = Absent | Number(n: int) | Other

  /** An agent's data: its JSON rendering and the entries the orchestrator looks at. */
  datatype Data = Data(json: string, missingFields: bool, error: bool, stock: Stock)

  datatype AgentReply = Raised | Reply(answer: string, data: Data, toolsUsed: seq<string>, degraded: bool)

  datatype State = Blocked | Skipped | InputRequired | Completed | NotConnected | Failed | Partial

  datatype Outcome = Outcome(
    task: Task, state: State, answer: string, data: Data, toolsUsed: seq<string>, agent: Option<string>,
    needHuman: bool)

  /**
   * What the orchestrator is configured with; `render` writes the fixed entries of an outcome without an
   * agent as JSON.
   */
  datatype Config = Config(threshold: real, agentFor: Intent -> Option<string>, render: (State, Task) -> string)

  datatype Reason =
    | BlockedByDependency | ConditionFalse | ConditionUnknown | LowConfidence | Hello | NoAgent | AgentFailed

  /** The fixed answers. */
  function Notice(reason: Reason, t: Task): string {
    var condition := if t.condition.Some? then t.condition.value else "";
    match reason
    case BlockedByDependency => "前置任务未完成，后续操作未执行，已转人工继续处理。"
    case ConditionFalse => "条件“" + condition + "”不成立，未执行后续操作。"
    case ConditionUnknown => "暂时无法可靠判断条件“" + condition + "”，需要补充信息或人工确认。"
    case LowConfidence => "无法可靠识别子问题“" + t.content + "”，需要补充信息或转人工。"
    case Hello => "你好，我可以继续处理商品、订单、推荐和售后问题。"
    case NoAgent => "子问题“" + t.content + "”对应的业务能力尚未接入，已转人工。"
    case AgentFailed => "子问题“" + t.content + "”暂时处理失败，其他问题不受影响，已转人工。"
  }

  function Fixed(o: Config, t: Task, state: State, reason: Reason, needHuman: bool): Outcome {
    Outcome(t, state, Notice(reason, t), Data(o.render(state, t), false, false, Absent), [], None, needHuman)
  }

  // ---- one task ----

  predicate CallsAgent(o: Config, t: Task) {
    && t.intent.confidence >= o.threshold
    && t.intent.intent != Unknown && t.intent.intent != Greeting
    && o.agentFor(t.intent.intent).Some?
  }

  /** The outcome of a task that ends without calling an agent. */
  function WithoutAgent(o: Config, t: Task): Outcome
    requires !CallsAgent(o, t)
  {
    if t.intent.confidence < o.threshold || t.intent.intent == Unknown
    then Fixed(o, t, InputRequired, LowConfidence, true)
    else if t.intent.intent == Greeting
    then Fixed(o, t, Completed, Hello, false)
    else Fixed(o, t, NotConnected, NoAgent, true)
  }

  function FromReply(o: Config, t: Task, reply: AgentReply): Outcome
    requires CallsAgent(o, t)
  {
    match reply
    case Raised =>
      Outcome(t, Failed, Notice(AgentFailed, t),
              Data(o.render(Failed, t), false, true, Absent), [], o.agentFor(t.intent.intent), true)
    case Reply(answer, data, tools, degraded) =>
      Outcome(t,
              if degraded || data.error then Partial else if data.missingFields then InputRequired else Completed,
              answer, data, tools, o.agentFor(t.intent.intent), degraded || data.missingFields || data.error)
  }

  function Execute(o: Config, t: Task, reply: AgentReply): Outcome {
    if CallsAgent(o, t) then FromReply(o, t, reply) else WithoutAgent(o, t)
  }

  // ---- conditions ----

  function Without(s: string, c: char): string {
    if s == "" then "" else (if s[0] == c then "" else [s[0]]) + Without(s[1..], c)
  }

  /** The character goes, every other one stays where it is among the rest. */
  lemma {:induction false} WithoutIs(a: string, x: char, b: string, c: char)
    ensures Without(a + [x] + b, c) == Without(a, c) + (if x == c then "" else [x]) + Without(b, c)
    ensures Without("", c) == ""
  {
    if a == "" {
      assert a + [x] + b == [x] + b && ([x] + b)[1..] == b;
    } else {
      WithoutIs(a[1..], x, b, c);
      assert (a + [x] + b)[1..] == a[1..] + [x] + b;
      var first, rest, mid := if a[0] == c then "" else [a[0]], Without(a[1..], c), if x == c then "" else [x];
      Rebracket(first, rest, mid);
      Rebracket(first, rest + mid, Without(b, c));
    }
  }

  predicate ContainsAny(text: string, markers: seq<string>) {
    exists m :: m in markers && Contains(text, m)
  }

  function JsonOf(dependencies: seq<Outcome>): seq<string> {
    if dependencies == [] then [] else [dependencies[0].data.json] + JsonOf(dependencies[1..])
  }

  function FirstStock(dependencies: seq<Outcome>): Option<int> {
    if dependencies == [] then None
    else if dependencies[0].data.stock.Number? then Some(dependencies[0].data.stock.n)
    else FirstStock(dependencies[1..])
  }

  /** What a condition comes to, given the data of the tasks before it and the first stock they report. */
  function Judged(condition: string, data: string, stock: Option<int>): Option<bool> {
    if ContainsAny(condition, ["没发货", "未发货"]) then
      if ContainsAny(data, ["待发货", "未发货", "待出库"]) then Some(true)
      else if ContainsAny(data, ["已发货", "运输中", "分拨", "派送", "已签收"]) then Some(false)
      else None
    else if Contains(condition, "有货") && stock.Some? then Some(stock.value > 0)
    else None
  }

  /** True, false, or unknown. */
  function ConditionMatches(condition: string, dependencies: seq<Outcome>): Option<bool> {
    Judged(Without(Without(condition, '还'), '尚'), "[" + Join(", ", JsonOf(dependencies)) + "]",
        FirstStock(dependencies))
  }

  // ---- a sequence of tasks ----

  /** The outcomes so far of the tasks this one depends on. */
  function Dependencies(ids: seq<string>, done: map<string, Outcome>): (r: seq<Outcome>)
    ensures forall x :: x in r <==> exists d :: d in ids && d in done && x == done[d]
  {
    if ids == [] then []
    else (if ids[0] in done then [done[ids[0]]] else []) + Dependencies(ids[1..], done)
  }

  predicate AnyNeedsHuman(outcomes: seq<Outcome>) {
    exists x :: x in outcomes && x.needHuman
  }

  /** What happens to a task before it may run: `None` when it is run. */
  function Gate(o: Config, t: Task, done: map<string, Outcome>): (r: Option<Outcome>)
    ensures r.Some? ==> r.value.task == t
  {
    var dependencies := Dependencies(t.dependsOn, done);
    if dependencies != [] && AnyNeedsHuman(dependencies)
    then Some(Fixed(o, t, Blocked, BlockedByDependency, true))
    else if t.condition.Some? && t.condition.value != "" then
      match ConditionMatches(t.condition.value, dependencies)
      case Some(true) => None
      case Some(false) => Some(Fixed(o, t, Skipped, ConditionFalse, false))
      case None => Some(Fixed(o, t, InputRequired, ConditionUnknown, true))
    else None
  }

  function OutcomeOf(o: Config, t: Task, reply: AgentReply, done: map<string, Outcome>): Outcome {
    var gate := Gate(o, t, done);
    if gate.Some? then gate.value else Execute(o, t, reply)
  }

  /**
   * The dictionary of outcomes after the first `n` tasks; `replies[i]` is what the agent answers if task
   * `i` calls it.
   */
  function DoneAfter(o: Config, tasks: seq<Task>, replies: seq<AgentReply>, n: nat): map<string, Outcome>
    requires n <= |tasks| == |replies|
  {
    if n == 0 then map[]
    else
      var done := DoneAfter(o, tasks, replies, n - 1);
      done[tasks[n - 1].id := OutcomeOf(o, tasks[n - 1], replies[n - 1], done)]
  }

  predicate Runs(o: Config, tasks: seq<Task>, replies: seq<AgentReply>, i: nat)
    requires i < |tasks| == |replies|
  {
    Gate(o, tasks[i], DoneAfter(o, tasks, replies, i)).None? && CallsAgent(o, tasks[i])
  }

  /** The positions among the first `n` whose task called an agent, in calling order. */
  function CallsOf(o: Config, tasks: seq<Task>, replies: seq<AgentReply>, n: nat): seq<nat>
    requires n <= |tasks| == |replies|
  {
    if n == 0 then []
    else CallsOf(o, tasks, replies, n - 1) + (if Runs(o, tasks, replies, n - 1) then [n - 1] else [])
  }

  /** Each agent call belongs to one task, and the calls come in task order. */
  lemma {:induction false} CallsAreOrdered(o: Config, tasks: seq<Task>, replies: seq<AgentReply>, n: nat)
    requires n <= |tasks| == |replies|
    ensures forall i: nat :: i in CallsOf(o, tasks, replies, n) <==> i < n && Runs(o, tasks, replies, i)
    ensures var calls := CallsOf(o, tasks, replies, n); forall a, b :: 0 <= a < b < |calls| ==> calls[a] < calls[b]
  {
    hide Runs;
    if n > 0 {
      CallsAreOrdered(o, tasks, replies, n - 1);
      var earlier := CallsOf(o, tasks, replies, n - 1);
      forall a | 0 <= a < |earlier| ensures earlier[a] < n - 1 {
        assert earlier[a] in CallsOf(o, tasks, replies, n - 1);
      }
      assert CallsOf(o, tasks, replies, n) == earlier + (if Runs(o, tasks, replies, n - 1) then [n - 1] else []);
    }
  }

  /** The checks made before a task runs. */
  method CheckGate(o: Config, t: Task, outcomes: map<string, Outcome>) returns (gate: Option<Outcome>)
    ensures gate == Gate(o, t, outcomes)
  {
    hide Notice, ConditionMatches;
    var dependencies := Dependencies(t.dependsOn, outcomes);
    if dependencies != [] && AnyNeedsHuman(dependencies) {
      return Some(Fixed(o, t, Blocked, BlockedByDependency, true));
    }
    if t.condition.Some? && t.condition.value != "" {
      var matched := ConditionMatches(t.condition.value, dependencies);
      if matched == Some(false) { return Some(Fixed(o, t, Skipped, ConditionFalse, false)); }
      if matched == None { return Some(Fixed(o, t, InputRequired, ConditionUnknown, true)); }
    }
    return None;
  }

  /** Runs the tasks in order. `calls` lists the tasks whose agent was invoked. */
  method ExecuteSequentially(o: Config, tasks: seq<Task>, replies: seq<AgentReply>)
    returns (outcomes: map<string, Outcome>, calls: seq<nat>)
    requires |tasks| == |replies|
    ensures outcomes == DoneAfter(o, tasks, replies, |tasks|)
    ensures calls == CallsOf(o, tasks, replies, |tasks|)
  {
    hide Gate, CallsAgent, Execute;
    outcomes, calls := map[], [];
    for i := 0 to |tasks|
      invariant outcomes == DoneAfter(o, tasks, replies, i)
      invariant calls == CallsOf(o, tasks, replies, i)
    {
      var gate := CheckGate(o, tasks[i], outcomes);
      if gate.Some? {
        outcomes := outcomes[tasks[i].id := gate.value];
        continue;
      }
      if CallsAgent(o, tasks[i]) {
        calls := calls + [i];
      }
      outcomes := outcomes[tasks[i].id := Execute(o, tasks[i], replies[i])];
    }
  }

  ghost predicate DistinctIds(tasks: seq<Task>) {
    forall i, j :: 0 <= i < j < |tasks| ==> tasks[i].id != tasks[j].id
  }

  /** The outcome of task `i` once the plan is done. */
  function Final(o: Config, tasks: seq<Task>, replies: seq<AgentReply>, i: nat): Outcome
    requires i < |tasks| == |replies|
  {
    OutcomeOf(o, tasks[i], replies[i], DoneAfter(o, tasks, replies, i))
  }

  /** Every task gets exactly one outcome, fixed when its turn comes. */
  lemma OneOutcomePerTask(o: Config, tasks: seq<Task>, replies: seq<AgentReply>, n: nat)
    requires n <= |tasks| == |replies| && DistinctIds(tasks)
    ensures DoneAfter(o, tasks, replies, n).Keys == set i | 0 <= i < n :: tasks[i].id
    ensures forall i :: 0 <= i < n ==> DoneAfter(o, tasks, replies, n)[tasks[i].id] == Final(o, tasks, replies, i)
  {
    OutcomesFor(o, tasks, replies, n);
    forall i | 0 <= i < n ensures DoneAfter(o, tasks, replies, n)[tasks[i].id] == Final(o, tasks, replies, i) {
      OutcomeStays(o, tasks, replies, i, n);
    }
  }

  lemma {:induction false} OutcomesFor(o: Config, tasks: seq<Task>, replies: seq<AgentReply>, n: nat)
    requires n <= |tasks| == |replies|
    ensures DoneAfter(o, tasks, replies, n).Keys == set i | 0 <= i < n :: tasks[i].id
  {
    hide OutcomeOf;
    if n > 0 { OutcomesFor(o, tasks, replies, n - 1); }
  }

  lemma {:induction false} OutcomeStays(o: Config, tasks: seq<Task>, replies: seq<AgentReply>, i: nat, n: nat)
    requires i < n <= |tasks| == |replies| && DistinctIds(tasks)
    ensures tasks[i].id in DoneAfter(o, tasks, replies, n)
    ensures DoneAfter(o, tasks, replies, n)[tasks[i].id] == Final(o, tasks, replies, i)
  {
    hide *;
    LastOutcome(o, tasks, replies, n);
    if i < n - 1 {
      OutcomeStays(o, tasks, replies, i, n - 1);
      OtherId(tasks, i, n - 1);
    }
  }

  lemma OtherId(tasks: seq<Task>, i: nat, j: nat)
    requires i < j < |tasks| && DistinctIds(tasks)
    ensures tasks[i].id != tasks[j].id
  {
  }

  lemma LastOutcome(o: Config, tasks: seq<Task>, replies: seq<AgentReply>, n: nat)
    requires 0 < n <= |tasks| == |replies|
    ensures DoneAfter(o, tasks, replies, n)
      == DoneAfter(o, tasks, replies, n - 1)[tasks[n - 1].id := Final(o, tasks, replies, n - 1)]
  {
    hide OutcomeOf;
  }

  // ---- dependencies ----

  /** Task `j` depends, directly or through other tasks, on the earlier task `i`. */
  ghost predicate DescendsFrom(tasks: seq<Task>, j: nat, i: nat)
    requires j < |tasks|
    decreases j
  {
    exists k :: 0 <= k < j && tasks[k].id in tasks[j].dependsOn && (k == i || DescendsFrom(tasks, k, i))
  }

  /** Whatever needs a human blocks everything that builds on it. */
  lemma {:induction false} BlocksDescendants(o: Config, tasks: seq<Task>, replies: seq<AgentReply>, i: nat, j: nat)
    requires i < |tasks| == |replies| && j < |tasks| && DistinctIds(tasks)
    requires Final(o, tasks, replies, i).needHuman && DescendsFrom(tasks, j, i)
    ensures Final(o, tasks, replies, j).state == Blocked && Final(o, tasks, replies, j).needHuman
    ensures j !in CallsOf(o, tasks, replies, |tasks|)
    decreases j
  {
    hide Gate, OutcomeOf, Execute, CallsAgent;
    var k :| 0 <= k < j && tasks[k].id in tasks[j].dependsOn && (k == i || DescendsFrom(tasks, k, i));
    if k != i {
      BlocksDescendants(o, tasks, replies, i, k);
    }
    OneOutcomePerTask(o, tasks, replies, j);
    assert DoneAfter(o, tasks, replies, j)[tasks[k].id] == Final(o, tasks, replies, k);
    HumanDependencyBlocks(o, tasks[j], replies[j], DoneAfter(o, tasks, replies, j), tasks[k].id);
    assert !Runs(o, tasks, replies, j);
    CallsAreOrdered(o, tasks, replies, |tasks|);
  }

  lemma HumanDependencyBlocks(o: Config, t: Task, reply: AgentReply, done: map<string, Outcome>, id: string)
    requires id in t.dependsOn && id in done && done[id].needHuman
    ensures Gate(o, t, done).Some?
    ensures OutcomeOf(o, t, reply, done).state == Blocked && OutcomeOf(o, t, reply, done).needHuman
  {
    hide Notice, ConditionMatches;
    assert done[id] in Dependencies(t.dependsOn, done);
  }

  // ---- what conditions come to ----

  /** Some task this one depends on has reported one of the words. */
  ghost predicate Reports(t: Task, done: map<string, Outcome>, words: seq<string>) {
    exists d, w :: d in t.dependsOn && d in done && w in words && Contains(done[d].data.json, w)
  }

  /** The first of these tasks with a number for its stock, if there is one, has `n`. */
  ghost predicate FirstReported(t: Task, done: map<string, Outcome>, n: int) {
    exists k :: 0 <= k < |t.dependsOn| && t.dependsOn[k] in done && done[t.dependsOn[k]].data.stock == Number(n)
      && forall j :: 0 <= j < k && t.dependsOn[j] in done ==> !done[t.dependsOn[j]].data.stock.Number?
  }

  /** Nothing the task depends on needs a human. */
  ghost predicate Unblocked(t: Task, done: map<string, Outcome>) {
    forall d :: d in t.dependsOn && d in done ==> !done[d].needHuman
  }

  lemma {:induction false} JsonAt(outcomes: seq<Outcome>)
    ensures |JsonOf(outcomes)| == |outcomes|
    ensures forall k :: 0 <= k < |outcomes| ==> JsonOf(outcomes)[k] == outcomes[k].data.json
  {
    if outcomes != [] { JsonAt(outcomes[1..]); }
  }

  /** A word without brackets, commas and spaces is in the data exactly if one of the outcomes reports it. */
  lemma WordReported(t: Task, done: map<string, Outcome>, word: string)
    requires word != "" && Apart(word, "[], ")
    ensures Contains("[" + Join(", ", JsonOf(Dependencies(t.dependsOn, done))) + "]", word)
      <==> Reports(t, done, [word])
  {
    var outcomes := Dependencies(t.dependsOn, done);
    JsonAt(outcomes);
    var parts := JsonOf(outcomes);
    NoSpan("", "[", Join(", ", parts) + "]", word);
    NoSpan(Join(", ", parts), "]", "", word);
    assert "" + "[" + (Join(", ", parts) + "]") == "[" + Join(", ", parts) + "]";
    assert Join(", ", parts) + "]" + "" == Join(", ", parts) + "]";
    JoinContainsIff(", ", parts, word);
    hide JsonOf, Join, Contains;
    if k :| 0 <= k < |parts| && Contains(parts[k], word) {
      assert outcomes[k] in outcomes;
      var d :| d in t.dependsOn && d in done && outcomes[k] == done[d];
      assert word in [word];
    }
    if d, w :| d in t.dependsOn && d in done && w in [word] && Contains(done[d].data.json, w) {
      assert done[d] in outcomes;
      var k :| 0 <= k < |outcomes| && outcomes[k] == done[d];
      assert Contains(parts[k], word);
    }
  }

  lemma WordsReported(t: Task, done: map<string, Outcome>, words: seq<string>)
    requires forall w :: w in words ==> w != "" && Apart(w, "[], ")
    ensures ContainsAny("[" + Join(", ", JsonOf(Dependencies(t.dependsOn, done))) + "]", words)
      <==> Reports(t, done, words)
  {
    var data := "[" + Join(", ", JsonOf(Dependencies(t.dependsOn, done))) + "]";
    hide Contains, Join, JsonOf, Dependencies;
    forall w | w in words ensures Contains(data, w) <==> Reports(t, done, [w]) { WordReported(t, done, w); }
    if w :| w in words && Contains(data, w) {
      var d, v :| d in t.dependsOn && d in done && v in [w] && Contains(done[d].data.json, v);
    }
    if d, w :| d in t.dependsOn && d in done && w in words && Contains(done[d].data.json, w) {
      assert w in [w];
      assert Reports(t, done, [w]);
    }
  }

  lemma {:induction false} FirstStockIs(ids: seq<string>, done: map<string, Outcome>) returns (k: nat)
    ensures k <= |ids|
    ensures forall j :: 0 <= j < k && ids[j] in done ==> !done[ids[j]].data.stock.Number?
    ensures k < |ids| ==> ids[k] in done && done[ids[k]].data.stock.Number?
    ensures FirstStock(Dependencies(ids, done)) == if k < |ids| then Some(done[ids[k]].data.stock.n) else None
  {
    k := 0;
    if ids != [] {
      if ids[0] in done {
        FirstApart([done[ids[0]]], Dependencies(ids[1..], done));
      } else {
        assert [] + Dependencies(ids[1..], done) == Dependencies(ids[1..], done);
      }
      if ids[0] !in done || !done[ids[0]].data.stock.Number? {
        k := FirstStockIs(ids[1..], done);
        k := k + 1;
      }
    }
  }

  lemma StockReported(t: Task, done: map<string, Outcome>)
    ensures var stock := FirstStock(Dependencies(t.dependsOn, done));
      forall n :: stock == Some(n) <==> FirstReported(t, done, n)
  {
    var k := FirstStockIs(t.dependsOn, done);
    hide FirstStock, Dependencies;
  }

  const PENDING := ["待发货", "未发货", "待出库"]
  const SHIPPED := ["已发货", "运输中", "分拨", "派送", "已签收"]

  lemma PlainWords()
    ensures forall w :: w in PENDING || w in SHIPPED ==> w != "" && Apart(w, "[], ")
  {
  }

  /** What is left of a condition when the two particles for "yet" are dropped. */
  function Normalized(condition: string): string {
    Without(Without(condition, '还'), '尚')
  }

  lemma Matches(t: Task, done: map<string, Outcome>)
    requires t.condition.Some?
    ensures var c := Normalized(t.condition.value);
      var shipping := Contains(c, "没发货") || Contains(c, "未发货");
      var answer := ConditionMatches(t.condition.value, Dependencies(t.dependsOn, done));
      && (shipping && Reports(t, done, PENDING) ==> answer == Some(true))
      && (shipping && !Reports(t, done, PENDING) && Reports(t, done, SHIPPED) ==> answer == Some(false))
      && (shipping && !Reports(t, done, PENDING) && !Reports(t, done, SHIPPED) ==> answer == None)
      && (!shipping && Contains(c, "有货") ==>
            && (forall n :: FirstReported(t, done, n) ==> answer == Some(n > 0))
            && ((forall n :: !FirstReported(t, done, n)) ==> answer == None))
      && (!shipping && !Contains(c, "有货") ==> answer == None)
  {
    PlainWords();
    WordsReported(t, done, PENDING);
    WordsReported(t, done, SHIPPED);
    StockReported(t, done);
    hide Contains, Join, JsonOf, Dependencies, Without, Reports, FirstReported, FirstStock;
    assert forall m :: m in ["没发货", "未发货"] <==> m == "没发货" || m == "未发货";
  }
  /** The three ways a task with a condition can go once nothing blocks it. */
  lemma ConditionDecides(o: Config, t: Task, reply: AgentReply, done: map<string, Outcome>)
    requires t.condition.Some? && t.condition.value != "" && Unblocked(t, done)
    ensures var answer := ConditionMatches(t.condition.value, Dependencies(t.dependsOn, done));
      && (Gate(o, t, done).None? <==> answer == Some(true))
      && (answer == Some(true) ==> OutcomeOf(o, t, reply, done) == Execute(o, t, reply))
      && (answer == Some(false) ==>
            var out := OutcomeOf(o, t, reply, done); out.state == Skipped && !out.needHuman && out.toolsUsed == [])
      && (answer == None ==>
            var out := OutcomeOf(o, t, reply, done); out.state == InputRequired && out.needHuman && out.toolsUsed == [])
  {
    hide ConditionMatches, Notice, Execute;
  }

  lemma NeverSkippedByRunning(o: Config, t: Task, reply: AgentReply)
    ensures Execute(o, t, reply).state != Skipped
  {
  }

  /** The task has an agent that may answer it. */
  predicate HasAgent(o: Config, t: Task) {
    && t.intent.confidence >= o.threshold && t.intent.intent != Unknown && t.intent.intent != Greeting
    && o.agentFor(t.intent.intent) != None
  }

  /** The outcome that a condition known to hold, known to fail, or unknown leaves a task with. */
  ghost predicate GoesAs(
      o: Config, tasks: seq<Task>, replies: seq<AgentReply>, i: nat, holds: bool, fails: bool)
    requires i < |tasks| == |replies|
  {
    var out := Final(o, tasks, replies, i);
    && (holds ==> out == Execute(o, tasks[i], replies[i]))
    && (i in CallsOf(o, tasks, replies, |tasks|) <==> holds && HasAgent(o, tasks[i]))
    && (out.state == Skipped <==> fails)
    && (fails ==> !out.needHuman && out.toolsUsed == [])
    && (!holds && !fails ==> out.state == InputRequired && out.needHuman && out.toolsUsed == [])
  }

  lemma AnswerDecides(
      o: Config, tasks: seq<Task>, replies: seq<AgentReply>, i: nat, holds: bool, fails: bool)
    requires i < |tasks| == |replies| && tasks[i].condition.Some? && tasks[i].condition.value != ""
    requires Unblocked(tasks[i], DoneAfter(o, tasks, replies, i))
    requires var t, done := tasks[i], DoneAfter(o, tasks, replies, i);
      ConditionMatches(t.condition.value, Dependencies(t.dependsOn, done))
        == if holds then Some(true) else if fails then Some(false) else None
    requires !(holds && fails)
    ensures GoesAs(o, tasks, replies, i, holds, fails)
  {
    var t, done := tasks[i], DoneAfter(o, tasks, replies, i);
    ConditionDecides(o, t, replies[i], done);
    NeverSkippedByRunning(o, t, replies[i]);
    CallsAreOrdered(o, tasks, replies, |tasks|);
    hide ConditionMatches, Execute, Gate, OutcomeOf, DoneAfter, Dependencies, Unblocked;
  }

  /**
   * A condition on what has not been shipped: the task runs if what it depends on is reported as pending,
   * is skipped if it is reported as shipped and not as pending, and else asks for input.
   */
  lemma ShippingCondition(o: Config, tasks: seq<Task>, replies: seq<AgentReply>, i: nat)
    requires i < |tasks| == |replies| && tasks[i].condition.Some?
    requires Unblocked(tasks[i], DoneAfter(o, tasks, replies, i))
    requires var c := Normalized(tasks[i].condition.value); Contains(c, "没发货") || Contains(c, "未发货")
    ensures var t, done := tasks[i], DoneAfter(o, tasks, replies, i);
      var pending := Reports(t, done, ["待发货", "未发货", "待出库"]);
      var shipped := Reports(t, done, ["已发货", "运输中", "分拨", "派送", "已签收"]);
      GoesAs(o, tasks, replies, i, pending, !pending && shipped)
  {
    var t, done := tasks[i], DoneAfter(o, tasks, replies, i);
    Matches(t, done);
    assert t.condition.value != "";
    hide Reports, ConditionMatches, Contains, Normalized, Unblocked, DoneAfter, GoesAs;
    var pending := Reports(t, done, ["待发货", "未发货", "待出库"]);
    var shipped := Reports(t, done, ["已发货", "运输中", "分拨", "派送", "已签收"]);
    AnswerDecides(o, tasks, replies, i, pending, !pending && shipped);
  }

  /**
   * A condition on stock, and not on shipping: the task runs if the first number reported for the stock is
   * positive, is skipped if it is not, and asks for input if there is none.
   */
  lemma StockCondition(o: Config, tasks: seq<Task>, replies: seq<AgentReply>, i: nat)
    requires i < |tasks| == |replies| && tasks[i].condition.Some?
    requires Unblocked(tasks[i], DoneAfter(o, tasks, replies, i))
    requires var c := Normalized(tasks[i].condition.value);
      Contains(c, "有货") && !Contains(c, "没发货") && !Contains(c, "未发货")
    ensures var t, done := tasks[i], DoneAfter(o, tasks, replies, i);
      GoesAs(o, tasks, replies, i, exists n :: n > 0 && FirstReported(t, done, n),
          exists n :: n <= 0 && FirstReported(t, done, n))
  {
    var t, done := tasks[i], DoneAfter(o, tasks, replies, i);
    Matches(t, done);
    assert t.condition.value != "";
    hide FirstReported, ConditionMatches, Contains, Normalized, Unblocked, DoneAfter, GoesAs;
    AnswerDecides(o, tasks, replies, i, exists n :: n > 0 && FirstReported(t, done, n),
        exists n :: n <= 0 && FirstReported(t, done, n));
  }

  /** Any other condition is beyond the orchestrator: the task asks for input. */
  lemma OtherCondition(o: Config, tasks: seq<Task>, replies: seq<AgentReply>, i: nat)
    requires i < |tasks| == |replies| && tasks[i].condition.Some? && tasks[i].condition.value != ""
    requires Unblocked(tasks[i], DoneAfter(o, tasks, replies, i))
    requires var c := Normalized(tasks[i].condition.value);
      !Contains(c, "有货") && !Contains(c, "没发货") && !Contains(c, "未发货")
    ensures GoesAs(o, tasks, replies, i, false, false)
  {
    Matches(tasks[i], DoneAfter(o, tasks, replies, i));
    hide ConditionMatches, Contains, Normalized, Unblocked, DoneAfter, GoesAs;
    AnswerDecides(o, tasks, replies, i, false, false);
  }

  /** The condition is known to hold. */
  ghost predicate ConditionHolds(t: Task, done: map<string, Outcome>)
    requires t.condition.Some?
  {
    var c := Normalized(t.condition.value);
    if Contains(c, "没发货") || Contains(c, "未发货") then Reports(t, done, ["待发货", "未发货", "待出库"])
    else Contains(c, "有货") && exists n :: n > 0 && FirstReported(t, done, n)
  }

  lemma GateOpensIff(o: Config, t: Task, done: map<string, Outcome>)
    ensures Gate(o, t, done).None? <==>
      Unblocked(t, done) && (t.condition.Some? && t.condition.value != "" ==> ConditionHolds(t, done))
  {
    var outcomes := Dependencies(t.dependsOn, done);
    assert Unblocked(t, done) <==> !AnyNeedsHuman(outcomes);
    if t.condition.Some? { Matches(t, done); }
    hide ConditionMatches, Contains, Normalized, Reports, FirstReported, Notice, Unblocked, AnyNeedsHuman, Dependencies;
  }

  /**
   * An agent is called for exactly the tasks that have one, that no dependency holds up, and whose condition,
   * if any, is known to hold.
   */
  lemma CalledIff(o: Config, tasks: seq<Task>, replies: seq<AgentReply>, i: nat)
    requires i < |tasks| == |replies|
    ensures var t, done := tasks[i], DoneAfter(o, tasks, replies, i);
      i in CallsOf(o, tasks, replies, |tasks|) <==>
        && HasAgent(o, t) && Unblocked(t, done)
        && (t.condition.Some? && t.condition.value != "" ==> ConditionHolds(t, done))
  {
    CallsAreOrdered(o, tasks, replies, |tasks|);
    GateOpensIff(o, tasks[i], DoneAfter(o, tasks, replies, i));
    hide Gate, Unblocked, ConditionHolds, DoneAfter;
  }

  /** Conversely a blocked task builds on one that needs a human. */
  lemma BlockedHasDependency(o: Config, tasks: seq<Task>, replies: seq<AgentReply>, j: nat) returns (k: nat)
    requires j < |tasks| == |replies| && DistinctIds(tasks) && Final(o, tasks, replies, j).state == Blocked
    ensures k < j && tasks[k].id in tasks[j].dependsOn && Final(o, tasks, replies, k).needHuman
  {
    hide Execute, ConditionMatches, Notice;
    var done := DoneAfter(o, tasks, replies, j);
    assert AnyNeedsHuman(Dependencies(tasks[j].dependsOn, done)) by { NeverBlockedByRunning(o, tasks[j], replies[j]); }
    hide OutcomeOf, Gate;
    OneOutcomePerTask(o, tasks, replies, j);
    var x :| x in Dependencies(tasks[j].dependsOn, done) && x.needHuman;
    var d :| d in tasks[j].dependsOn && d in done && x == done[d];
    k :| 0 <= k < j && tasks[k].id == d;
  }

  lemma NeverBlockedByRunning(o: Config, t: Task, reply: AgentReply)
    ensures Execute(o, t, reply).state != Blocked
  {
  }

  /** A task is blocked exactly if something it depends on, directly or not, needs a human. */
  lemma BlockedIff(o: Config, tasks: seq<Task>, replies: seq<AgentReply>, j: nat)
    requires j < |tasks| == |replies| && DistinctIds(tasks)
    ensures Final(o, tasks, replies, j).state == Blocked <==>
      exists i: nat :: i < |tasks| && DescendsFrom(tasks, j, i) && Final(o, tasks, replies, i).needHuman
  {
    hide OutcomeOf, DoneAfter;
    if Final(o, tasks, replies, j).state == Blocked {
      var k := BlockedHasDependency(o, tasks, replies, j);
      assert DescendsFrom(tasks, j, k);
    }
    forall i: nat | i < |tasks| && DescendsFrom(tasks, j, i) && Final(o, tasks, replies, i).needHuman
      ensures Final(o, tasks, replies, j).state == Blocked
    {
      BlocksDescendants(o, tasks, replies, i, j);
    }
  }

  /** Behind every task that needs a human there is one that does so by itself. */
  lemma {:induction false} HumanHasCause(o: Config, tasks: seq<Task>, replies: seq<AgentReply>, j: nat) returns (k: nat)
    requires j < |tasks| == |replies| && DistinctIds(tasks) && Final(o, tasks, replies, j).needHuman
    ensures k <= j && Final(o, tasks, replies, k).needHuman && Final(o, tasks, replies, k).state != Blocked
  {
    hide OutcomeOf, DoneAfter;
    if Final(o, tasks, replies, j).state == Blocked {
      var i := BlockedHasDependency(o, tasks, replies, j);
      k := HumanHasCause(o, tasks, replies, i);
    } else {
      k := j;
    }
  }

  // ---- the report ----

  /** `list(dict.fromkeys(values))`: first occurrences, in order. */
  function FirstOccurrences(values: seq<string>): (r: seq<string>)
    ensures forall v :: v in r <==> v in values
    ensures forall a, b :: 0 <= a < b < |r| ==> r[a] != r[b]
  {
    if values == [] then []
    else
      var last := values[|values| - 1];
      var earlier := FirstOccurrences(values[..|values| - 1]);
      assert values == values[..|values| - 1] + [last];
      if last in earlier then earlier else earlier + [last]
  }

  function AllTools(outcomes: seq<Outcome>): seq<string> {
    if outcomes == [] then [] else outcomes[0].toolsUsed + AllTools(outcomes[1..])
  }

  datatype Report = Report(outcomes: seq<Outcome>, toolsUsed: seq<string>, needHuman: bool, parallel: bool)

  function ReportOf(outcomes: seq<Outcome>, parallel: bool): Report {
    Report(outcomes, FirstOccurrences(AllTools(outcomes)), AnyNeedsHuman(outcomes), parallel)
  }

  /** The outcomes of a sequential run, in task order. */
  function SequentialOutcomes(o: Config, tasks: seq<Task>, replies: seq<AgentReply>): (r: seq<Outcome>)
    requires |tasks| == |replies|
    ensures |r| == |tasks|
    ensures forall i :: 0 <= i < |r| ==> r[i] == Final(o, tasks, replies, i)
  {
    seq(|tasks|, i requires 0 <= i < |tasks| => Final(o, tasks, replies, i))
  }

  /** Runs the plan and reports on it, task by task. */
  method ReportSequentially(o: Config, tasks: seq<Task>, replies: seq<AgentReply>) returns (report: Report)
    requires |tasks| == |replies| && DistinctIds(tasks)
    ensures report == ReportOf(SequentialOutcomes(o, tasks, replies), false)
  {
    hide Final, DoneAfter, FirstOccurrences, AllTools;
    var outcomes, calls := ExecuteSequentially(o, tasks, replies);
    OneOutcomePerTask(o, tasks, replies, |tasks|);
    assert forall i :: 0 <= i < |tasks| ==> tasks[i].id in outcomes.Keys;
    var ordered := seq(|tasks|, i requires 0 <= i < |tasks| => outcomes[tasks[i].id]);
    assert ordered == SequentialOutcomes(o, tasks, replies);
    report := ReportOf(ordered, false);
  }

  /**
   * A tool is reported exactly when some task used it, and a human is asked for exactly when some task needs
   * one by itself: blocked tasks never are the only reason.
   */
  lemma ReportIsFaithful(o: Config, tasks: seq<Task>, replies: seq<AgentReply>, tool: string)
    requires |tasks| == |replies| && DistinctIds(tasks)
    ensures var report := ReportOf(SequentialOutcomes(o, tasks, replies), false);
      && (tool in report.toolsUsed <==> exists i :: 0 <= i < |tasks| && tool in Final(o, tasks, replies, i).toolsUsed)
      && (report.needHuman <==> exists i ::
            0 <= i < |tasks| && Final(o, tasks, replies, i).needHuman && Final(o, tasks, replies, i).state != Blocked)
  {
    hide Final, DoneAfter, FirstOccurrences, AllTools;
    var outcomes := SequentialOutcomes(o, tasks, replies);
    ToolsOf(outcomes, tool);
    assert forall i :: 0 <= i < |tasks| ==> outcomes[i] in outcomes;
    if AnyNeedsHuman(outcomes) {
      var j :| 0 <= j < |outcomes| && outcomes[j].needHuman;
      var k := HumanHasCause(o, tasks, replies, j);
    }
  }

  lemma {:induction false} ToolsOf(outcomes: seq<Outcome>, tool: string)
    ensures tool in AllTools(outcomes) <==> exists x :: x in outcomes && tool in x.toolsUsed
  {
    if outcomes != [] {
      ToolsOf(outcomes[1..], tool);
      assert forall x :: x in outcomes <==> x == outcomes[0] || x in outcomes[1..];
    }
  }

  // ---- plans without dependencies ----

  lemma NoMarkerInBrackets(markers: seq<string>)
    requires forall m :: m in markers ==> |m| >= 2 && m != "[]"
    ensures !ContainsAny("[]", markers)
  {
    forall m | m in markers ensures !Contains("[]", m) {}
  }

  lemma NothingToJudge(condition: string)
    ensures Judged(condition, "[]", None).None?
  {
    hide Contains, ContainsAny;
    NoMarkerInBrackets(["待发货", "未发货", "待出库"]);
    NoMarkerInBrackets(["已发货", "运输中", "分拨", "派送", "已签收"]);
  }

  /** Without dependencies no condition can be judged. */
  lemma NothingToGoBy(condition: string)
    ensures ConditionMatches(condition, []).None?
  {
    hide Judged;
    assert "[" + Join(", ", JsonOf([])) + "]" == "[]";
    NothingToJudge(Without(Without(condition, '还'), '尚'));
  }

  /**
   * A task without dependencies runs as if it were alone, exactly if it carries no condition: with one, it
   * asks for input.
   */
  lemma RunsAloneIff(o: Config, t: Task, reply: AgentReply, done: map<string, Outcome>)
    requires t.dependsOn == []
    ensures OutcomeOf(o, t, reply, done) == Execute(o, t, reply) <==> t.condition.None? || t.condition.value == ""
  {
    assert Dependencies(t.dependsOn, done) == [];
    if t.condition.Some? {
      NothingToGoBy(t.condition.value);
      hide ConditionMatches;
      assert Notice(ConditionUnknown, t)[0] == '暂' && Notice(LowConfidence, t)[0] == '无';
    }
  }

  /** So the tasks of a parallel plan do not influence each other exactly if none carries a condition. */
  lemma IndependentTasksIff(o: Config, tasks: seq<Task>, replies: seq<AgentReply>)
    requires |tasks| == |replies| && IsParallel(tasks)
    ensures (forall i :: 0 <= i < |tasks| ==> Final(o, tasks, replies, i) == Execute(o, tasks[i], replies[i]))
      <==> forall t :: t in tasks ==> t.condition.None? || t.condition.value == ""
  {
    hide OutcomeOf, Execute, DoneAfter;
    forall i | 0 <= i < |tasks|
      ensures Final(o, tasks, replies, i) == Execute(o, tasks[i], replies[i])
        <==> tasks[i].condition.None? || tasks[i].condition.value == ""
    {
      assert tasks[i] in tasks;
      RunsAloneIff(o, tasks[i], replies[i], DoneAfter(o, tasks, replies, i));
    }
  }
}
