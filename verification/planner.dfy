/** `QueryPlanner`: splitting a message into tasks and building the execution plan. */
module Planner {
  import opened Text
  import opened Domain

  datatype IntentResult = IntentResult(intent: Intent, confidence: real, entities: map<string, string>)

  datatype Task = Task(
    id: string, content: string, intent: IntentResult, position: nat, dependsOn: seq<string>, condition: Option<string>)

  datatype Segment = Segment(content: string, dependsOnPosition: Option<nat>, condition: Option<string>)

  predicate IsMulti(tasks: seq<Task>) { |tasks| > 1 }

  predicate IsParallel(tasks: seq<Task>) {
    IsMulti(tasks) && forall t :: t in tasks ==> t.dependsOn == []
  }

  // ---- the separators ----

  predicate IsComma(c: char) { c == '，' || c == ',' }

  predicate StartsAt(s: string, i: nat, word: string) { i <= |s| && word <= s[i..] }

  function Spaces(s: string, i: nat): (n: nat)
    requires i <= |s|
    ensures i + n <= |s| && forall j :: i <= j < i + n ==> IsSpace(s[j])
    ensures i + n < |s| ==> !IsSpace(s[i + n])
    decreases |s| - i
  {
    if i < |s| && IsSpace(s[i]) then 1 + Spaces(s, i + 1) else 0
  }

  /** Length of the coordinating word at `i`, or 0. */
  function WordLength(s: string, i: nat): (n: nat)
    requires i <= |s|
    ensures i + n <= |s|
  {
    if StartsAt(s, i, "另外") then 2
    else if StartsAt(s, i, "同时") then 2
    else if StartsAt(s, i, "再帮我") then 3
    else if StartsAt(s, i, "再") then 1
    else if StartsAt(s, i, "并且") then 2
    else if StartsAt(s, i, "还有") then 2
    else if StartsAt(s, i, "然后") then 2
    else 0
  }

  /**
   * Length of an independent separator at `i`, or 0: an optional comma, a coordinating word, and the spaces
   * after each.
   */
  function IndependentLength(s: string, i: nat): (n: nat)
    requires i <= |s|
    ensures i + n <= |s|
  {
    var start := if i < |s| && IsComma(s[i]) then i + 1 + Spaces(s, i + 1) else i;
    var word := WordLength(s, start);
    if word == 0 then 0 else start - i + word + Spaces(s, start + word)
  }

  predicate EndsSentence(c: char) { c == '；' || c == ';' || c == '。' }

  function SentenceLength(s: string, i: nat): (n: nat)
    requires i <= |s|
    ensures i + n <= |s| && forall j :: i <= j < i + n ==> s[j] in "；;。"
    ensures i + n < |s| ==> s[i + n] !in "；;。"
    decreases |s| - i
  {
    if i < |s| && EndsSentence(s[i]) then 1 + SentenceLength(s, i + 1) else 0
  }

  datatype Separator = Sentence | Independent

  function MatchLength(k: Separator, s: string, i: nat): (n: nat)
    requires i <= |s|
    ensures i + n <= |s|
  {
    match k case Sentence => SentenceLength(s, i) case Independent => IndependentLength(s, i)
  }

  /** The first position from `i` on where a separator matches, or the end. */
  function FirstMatch(k: Separator, s: string, i: nat): (j: nat)
    requires i <= |s|
    ensures i <= j <= |s|
    ensures j < |s| ==> MatchLength(k, s, j) > 0
    ensures forall m :: i <= m < j ==> MatchLength(k, s, m) == 0
    decreases |s| - i
  {
    if i == |s| || MatchLength(k, s, i) > 0 then i else FirstMatch(k, s, i + 1)
  }

  /** `re.split`: the pieces between the leftmost non-overlapping matches, from `i` on. */
  function SplitFrom(k: Separator, s: string, i: nat): (pieces: seq<string>)
    requires i <= |s|
    ensures pieces != []
    decreases |s| - i
  {
    var j := FirstMatch(k, s, i);
    if j == |s| then [s[i..]] else [s[i..j]] + SplitFrom(k, s, j + MatchLength(k, s, j))
  }

  /** The separators themselves, in the same order. */
  function SeparatorsFrom(k: Separator, s: string, i: nat): seq<string>
    requires i <= |s|
    decreases |s| - i
  {
    var j := FirstMatch(k, s, i);
    if j == |s| then []
    else [s[j..j + MatchLength(k, s, j)]] + SeparatorsFrom(k, s, j + MatchLength(k, s, j))
  }

  function Interleave(pieces: seq<string>, separators: seq<string>): string
    requires |pieces| == |separators| + 1
  {
    if separators == [] then pieces[0]
    else pieces[0] + separators[0] + Interleave(pieces[1..], separators[1..])
  }

  /** Splitting loses nothing but the separators: putting them back restores the text. */
  lemma {:induction false} SplitRejoins(k: Separator, s: string, i: nat)
    requires i <= |s|
    ensures |SplitFrom(k, s, i)| == |SeparatorsFrom(k, s, i)| + 1
    ensures Interleave(SplitFrom(k, s, i), SeparatorsFrom(k, s, i)) == s[i..]
    decreases |s| - i
  {
    hide MatchLength, Interleave;
    var j := FirstMatch(k, s, i);
    if j == |s| {
      LonePiece(s[i..]);
    } else {
      var n := MatchLength(k, s, j);
      SplitRejoins(k, s, j + n);
      InterleaveCons(s[i..j], s[j..j + n], SplitFrom(k, s, j + n), SeparatorsFrom(k, s, j + n));
      assert s[i..j] + s[j..j + n] + s[j + n..] == s[i..];
    }
  }

  lemma LonePiece(piece: string)
    ensures Interleave([piece], []) == piece
  {
  }

  lemma InterleaveCons(piece: string, separator: string, pieces: seq<string>, separators: seq<string>)
    requires |pieces| == |separators| + 1
    ensures Interleave([piece] + pieces, [separator] + separators) == piece + separator + Interleave(pieces, separators)
  {
    assert ([piece] + pieces)[1..] == pieces && ([separator] + separators)[1..] == separators;
  }

  predicate IsTrimmed(c: char) {
    c == ' ' || IsComma(c) || EndsSentence(c)
  }

  /** The stripped parts that are not empty. */
  function Trimmed(parts: seq<string>): (r: seq<string>)
    ensures forall p :: p in r ==> p != ""
  {
    if parts == [] then []
    else
      var part := Strip(parts[0], IsTrimmed);
      (if part == "" then [] else [part]) + Trimmed(parts[1..])
  }

  // ---- the conditional sentence ----

  predicate OneLine(s: string) { '\n' !in s }

  /** Where the condition starts if the text goes on, after the head, with a comma, spaces and the word for "if". */
  function ConditionStart(s: string, head: nat): (p: nat)
    requires head < |s|
    ensures p <= |s|
  {
    var p := head + 1 + Spaces(s, head + 1);
    if IsComma(s[head]) && StartsAt(s, p, "如果") then p + 2 else 0
  }

  /** Head, condition and tail lie at `[0, head)`, `[start, end)` and `(end, |s|)`. */
  predicate SplitsAt(s: string, head: nat, end: nat) {
    && 1 <= head < end < |s| - 1
    && ConditionStart(s, head) != 0
    && ConditionStart(s, head) < end
    && s[end] == '就'
    && OneLine(s[..head]) && OneLine(s[ConditionStart(s, head)..])
  }

  datatype Conditional = Conditional(head: string, condition: string, tail: string)

  /**
   * The shortest head, and for it the shortest condition, for which the sentence reads "head, if condition
   * then tail".
   */
  function FindConditional(s: string, head: nat, end: nat): (r: Option<Conditional>)
    requires head <= |s| && end <= |s|
    decreases |s| - head, |s| - end
  {
    if head == |s| then None
    else if end == |s| then FindConditional(s, head + 1, 0)
    else if SplitsAt(s, head, end)
    then Some(Conditional(s[..head], s[ConditionStart(s, head)..end], s[end + 1..]))
    else FindConditional(s, head, end + 1)
  }

  function Conditionally(text: string): Option<Conditional> {
    match FindConditional(text, 0, 0)
    case None => None
    case Some(c) =>
      var head, tail := Strip(c.head, IsSpace), Strip(c.tail, IsSpace);
      if head == "" || tail == "" then None else Some(Conditional(head, Strip(c.condition, IsSpace), tail))
  }

  // ---- _split ----

  function Plain(part: string): Segment { Segment(part, None, None) }

  function PlainAll(parts: seq<string>): (r: seq<Segment>)
    ensures |r| == |parts|
    ensures forall i :: 0 <= i < |parts| ==> r[i] == Plain(parts[i])
  {
    seq(|parts|, i requires 0 <= i < |parts| => Plain(parts[i]))
  }

  /** The parts of all sentences, in order. */
  function PartsOf(sentences: seq<string>): seq<string> {
    if sentences == [] then []
    else PartsOf(sentences[..|sentences| - 1]) + SplitFrom(Independent, sentences[|sentences| - 1], 0)
  }

  function Segments(content: string, maxTasks: int): seq<Segment> {
    var text := Strip(content, IsSpace);
    var conditional := Conditionally(text);
    if conditional.Some? then
      Prefix([Plain(conditional.value.head),
          Segment(conditional.value.tail, Some(0), Some(conditional.value.condition))], maxTasks)
    else
      var parts := Trimmed(PartsOf(SplitFrom(Sentence, text, 0)));
      if |parts| <= 1 then [Plain(text)] else PlainAll(Prefix(parts, maxTasks))
  }

  method Split(content: string, maxTasks: int) returns (segments: seq<Segment>)
    ensures segments == Segments(content, maxTasks)
  {
    var text := Strip(content, IsSpace);
    var conditional := Conditionally(text);
    if conditional.Some? {
      return Prefix([Plain(conditional.value.head),
          Segment(conditional.value.tail, Some(0), Some(conditional.value.condition))], maxTasks);
    }
    var sentences := SplitFrom(Sentence, text, 0);
    var parts := [];
    for i := 0 to |sentences|
      invariant parts == PartsOf(sentences[..i])
    {
      assert sentences[..i + 1][..i] == sentences[..i];
      parts := parts + SplitFrom(Independent, sentences[i], 0);
    }
    assert sentences[..|sentences|] == sentences;
    var normalized := Trimmed(parts);
    if |normalized| <= 1 { return [Plain(text)]; }
    return PlainAll(Prefix(normalized, maxTasks));
  }

  // ---- build ----

  function TaskId(position: nat): string { "task-" + Decimal(position + 1) }

  /** The entities of the first tasks, later ones overriding earlier ones. */
  function MergedEntities(intents: seq<IntentResult>): map<string, string> {
    if intents == [] then map[]
    else MergedEntities(intents[..|intents| - 1]) + intents[|intents| - 1].entities
  }

  function Classified(segments: seq<Segment>, classifier: string -> IntentResult): (r: seq<IntentResult>)
    ensures |r| == |segments|
    ensures forall i :: 0 <= i < |r| ==> r[i] == classifier(segments[i].content)
  {
    seq(|segments|, i requires 0 <= i < |segments| => classifier(segments[i].content))
  }

  function PlannedTask(segment: Segment, intents: seq<IntentResult>, i: nat): Task
    requires i < |intents|
  {
    Task(TaskId(i), segment.content, intents[i].(entities := MergedEntities(intents[..i + 1])), i,
         if segment.dependsOnPosition.Some? then [TaskId(segment.dependsOnPosition.value)] else [],
         segment.condition)
  }

  method Build(content: string, maxTasks: int, classifier: string -> IntentResult) returns (tasks: seq<Task>)
    ensures var segments := Segments(content, maxTasks);
      && |tasks| == |segments|
      && forall i :: 0 <= i < |tasks| ==> tasks[i] == PlannedTask(segments[i], Classified(segments, classifier), i)
  {
    hide Segments, TaskId, Classified, MergedEntities;
    MergeNone(Classified(Segments(content, maxTasks), classifier));
    var segments := Split(content, maxTasks);
    var intents := Classified(segments, classifier);
    var inherited: map<string, string> := map[];
    tasks := [];
    for i := 0 to |segments|
      invariant |tasks| == i && inherited == MergedEntities(intents[..i])
      invariant forall j :: 0 <= j < i ==> tasks[j] == PlannedTask(segments[j], intents, j)
    {
      MergeOneMore(intents, i);
      var merged := inherited + intents[i].entities;
      inherited := inherited + intents[i].entities;
      var dependency :=
        if segments[i].dependsOnPosition.Some? then [TaskId(segments[i].dependsOnPosition.value)] else [];
      var task := Task(
        TaskId(i), segments[i].content, intents[i].(entities := merged), i, dependency, segments[i].condition);
      assert task == PlannedTask(segments[i], intents, i);
      hide PlannedTask;
      tasks := tasks + [task];
    }
  }

  lemma MergeNone(intents: seq<IntentResult>)
    ensures MergedEntities(intents[..0]) == map[]
  {
  }

  lemma MergeOneMore(intents: seq<IntentResult>, i: nat)
    requires i < |intents|
    ensures MergedEntities(intents[..i + 1]) == MergedEntities(intents[..i]) + intents[i].entities
  {
    assert intents[..i + 1][..i] == intents[..i];
  }

  // ---- what every plan satisfies ----

  ghost predicate IsPlan(content: string, maxTasks: int, classifier: string -> IntentResult, tasks: seq<Task>) {
    var segments := Segments(content, maxTasks);
    && |tasks| == |segments|
    && forall i :: 0 <= i < |tasks| ==> tasks[i] == PlannedTask(segments[i], Classified(segments, classifier), i)
  }

  /** Dependencies point to earlier tasks, and only a dependent task carries a condition. */
  ghost predicate WellFormed(tasks: seq<Task>) {
    && (forall i :: 0 <= i < |tasks| ==> tasks[i].id == TaskId(i) && tasks[i].position == i)
    && (forall i, d :: 0 <= i < |tasks| && d in tasks[i].dependsOn ==> exists j :: 0 <= j < i && tasks[j].id == d)
    && (forall i :: 0 <= i < |tasks| && tasks[i].condition.Some? ==> tasks[i].dependsOn != [])
  }

  lemma {:induction false} MergedEntity(intents: seq<IntentResult>, n: nat, entity: string)
    requires n <= |intents|
    ensures entity in MergedEntities(intents[..n]) <==> exists k :: 0 <= k < n && entity in intents[k].entities
  {
    if n > 0 {
      assert intents[..n][..n - 1] == intents[..n - 1];
      MergedEntity(intents, n - 1, entity);
    }
  }

  lemma {:induction false} MergedValue(intents: seq<IntentResult>, n: nat, entity: string, k: nat)
    requires k < n <= |intents| && entity in intents[k].entities
    requires forall m :: k < m < n ==> entity !in intents[m].entities
    ensures entity in MergedEntities(intents[..n])
    ensures MergedEntities(intents[..n])[entity] == intents[k].entities[entity]
    decreases n
  {
    assert intents[..n][..n - 1] == intents[..n - 1];
    if k < n - 1 {
      MergedValue(intents, n - 1, entity, k);
    }
  }

  /** A task carries an entity exactly if one of the tasks up to it was classified with it. */
  lemma EntitiesAreInherited(
    content: string, maxTasks: int, classifier: string -> IntentResult, tasks: seq<Task>, i: nat, entity: string)
    requires IsPlan(content, maxTasks, classifier, tasks) && i < |tasks|
    ensures entity in tasks[i].intent.entities <==>
      exists k :: 0 <= k <= i && entity in classifier(Segments(content, maxTasks)[k].content).entities
  {
    hide Segments, MergedEntities;
    var intents := Classified(Segments(content, maxTasks), classifier);
    MergedEntity(intents, i + 1, entity);
    if k :| 0 <= k <= i && entity in classifier(Segments(content, maxTasks)[k].content).entities {
      assert entity in intents[k].entities;
    }
  }

  /** Every task is classified by its own words, and a task with a condition depends on the first one alone. */
  lemma TasksFollowSegments(
    content: string, maxTasks: int, classifier: string -> IntentResult, tasks: seq<Task>, i: nat)
    requires IsPlan(content, maxTasks, classifier, tasks) && i < |tasks|
    ensures var t, segment := tasks[i], Segments(content, maxTasks)[i];
      && t.content == segment.content && t.condition == segment.condition
      && t.intent.intent == classifier(t.content).intent && t.intent.confidence == classifier(t.content).confidence
      && t.id == "task-" + Decimal(i + 1)
      && t.dependsOn == if t.condition.Some? then [tasks[0].id] else []
  {
    SegmentShape(content, maxTasks);
    hide Segments, MergedEntities, Decimal;
  }

  /** Its value is that of the last of these classifications that has it. */
  lemma EntityIsLatest(
    content: string, maxTasks: int, classifier: string -> IntentResult, tasks: seq<Task>, i: nat, entity: string,
    k: nat)
    requires IsPlan(content, maxTasks, classifier, tasks) && k <= i < |tasks|
    requires entity in classifier(Segments(content, maxTasks)[k].content).entities
    requires forall m :: k < m <= i ==> entity !in classifier(Segments(content, maxTasks)[m].content).entities
    ensures entity in tasks[i].intent.entities
    ensures tasks[i].intent.entities[entity] == classifier(Segments(content, maxTasks)[k].content).entities[entity]
  {
    hide Segments, MergedEntities;
    MergedValue(Classified(Segments(content, maxTasks), classifier), i + 1, entity, k);
  }

  lemma TaskIdInjective(i: nat, j: nat)
    requires TaskId(i) == TaskId(j)
    ensures i == j
  {
    var prefix := "task-";
    assert TaskId(i)[|prefix|..] == Decimal(i + 1) && TaskId(j)[|prefix|..] == Decimal(j + 1);
    DecimalInjective(i + 1, j + 1);
  }

  /** What the segments of a message look like: one, or several that depend on nothing, or a pair. */
  lemma SegmentShape(content: string, maxTasks: int)
    ensures var segments := Segments(content, maxTasks);
      && (1 <= |segments| <= maxTasks <==> maxTasks >= 1)
      && forall i :: 0 <= i < |segments| ==>
           && (segments[i].dependsOnPosition.Some? ==> i == 1 && segments[i].dependsOnPosition.value == 0)
           && (segments[i].condition.Some? <==> segments[i].dependsOnPosition.Some?)
  {
    hide Conditionally, Trimmed, PartsOf, SplitFrom;
  }

  /**
   * Every plan is well formed, whatever the limit; and it has between 1 and the limit tasks exactly when the
   * limit allows any.
   */
  lemma PlansAreWellFormed(content: string, maxTasks: int, classifier: string -> IntentResult, tasks: seq<Task>)
    requires IsPlan(content, maxTasks, classifier, tasks)
    ensures WellFormed(tasks)
    ensures 1 <= |tasks| <= maxTasks <==> maxTasks >= 1
    ensures forall i, j :: 0 <= i < j < |tasks| ==> tasks[i].id != tasks[j].id
  {
    SegmentShape(content, maxTasks);
    hide Segments, MergedEntities, TaskId;
    forall i, d | 0 <= i < |tasks| && d in tasks[i].dependsOn ensures exists j :: 0 <= j < i && tasks[j].id == d {
      assert tasks[0].id == d;
    }
    forall i, j | 0 <= i < j < |tasks| ensures tasks[i].id != tasks[j].id {
      if tasks[i].id == tasks[j].id { TaskIdInjective(i, j); }
    }
  }

  /** With a limit of 0 the plan has no task at all for exactly the messages that would be split. */
  lemma LimitZero(content: string)
    ensures Segments(content, 0) == [] <==> |Segments(content, 2)| == 2
  {
  }
}
