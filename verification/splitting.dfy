/** Which messages `QueryPlanner` splits, and into what: the patterns it looks for, and what it makes of them. */
module Splitting {
  import opened Text
  import opened Planner

  // ---- the coordinating words ----

  const WORDS := ["另外", "同时", "再", "再帮我", "并且", "还有", "然后"]

  predicate SpacesOnly(s: string, i: nat, j: nat)
    requires j <= |s|
  {
    forall k :: i <= k < j ==> IsSpace(s[k])
  }

  /**
   * From `i` to `end` there is a coordinating word, at `start`, and spaces, with at most a comma and spaces
   * before it.
   */
  predicate HasWord(s: string, i: nat, end: nat, start: nat, word: string) {
    && i <= start && start + |word| <= end <= |s|
    && word in WORDS && OccursAt(s, word, start) && SpacesOnly(s, start + |word|, end)
    && (start == i || ((s[i] == '，' || s[i] == ',') && SpacesOnly(s, i + 1, start)))
  }

  ghost predicate Coordinates(s: string, i: nat, end: nat) {
    exists start: nat, word :: HasWord(s, i, end, start, word)
  }

  lemma FirstChar(s: string, i: nat, word: string)
    requires word != ""
    ensures OccursAt(s, word, i) ==> i + |word| <= |s| && s[i] == word[0] && (|word| > 1 ==> s[i + 1] == word[1])
    ensures i <= |s| ==> (StartsAt(s, i, word) <==> OccursAt(s, word, i))
  {
    if OccursAt(s, word, i) {
      assert forall k :: 0 <= k < |word| ==> s[i..i + |word|][k] == word[k];
    }
    if i <= |s| && i + |word| <= |s| { assert s[i..][..|word|] == s[i..i + |word|]; }
  }

  lemma WordAt(s: string, i: nat, word: string)
    requires i <= |s| && word in WORDS && OccursAt(s, word, i)
    ensures var n := WordLength(s, i); n == |word| || (word == "再" && n == 3 && s[i + 1] == '帮')
  {
    forall w | w in WORDS ensures w != "" { }
    FirstChar(s, i, word);
    FirstChar(s, i, "另外");
    FirstChar(s, i, "同时");
    FirstChar(s, i, "再帮我");
    FirstChar(s, i, "再");
    FirstChar(s, i, "并且");
    FirstChar(s, i, "还有");
    FirstChar(s, i, "然后");
    hide OccursAt, StartsAt;
  }

  lemma WordLengthIs(s: string, i: nat) returns (word: string)
    requires i <= |s| && WordLength(s, i) > 0
    ensures word in WORDS && |word| == WordLength(s, i) && OccursAt(s, word, i)
  {
    word :=
      if StartsAt(s, i, "另外") then "另外"
      else if StartsAt(s, i, "同时") then "同时"
      else if StartsAt(s, i, "再帮我") then "再帮我"
      else if StartsAt(s, i, "再") then "再"
      else if StartsAt(s, i, "并且") then "并且"
      else if StartsAt(s, i, "还有") then "还有"
      else "然后";
    FirstChar(s, i, word);
    hide StartsAt, OccursAt;
  }

  lemma WordIsVisible(word: string)
    requires word in WORDS
    ensures word != "" && !IsSpace(word[0]) && !IsComma(word[0])
  {
  }

  lemma SpacesAre(s: string, i: nat)
    requires i <= |s|
    ensures SpacesOnly(s, i, i + Spaces(s, i))
  {
  }

  lemma SpacesAtMost(s: string, i: nat, j: nat)
    requires i <= j <= |s| && SpacesOnly(s, i, j)
    ensures j <= i + Spaces(s, i)
  {
  }

  lemma SpacesExactly(s: string, i: nat, j: nat)
    requires i <= j < |s| && SpacesOnly(s, i, j) && !IsSpace(s[j])
    ensures j == i + Spaces(s, i)
  {
    SpacesAtMost(s, i, j);
    SpacesAre(s, i);
  }

  /** Where the word of a separator at `i` is looked for. */
  function WordStart(s: string, i: nat): (start: nat)
    requires i <= |s|
    ensures i <= start <= |s|
  {
    if i < |s| && IsComma(s[i]) then i + 1 + Spaces(s, i + 1) else i
  }

  lemma StartIs(s: string, i: nat, end: nat, start: nat, word: string)
    requires HasWord(s, i, end, start, word)
    ensures start < |s| && start == WordStart(s, i)
  {
    WordIsVisible(word);
    FirstChar(s, start, word);
    if start > i { SpacesExactly(s, i + 1, start); }
  }

  lemma AtMost(s: string, i: nat, end: nat, start: nat, word: string)
    requires i <= |s| && HasWord(s, i, end, start, word)
    ensures i < end <= i + IndependentLength(s, i)
  {
    StartIs(s, i, end, start, word);
    WordIsVisible(word);
    WordAt(s, start, word);
    hide OccursAt, WordLength;
    var n := WordLength(s, start);
    if n == |word| {
      SpacesAtMost(s, start + n, end);
    } else if end > start + 1 {
      assert IsSpace(s[start + 1]);
    }
  }

  lemma WordStartIs(s: string, i: nat)
    requires i <= |s|
    ensures var start := WordStart(s, i); start == i || (IsComma(s[i]) && SpacesOnly(s, i + 1, start))
    ensures var start, n := WordStart(s, i), WordLength(s, WordStart(s, i));
      IndependentLength(s, i) == if n == 0 then 0 else start + n + Spaces(s, start + n) - i
  {
    if i < |s| && IsComma(s[i]) { SpacesAre(s, i + 1); }
    hide WordLength, SpacesOnly, Spaces, IsSpace;
  }

  lemma Matches(s: string, i: nat)
    requires i <= |s| && IndependentLength(s, i) > 0
    ensures Coordinates(s, i, i + IndependentLength(s, i))
  {
    hide *;
    WordStartIs(s, i);
    var start := WordStart(s, i);
    var word := WordLengthIs(s, start);
    SpacesAre(s, start + |word|);
    IsCoordination(s, i, i + IndependentLength(s, i), start, word);
  }

  lemma IsCoordination(s: string, i: nat, end: nat, start: nat, word: string)
    requires i <= start && start + |word| <= end <= |s|
    requires word in WORDS && OccursAt(s, word, start) && SpacesOnly(s, start + |word|, end)
    requires start == i || (IsComma(s[i]) && SpacesOnly(s, i + 1, start))
    ensures Coordinates(s, i, end)
  {
    hide SpacesOnly, OccursAt;
    assert HasWord(s, i, end, start, word);
  }

  /** What separates tasks is, wherever it is looked for, the longest text that coordinates, or nothing. */
  lemma LongestMatch(s: string, i: nat)
    requires i <= |s|
    ensures var n := IndependentLength(s, i);
      (n > 0 ==> Coordinates(s, i, i + n)) && forall end: nat :: Coordinates(s, i, end) ==> i < end <= i + n
  {
    hide IndependentLength, HasWord;
    if IndependentLength(s, i) > 0 { Matches(s, i); }
    forall end: nat | Coordinates(s, i, end) ensures i < end <= i + IndependentLength(s, i) {
      var start: nat, word :| HasWord(s, i, end, start, word);
      AtMost(s, i, end, start, word);
    }
  }

  // ---- the parts of a message ----

  lemma WordMatches(s: string, i: nat, word: string)
    requires word in WORDS && OccursAt(s, word, i)
    ensures i < |s| && MatchLength(Independent, s, i) > 0
  {
    hide IndependentLength, OccursAt;
    WordIsVisible(word);
    FirstChar(s, i, word);
    assert HasWord(s, i, i + |word|, i, word);
    AtMost(s, i, i + |word|, i, word);
  }

  lemma NoWordUnmatched(s: string, i: nat, j: nat, word: string)
    requires i <= j <= |s| && word in WORDS && forall m :: i <= m < j ==> MatchLength(Independent, s, m) == 0
    ensures !Contains(s[i..j], word)
  {
    var piece := s[i..j];
    WordIsVisible(word);
    if a :| 0 <= a <= |piece| && OccursAt(piece, word, a) {
      OccursWithin(s, piece, word, i, a);
      WordMatches(s, i + a, word);
    }
  }

  /** Between two separators there is no coordinating word. */
  lemma {:induction false} PiecesHaveNoWord(s: string, i: nat, word: string)
    requires i <= |s| && word in WORDS
    ensures forall piece :: piece in SplitFrom(Independent, s, i) ==> !Contains(piece, word)
    decreases |s| - i
  {
    hide Contains, IndependentLength;
    var j := FirstMatch(Independent, s, i);
    NoWordUnmatched(s, i, j, word);
    if j < |s| {
      PiecesHaveNoWord(s, j + MatchLength(Independent, s, j), word);
    } else {
      assert s[i..j] == s[i..];
    }
  }

  lemma NoEndUnmatched(s: string, i: nat, j: nat, c: char)
    requires i <= j <= |s| && c in s[i..j] && forall m :: i <= m < j ==> MatchLength(Sentence, s, m) == 0
    ensures c !in "；;。"
  {
    var m :| 0 <= m < j - i && s[i..j][m] == c;
    assert MatchLength(Sentence, s, i + m) == 0;
  }

  /** Nor between two sentence ends a character that ends a sentence. */
  lemma {:induction false} SentencesHaveNoEnd(s: string, i: nat)
    requires i <= |s|
    ensures forall piece, c :: piece in SplitFrom(Sentence, s, i) && c in piece ==> c !in "；;。"
    decreases |s| - i
  {
    var j := FirstMatch(Sentence, s, i);
    forall c | c in s[i..j] ensures c !in "；;。" { NoEndUnmatched(s, i, j, c); }
    hide MatchLength;
    if j < |s| {
      SentencesHaveNoEnd(s, j + MatchLength(Sentence, s, j));
    } else {
      assert s[i..j] == s[i..];
    }
  }

  lemma {:induction false} PiecesAreOfText(k: Separator, s: string, i: nat)
    requires i <= |s|
    ensures forall piece, c :: piece in SplitFrom(k, s, i) && c in piece ==> c in s
    decreases |s| - i
  {
    hide MatchLength;
    var j := FirstMatch(k, s, i);
    if j < |s| { PiecesAreOfText(k, s, j + MatchLength(k, s, j)); }
  }

  ghost predicate IsClean(part: string) {
    (forall w :: w in WORDS ==> !Contains(part, w)) && (forall c :: c in part ==> c !in "；;。")
  }

  lemma {:induction false} PartsAreClean(sentences: seq<string>)
    requires forall x, c :: x in sentences && c in x ==> c !in "；;。"
    ensures forall part :: part in PartsOf(sentences) ==> IsClean(part)
  {
    if sentences != [] {
      var n := |sentences| - 1;
      PartsAreClean(sentences[..n]);
      forall w | w in WORDS { PiecesHaveNoWord(sentences[n], 0, w); }
      PiecesAreOfText(Independent, sentences[n], 0);
      hide Contains, SplitFrom;
    }
  }

  /** The parts of the first sentence come first. */
  lemma {:induction false} PartsInOrder(first: string, rest: seq<string>)
    ensures PartsOf([first] + rest) == SplitFrom(Independent, first, 0) + PartsOf(rest)
  {
    hide SplitFrom;
    var all := [first] + rest;
    if rest == [] {
      assert all[..0] == [];
    } else {
      var n := |rest| - 1;
      PartsInOrder(first, rest[..n]);
      assert all[..|all| - 1] == [first] + rest[..n] && all[|all| - 1] == rest[n];
    }
  }

  /** Each part is stripped of spaces, commas and sentence ends, and kept if something is left. */
  lemma {:induction false} TrimmedIs(parts: seq<string>, last: string)
    ensures var core := Strip(last, IsTrimmed);
      Trimmed(parts + [last]) == Trimmed(parts) + if core == "" then [] else [core]
    ensures Trimmed([]) == [] && forall c :: IsTrimmed(c) <==> c in " ，,。；;"
  {
    hide Strip;
    if parts == [] {
      assert parts + [last] == [last] && [last][1..] == [];
    } else {
      assert (parts + [last])[1..] == parts[1..] + [last];
      TrimmedIs(parts[1..], last);
    }
  }

  lemma CoreIsClean(part: string, drop: char -> bool, core: string)
    requires IsClean(part) && IsCore(part, drop, core)
    ensures IsClean(core)
  {
    var before, after :| part == before + core + after && AllOf(before, drop) && AllOf(after, drop);
    forall w | w in WORDS ensures !Contains(core, w) {
      if Contains(core, w) { PartContains(before, core, after, w); }
    }
  }

  lemma {:induction false} TrimmedAreClean(parts: seq<string>)
    requires forall part :: part in parts ==> IsClean(part)
    ensures forall x :: x in Trimmed(parts) ==>
      IsClean(x) && x != "" && !IsTrimmed(x[0]) && !IsTrimmed(x[|x| - 1])
  {
    if parts != [] {
      TrimmedAreClean(parts[1..]);
      StripIs(parts[0], IsTrimmed);
      CoreIsClean(parts[0], IsTrimmed, Strip(parts[0], IsTrimmed));
      hide IsClean, Strip, IsTrimmed;
    }
  }

  lemma CleanMeans(task: string)
    requires IsClean(task) && task != "" && !IsTrimmed(task[0]) && !IsTrimmed(task[|task| - 1])
    ensures task[0] !in " ，,。；;" && task[|task| - 1] !in " ，,。；;"
    ensures forall w :: w in ["另外", "同时", "再", "并且", "还有", "然后"] ==> !Contains(task, w)
    ensures forall c :: c in task ==> c !in "；;。"
  {
    hide Contains;
    assert forall w :: w in ["另外", "同时", "再", "并且", "还有", "然后"] ==> w in WORDS;
  }

  lemma UnconditionalParts(content: string, maxTasks: int, i: nat)
    requires var segments := Segments(content, maxTasks);
      |segments| >= 2 && segments[1].dependsOnPosition.None? && i < |segments|
    ensures Segments(content, maxTasks)[i].content
      in Trimmed(PartsOf(SplitFrom(Sentence, Strip(content, IsSpace), 0)))
  {
    hide Conditionally, Trimmed, PartsOf, SplitFrom, Strip, Contains, IsSpace;
  }

  /**
   * A message without a condition that is split is split for good: no task has a coordinating word or a sentence
   * end left, nor a space, comma or sentence end at either side, and none is empty.
   */
  lemma TasksAreClean(content: string, maxTasks: int, i: nat)
    requires var segments := Segments(content, maxTasks);
      |segments| >= 2 && segments[1].dependsOnPosition.None? && i < |segments|
    ensures var task := Segments(content, maxTasks)[i].content;
      && task != "" && task[0] !in " ，,。；;" && task[|task| - 1] !in " ，,。；;"
      && (forall w :: w in ["另外", "同时", "再", "并且", "还有", "然后"] ==> !Contains(task, w))
      && (forall c :: c in task ==> c !in "；;。")
  {
    var text := Strip(content, IsSpace);
    var sentences := SplitFrom(Sentence, text, 0);
    UnconditionalParts(content, maxTasks, i);
    hide *;
    SentencesHaveNoEnd(text, 0);
    PartsAreClean(sentences);
    TrimmedAreClean(PartsOf(sentences));
    CleanMeans(Segments(content, maxTasks)[i].content);
  }

  // ---- the conditional sentence ----

  predicate OnOneLine(s: string, i: nat, j: nat)
    requires j <= |s|
  {
    forall k :: i <= k < j ==> s[k] != '\n'
  }

  /**
   * The sentence reads: head, comma, spaces, the word for "if", condition, the word for "then", tail. The head
   * ends at `head`, the condition is from `start` to `end`, and none of the three is empty.
   */
  predicate ReadsAt(s: string, head: nat, start: nat, end: nat) {
    && 1 <= head && head + 3 <= start < end && end + 1 < |s|
    && (s[head] == '，' || s[head] == ',') && SpacesOnly(s, head + 1, start - 2)
    && OccursAt(s, "如果", start - 2) && s[end] == '就'
    && OnOneLine(s, 0, head) && OnOneLine(s, start, |s|)
  }

  ghost predicate Reads(s: string, head: nat, end: nat) {
    exists start: nat :: ReadsAt(s, head, start, end)
  }

  lemma OneLineIs(s: string, i: nat, j: nat)
    requires i <= j <= |s|
    ensures OneLine(s[i..j]) <==> OnOneLine(s, i, j)
  {
    if !OneLine(s[i..j]) {
      var k :| 0 <= k < j - i && s[i..j][k] == '\n';
      assert s[i + k] == '\n';
    }
    if k :| i <= k < j && s[k] == '\n' {
      assert s[i..j][k - i] == '\n';
    }
  }

  lemma ConditionStartIs(s: string, head: nat)
    requires head < |s|
    ensures forall p: nat | head < p && p + 2 <= |s| && SpacesOnly(s, head + 1, p) ::
      OccursAt(s, "如果", p) && IsComma(s[head]) ==> ConditionStart(s, head) == p + 2
    ensures var start := ConditionStart(s, head);
      start != 0 ==>
        && IsComma(s[head]) && head + 3 <= start
        && SpacesOnly(s, head + 1, start - 2) && OccursAt(s, "如果", start - 2)
  {
    var p := head + 1 + Spaces(s, head + 1);
    FirstChar(s, p, "如果");
    SpacesAre(s, head + 1);
    forall q: nat | head < q && q + 2 <= |s| && SpacesOnly(s, head + 1, q) && OccursAt(s, "如果", q) ensures q == p {
      FirstChar(s, q, "如果");
      SpacesExactly(s, head + 1, q);
    }
    hide Spaces, IsSpace, OccursAt, StartsAt, SpacesOnly;
  }

  lemma SplitsIff(s: string, head: nat, end: nat)
    ensures SplitsAt(s, head, end) <==> Reads(s, head, end)
    ensures forall start: nat :: ReadsAt(s, head, start, end) ==> start == ConditionStart(s, head)
  {
    if head < |s| {
      ConditionStartIs(s, head);
      hide OccursAt, SpacesOnly;
      var start := ConditionStart(s, head);
      OneLineIs(s, 0, head);
      assert s[0..head] == s[..head];
      OneLineIs(s, start, |s|);
      assert s[start..|s|] == s[start..];
      hide OneLine, OnOneLine, ConditionStart;
      assert SplitsAt(s, head, end) ==> ReadsAt(s, head, start, end);
    }
  }

  /** The earlier head comes first, and of two conditions after the same head the shorter one. */
  predicate NotAfter(head: nat, end: nat, head': nat, end': nat) {
    head < head' || (head == head' && end <= end')
  }

  /** `r` is the reading at `h` and `e`, the first one from `head` and `end` on, or there is none. */
  ghost predicate IsFirst(s: string, head: nat, end: nat, r: Option<Conditional>, h: nat, e: nat) {
    && (r.Some? ==>
          && SplitsAt(s, h, e)
          && r.value == Conditional(s[..h], s[ConditionStart(s, h)..e], s[e + 1..])
          && forall h': nat, e': nat :: SplitsAt(s, h', e') && NotAfter(head, end, h', e') ==> NotAfter(h, e, h', e'))
    && (r.None? ==> forall h': nat, e': nat :: SplitsAt(s, h', e') ==> !NotAfter(head, end, h', e'))
  }

  lemma FirstSkips(
      s: string, head: nat, end: nat, head': nat, end': nat, r: Option<Conditional>, h: nat, e: nat)
    requires IsFirst(s, head', end', r, h, e)
    requires forall x: nat, y: nat :: SplitsAt(s, x, y) && NotAfter(head, end, x, y) ==> NotAfter(head', end', x, y)
    ensures IsFirst(s, head, end, r, h, e)
  {
    hide SplitsAt, ConditionStart, NotAfter;
  }

  /** No sentence splits at its end. */
  lemma SplitsInside(s: string, head: nat, end: nat, head': nat, end': nat)
    requires head <= |s| && end <= |s| && (head == |s| || !SplitsAt(s, head, end))
    requires head' == (if end == |s| then head + 1 else head) && end' == if end == |s| then 0 else end + 1
    ensures forall x: nat, y: nat :: SplitsAt(s, x, y) && NotAfter(head, end, x, y) ==> NotAfter(head', end', x, y)
    ensures head == |s| ==> forall x: nat, y: nat :: SplitsAt(s, x, y) ==> !NotAfter(head, end, x, y)
  {
    forall x: nat, y: nat | SplitsAt(s, x, y) ensures x < y < |s| - 1 {}
    hide SplitsAt;
  }

  /** The search finds the first reading from a position on. */
  lemma {:induction false} FindsFirst(s: string, head: nat, end: nat) returns (h: nat, e: nat)
    requires head <= |s| && end <= |s|
    ensures IsFirst(s, head, end, FindConditional(s, head, end), h, e)
    decreases |s| - head, |s| - end
  {
    h, e := head, end;
    if head == |s| || !SplitsAt(s, head, end) {
      SplitsInside(s, head, end, if end == |s| then head + 1 else head, if end == |s| then 0 else end + 1);
      assert end == |s| ==> !SplitsAt(s, head, end);
    }
    hide SplitsAt, ConditionStart, NotAfter;
    if head < |s| {
      if end == |s| {
        h, e := FindsFirst(s, head + 1, 0);
        FirstSkips(s, head, end, head + 1, 0, FindConditional(s, head + 1, 0), h, e);
      } else if !SplitsAt(s, head, end) {
        h, e := FindsFirst(s, head, end + 1);
        FirstSkips(s, head, end, head, end + 1, FindConditional(s, head, end + 1), h, e);
      }
    }
  }

  /**
   * A message is read as a conditional sentence exactly if it can be; of several readings the one with the
   * shortest head counts, and of these the one with the shortest condition.
   */
  lemma ConditionalIff(s: string) returns (head: nat, start: nat, end: nat)
    ensures var r := FindConditional(s, 0, 0);
      && (r.None? <==> forall h: nat, b: nat, e: nat :: !ReadsAt(s, h, b, e))
      && (r.Some? ==>
            && ReadsAt(s, head, start, end)
            && r.value == Conditional(s[..head], s[start..end], s[end + 1..])
            && forall h: nat, b: nat, e: nat :: ReadsAt(s, h, b, e) ==> NotAfter(head, end, h, e))
  {
    head, end := FindsFirst(s, 0, 0);
    start := if head < |s| then ConditionStart(s, head) else 0;
    forall h: nat, e: nat ensures SplitsAt(s, h, e) <==> Reads(s, h, e) { SplitsIff(s, h, e); }
    SplitsIff(s, head, end);
    hide SplitsAt, ReadsAt, FindConditional, ConditionStart;
    forall h: nat, b: nat, e: nat | ReadsAt(s, h, b, e) ensures SplitsAt(s, h, e) {
      assert Reads(s, h, e);
    }
  }

  lemma FirstReading(s: string, head: nat, start: nat, end: nat)
    requires ReadsAt(s, head, start, end)
    requires forall h: nat, b: nat, e: nat :: ReadsAt(s, h, b, e) ==> NotAfter(head, end, h, e)
    ensures FindConditional(s, 0, 0) == Some(Conditional(s[..head], s[start..end], s[end + 1..]))
  {
    var h, b, e := ConditionalIff(s);
    SplitsIff(s, head, end);
    SplitsIff(s, h, e);
    hide SplitsAt, FindConditional, Reads;
    assert NotAfter(head, end, h, e) && NotAfter(h, e, head, end);
  }

  lemma BlankIff(s: string)
    ensures Strip(s, IsSpace) == "" ==> AllOf(s, IsSpace)
  {
    StripIs(s, IsSpace);
    hide Strip, IsSpace;
  }

  /**
   * With a reading whose head and tail are not blank, and room for two tasks, the plan is the head and then the
   * tail, under the condition, each without the spaces around it.
   */
  lemma ConditionalSegments(content: string, maxTasks: int, head: nat, start: nat, end: nat)
    requires maxTasks >= 2
    requires var s := Strip(content, IsSpace);
      && ReadsAt(s, head, start, end)
      && (forall h: nat, b: nat, e: nat :: ReadsAt(s, h, b, e) ==> NotAfter(head, end, h, e))
      && !AllOf(s[..head], IsSpace) && !AllOf(s[end + 1..], IsSpace)
    ensures var s, segments := Strip(content, IsSpace), Segments(content, maxTasks);
      && |segments| == 2
      && segments[0].dependsOnPosition.None? && segments[0].condition.None?
      && segments[1].dependsOnPosition == Some(0) && segments[1].condition.Some?
      && IsCore(s[..head], IsSpace, segments[0].content)
      && IsCore(s[start..end], IsSpace, segments[1].condition.value)
      && IsCore(s[end + 1..], IsSpace, segments[1].content)
  {
    var s := Strip(content, IsSpace);
    FirstReading(s, head, start, end);
    StripIs(s[..head], IsSpace);
    StripIs(s[start..end], IsSpace);
    StripIs(s[end + 1..], IsSpace);
    BlankIff(s[..head]);
    BlankIff(s[end + 1..]);
    hide Strip, ReadsAt, FindConditional, IsCore, AllOf, IsSpace, Trimmed, PartsOf, SplitFrom;
    assert Conditionally(s)
      == Some(Conditional(Strip(s[..head], IsSpace), Strip(s[start..end], IsSpace), Strip(s[end + 1..], IsSpace)));
  }
}
