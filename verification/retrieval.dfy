/** Character recall: eligibility, scoring and ranking of knowledge documents. */
module Retrieval {
  import opened Text
  import opened Domain
  import opened Knowledge

  datatype Scope = Scope(tenantId: string, department: Option<string>, channel: Option<string>, at: int)

  predicate Named(allowed: seq<string>, name: Option<string>) {
    name.Some? && name.value in allowed
  }

  predicate IsEligible(d: Document, scope: Scope) {
    && (d.tenantId == "global" || d.tenantId == scope.tenantId)
    && (d.departments != [] ==> Named(d.departments, scope.department))
    && (d.channels != [] ==> Named(d.channels, scope.channel))
    && (d.validFrom.Some? ==> d.validFrom.value <= scope.at)
    && (d.validUntil.Some? ==> scope.at < d.validUntil.value)
    && d.trustLevel != Untrusted
  }

  function EligibleOf(docs: seq<Document>, scope: Scope): seq<Document> {
    if docs == [] then []
    else (if IsEligible(docs[0], scope) then [docs[0]] else []) + EligibleOf(docs[1..], scope)
  }

  lemma {:induction false} EligibleMember(docs: seq<Document>, scope: Scope, d: Document)
    ensures d in EligibleOf(docs, scope) <==> d in docs && IsEligible(d, scope)
  {
    if docs != [] {
      EligibleMember(docs[1..], scope, d);
    }
  }

  /** The documents a search may return, in repository order. */
  function Eligible(docs: seq<Document>, domain: Option<string>, scope: Scope): seq<Document> {
    EligibleOf(Listed(docs, domain), scope)
  }

  /**
   * They are the stored ones of the domain asked for, if any, and of the tenant or of all tenants, open to the
   * department and the channel of the caller, in force at the time, and not quarantined.
   */
  lemma EligibleIff(docs: seq<Document>, domain: Option<string>, scope: Scope, d: Document)
    ensures d in Eligible(docs, domain, scope) <==>
      && d in docs
      && (domain == None || domain == Some("") || domain == Some(d.domain))
      && d.tenantId in ["global", scope.tenantId]
      && (d.departments == [] || exists x :: x in d.departments && scope.department == Some(x))
      && (d.channels == [] || exists x :: x in d.channels && scope.channel == Some(x))
      && (d.validFrom == None || d.validFrom.value <= scope.at)
      && (d.validUntil == None || scope.at < d.validUntil.value)
      && (d.trustLevel == Verified || d.trustLevel == Internal)
  {
    EligibleMember(Listed(docs, domain), scope, d);
    ListedMember(docs, domain, d);
  }

  // ---- terms and scores ----

  predicate IsLatin(c: char) { 'a' <= c <= 'z' || '0' <= c <= '9' }

  /** Length of the run of Latin letters and digits at the start. */
  function RunLength(s: string): (n: nat)
    ensures n <= |s|
    ensures forall i :: 0 <= i < n ==> IsLatin(s[i])
    ensures n < |s| ==> !IsLatin(s[n])
  {
    if s != "" && IsLatin(s[0]) then 1 + RunLength(s[1..]) else 0
  }

  /** The maximal runs of Latin letters and digits. */
  function LatinTerms(s: string): set<string>
    decreases |s|
  {
    if s == "" then {}
    else if IsLatin(s[0]) then {s[..RunLength(s)]} + LatinTerms(s[RunLength(s)..])
    else LatinTerms(s[1..])
  }

  function Bigram(s: string, i: nat): string
    requires i + 2 <= |s|
  {
    s[i..i + 2]
  }

  function Bigrams(s: string): set<string> {
    set i | 0 <= i < |s| - 1 :: Bigram(s, i)
  }

  function Terms(text: string, lower: char -> char): set<string> {
    var lowered := MapChars(text, lower);
    LatinTerms(lowered) + Bigrams(lowered)
  }

  /** `t` stands at `i` as a whole word of small Latin letters and digits. */
  predicate IsWordAt(s: string, t: string, i: nat) {
    && t != "" && OccursAt(s, t, i)
    && (forall c :: c in t ==> 'a' <= c <= 'z' || '0' <= c <= '9')
    && (i == 0 || !('a' <= s[i - 1] <= 'z' || '0' <= s[i - 1] <= '9'))
    && (i + |t| == |s| || !('a' <= s[i + |t|] <= 'z' || '0' <= s[i + |t|] <= '9'))
  }

  lemma WordInRest(s: string, t: string, n: nat, i: nat)
    requires n <= |s| && (i > 0 || n == 0 || !IsLatin(s[n - 1]))
    ensures IsWordAt(s[n..], t, i) <==> IsWordAt(s, t, n + i)
  {
    if i + |t| <= |s| - n {
      assert s[n..][i..i + |t|] == s[n + i..n + i + |t|];
    }
  }

  /** A word that starts within the first run of Latin letters and digits is that run. */
  lemma WordInRun(s: string, t: string, i: nat)
    requires i < RunLength(s)
    ensures IsWordAt(s, t, i) <==> i == 0 && t == s[..RunLength(s)]
  {
    var n := RunLength(s);
    assert i > 0 ==> IsLatin(s[i - 1]);
    if i == 0 && IsWordAt(s, t, 0) {
      assert forall k :: 0 <= k < |t| ==> s[k] == t[k] && t[k] in t;
      assert |t| == n;
    }
  }

  lemma FirstIsLatin(s: string, t: string, i: nat)
    requires IsWordAt(s, t, i)
    ensures i < |s| && IsLatin(s[i])
  {
    assert t[0] in t && s[i] == t[0];
  }

  lemma {:induction false} LatinTermIff(s: string, t: string)
    ensures t in LatinTerms(s) <==> exists i :: 0 <= i <= |s| && IsWordAt(s, t, i)
    decreases |s|
  {
    if s != "" {
      var n := if IsLatin(s[0]) then RunLength(s) else 1;
      var rest := s[n..];
      LatinTermIff(rest, t);
      forall i: nat ensures IsWordAt(rest, t, i) <==> IsWordAt(s, t, n + i) {
        if i == 0 && IsLatin(s[0]) {
          NoWordHere(s, t, n);
        } else {
          WordInRest(s, t, n, i);
        }
      }
      forall i: nat | i < n
        ensures IsWordAt(s, t, i) <==> IsLatin(s[0]) && i == 0 && t == s[..n]
      {
        if IsLatin(s[0]) { WordInRun(s, t, i); } else if IsWordAt(s, t, i) { FirstIsLatin(s, t, i); }
      }
      hide IsWordAt;
      if i :| 0 <= i <= |s| && IsWordAt(s, t, i) {
        if i >= n { assert IsWordAt(rest, t, i - n); }
      }
      assert IsLatin(s[0]) && t == s[..n] ==> IsWordAt(s, t, 0);
      if i :| 0 <= i <= |rest| && IsWordAt(rest, t, i) { assert IsWordAt(s, t, n + i); }
    }
  }

  /** No word starts where the first run ends. */
  lemma NoWordHere(s: string, t: string, n: nat)
    requires n == RunLength(s) > 0
    ensures !IsWordAt(s[n..], t, 0) && !IsWordAt(s, t, n)
  {
    if t != "" {
      assert t[0] in t;
    }
  }

  /**
   * The terms of a text are the pairs of neighbouring characters of the text in lower case, and its whole
   * words of Latin letters and digits.
   */
  lemma TermIff(text: string, lower: char -> char, t: string)
    ensures t in Terms(text, lower) <==>
      var lowered := MapChars(text, lower);
      exists i :: 0 <= i <= |text| && ((|t| == 2 && OccursAt(lowered, t, i)) || IsWordAt(lowered, t, i))
  {
    var lowered := MapChars(text, lower);
    LatinTermIff(lowered, t);
    PairIff(lowered, t);
    hide IsWordAt, LatinTerms, OccursAt, Bigrams;
  }

  lemma PairIff(s: string, t: string)
    ensures t in Bigrams(s) <==> exists i :: 0 <= i <= |s| && |t| == 2 && OccursAt(s, t, i)
  {
    if i :| 0 <= i <= |s| && |t| == 2 && OccursAt(s, t, i) {
      assert Bigram(s, i) == t;
    }
    if t in Bigrams(s) {
      var i :| 0 <= i < |s| - 1 && t == Bigram(s, i);
      assert OccursAt(s, t, i);
    }
  }

  function KeywordHits(query: string, keywords: seq<string>, lower: char -> char): nat {
    if keywords == [] then 0
    else
      var first := if Contains(MapChars(query, lower), MapChars(keywords[0], lower)) then 1 else 0;
      first + KeywordHits(query, keywords[1..], lower)
  }

  function Overlap(query: set<string>, other: set<string>): (r: real)
    requires query != {}
    ensures 0.0 <= r <= 1.0
  {
    OverlapBounds(query, other);
    |query * other| as real / |query| as real
  }

  lemma OverlapBounds(query: set<string>, other: set<string>)
    requires query != {}
    ensures 0.0 <= |query * other| as real / |query| as real <= 1.0
  {
    assert query == (query * other) + (query - other);
    RatioBounds(|query * other|, |query|);
  }

  lemma RatioBounds(a: nat, b: nat)
    requires a <= b && b > 0
    ensures 0.0 <= a as real / b as real <= 1.0
  {
    var x, y := a as real, b as real;
    var q := x / y;
    assert q * y == x;
    if q < 0.0 { NegativeScale(q, y); }
    if q > 1.0 { NegativeScale(1.0 - q, y); }
  }

  lemma NegativeScale(q: real, y: real)
    requires q < 0.0 && y > 0.0
    ensures q * y < 0.0
  {
  }

  function Score(query: string, d: Document, lower: char -> char): (score: real)
    ensures 0.0 <= score <= 1.0
  {
    var terms := Terms(query, lower);
    if terms == {} then 0.0
    else
      var keywordText := MapChars(Join(" ", d.keywords), lower);
      var hits := KeywordHits(query, d.keywords, lower);
      var total := Overlap(terms, Terms(d.title, lower)) * 0.35
        + Overlap(terms, Terms(d.content, lower)) * 0.25
        + hits as real * 0.18
        + (if hits > 0 then 0.25 else 0.0)
        + (if exists t :: t in terms && Contains(keywordText, t) then 0.15 else 0.0);
      if total < 1.0 then total else 1.0
  }

  /** What the keywords add to a score. */
  function KeywordBonus(query: string, keywords: seq<string>, lower: char -> char): (bonus: real)
    ensures bonus >= 0.0
  {
    var hits := KeywordHits(query, keywords, lower);
    var text := MapChars(Join(" ", keywords), lower);
    hits as real * 0.18 + (if hits > 0 then 0.25 else 0.0)
    + (if exists t :: t in Terms(query, lower) && Contains(text, t) then 0.15 else 0.0)
  }

  lemma ScoreOf(query: string, d: Document, lower: char -> char)
    requires Terms(query, lower) != {}
    ensures var total := Overlap(Terms(query, lower), Terms(d.title, lower)) * 0.35
        + Overlap(Terms(query, lower), Terms(d.content, lower)) * 0.25 + KeywordBonus(query, d.keywords, lower);
      Score(query, d, lower) == if total < 1.0 then total else 1.0
  {
    hide Terms, Overlap, KeywordHits, Contains;
  }

  /**
   * A match in the title weighs more than the same match in the content: exchanging the two lowers the score
   * exactly if the title overlaps the query more and the cap at 1 does not hide the difference.
   */
  lemma TitleWeighsMore(query: string, d: Document, lower: char -> char)
    requires Terms(query, lower) != {}
    ensures var terms, swapped := Terms(query, lower), d.(title := d.content, content := d.title);
      Score(query, d, lower) > Score(query, swapped, lower) <==>
        && Overlap(terms, Terms(d.title, lower)) > Overlap(terms, Terms(d.content, lower))
        && Score(query, swapped, lower) < 1.0
  {
    ScoreOf(query, d, lower);
    ScoreOf(query, d.(title := d.content, content := d.title), lower);
    hide Score, Terms, Overlap, KeywordBonus;
  }

  /** The keywords the query mentions, whatever the case. */
  function Mentioned(query: string, keywords: seq<string>, lower: char -> char): set<nat> {
    set k: nat | k < |keywords| && Contains(MapChars(query, lower), MapChars(keywords[k], lower))
  }

  lemma {:induction false} HitsAreMentions(query: string, keywords: seq<string>, n: nat, lower: char -> char)
    requires n <= |keywords|
    ensures KeywordHits(query, keywords[n..], lower) ==
      |set k: nat | n <= k < |keywords| && Contains(MapChars(query, lower), MapChars(keywords[k], lower))|
    decreases |keywords| - n
  {
    if n < |keywords| {
      HitsAreMentions(query, keywords, n + 1, lower);
      hide Contains;
      var here := Contains(MapChars(query, lower), MapChars(keywords[n], lower));
      var later := set k: nat |
        n + 1 <= k < |keywords| && Contains(MapChars(query, lower), MapChars(keywords[k], lower));
      var all := set k: nat | n <= k < |keywords| && Contains(MapChars(query, lower), MapChars(keywords[k], lower));
      assert all == if here then {n} + later else later;
      assert keywords[n..][1..] == keywords[n + 1..];
    }
  }

  /**
   * The score: the share of the query's terms that the title has, weighted 0.35, the share the content has,
   * weighted 0.25, 0.18 for each keyword the query mentions and 0.25 if it mentions any, and 0.15 if some
   * term of the query is in the keywords; 1 at most, and 0 without terms.
   */
  lemma ScoreIs(query: string, d: Document, lower: char -> char)
    ensures var terms := Terms(query, lower);
      var mentioned := Mentioned(query, d.keywords, lower);
      Score(query, d, lower) ==
        if terms == {} then 0.0
        else
          var inTitle := |terms * Terms(d.title, lower)| as real / |terms| as real;
          var inContent := |terms * Terms(d.content, lower)| as real / |terms| as real;
          var inKeywords := exists t :: t in terms && Contains(MapChars(Join(" ", d.keywords), lower), t);
          var total := inTitle * 0.35 + inContent * 0.25 + |mentioned| as real * 0.18
            + (if mentioned != {} then 0.25 else 0.0) + (if inKeywords then 0.15 else 0.0);
          if total < 1.0 then total else 1.0
  {
    HitsAreMentions(query, d.keywords, 0, lower);
    assert d.keywords[0..] == d.keywords;
    assert Mentioned(query, d.keywords, lower) == set k: nat |
      0 <= k < |d.keywords| && Contains(MapChars(query, lower), MapChars(d.keywords[k], lower));
    if Terms(query, lower) != {} {
      OverlapIs(Terms(query, lower), Terms(d.title, lower));
      OverlapIs(Terms(query, lower), Terms(d.content, lower));
    }
    hide Terms, KeywordHits, Contains, Overlap, Mentioned, Join;
  }

  lemma OverlapIs(terms: set<string>, other: set<string>)
    requires terms != {}
    ensures Overlap(terms, other) == |terms * other| as real / |terms| as real
  {
  }

  // ---- text that contains the query ----

  /** The query occurs in the text, and does not begin or end inside a word of Latin letters and digits. */
  predicate StandsAt(text: string, query: string, i: nat) {
    && query != "" && OccursAt(text, query, i)
    && (i == 0 || !IsLatin(text[i - 1]) || !IsLatin(query[0]))
    && (i + |query| == |text| || !IsLatin(text[i + |query|]) || !IsLatin(query[|query| - 1]))
  }

  /** `StandsAt` somewhere, whatever the case. */
  ghost predicate StandsIn(text: string, query: string, lower: char -> char) {
    exists i :: 0 <= i <= |text| && StandsAt(MapChars(text, lower), MapChars(query, lower), i)
  }

  lemma WordWithin(text: string, query: string, t: string, i: nat, j: nat)
    requires StandsAt(text, query, i) && IsWordAt(query, t, j)
    ensures IsWordAt(text, t, i + j)
  {
    OccursWithin(text, query, t, i, j);
    if j > 0 { CharWithin(text, query, i, j - 1); }
    if j + |t| < |query| { CharWithin(text, query, i, j + |t|); }
    CharWithin(query, t, j, 0);
    CharWithin(query, t, j, |t| - 1);
    assert t[0] in t && t[|t| - 1] in t;
  }

  lemma StandsThere(text: string, query: string, i: nat)
    requires StandsAt(text, query, i)
    ensures OccursAt(text, query, i)
  {
  }

  lemma InRangeAt(text: string, t: string, i: nat)
    requires OccursAt(text, t, i) || IsWordAt(text, t, i)
    ensures i <= |text|
  {
  }

  lemma TermWithin(text: string, query: string, lower: char -> char, t: string)
    requires StandsIn(text, query, lower) && t in Terms(query, lower)
    ensures t in Terms(text, lower)
  {
    TermIff(query, lower, t);
    TermIff(text, lower, t);
    hide Terms, StandsAt, IsWordAt, OccursAt;
    var x, q := MapChars(text, lower), MapChars(query, lower);
    var i :| 0 <= i <= |text| && StandsAt(x, q, i);
    var j :| 0 <= j <= |query| && ((|t| == 2 && OccursAt(q, t, j)) || IsWordAt(q, t, j));
    if IsWordAt(q, t, j) {
      WordWithin(x, q, t, i, j);
    } else {
      StandsThere(x, q, i);
      OccursWithin(x, q, t, i, j);
    }
    InRangeAt(x, t, i + j);
  }

  /** A text that contains the query has all of its terms. */
  lemma TermsWithin(text: string, query: string, lower: char -> char)
    requires StandsIn(text, query, lower)
    ensures Terms(query, lower) <= Terms(text, lower)
  {
    hide *;
    forall t | t in Terms(query, lower) ensures t in Terms(text, lower) {
      TermWithin(text, query, lower, t);
    }
  }

  lemma FullOverlap(terms: set<string>, other: set<string>)
    requires terms != {} && terms <= other
    ensures Overlap(terms, other) == 1.0
  {
    assert terms * other == terms;
  }

  /** A title that contains the query is worth 0.35, content that does 0.25. */
  lemma MatchScores(query: string, d: Document, lower: char -> char)
    requires Terms(query, lower) != {}
    ensures StandsIn(d.title, query, lower) ==> Score(query, d, lower) >= 0.35
    ensures StandsIn(d.content, query, lower) ==> Score(query, d, lower) >= 0.25
    ensures StandsIn(d.title, query, lower) && StandsIn(d.content, query, lower) ==> Score(query, d, lower) >= 0.60
  {
    ScoreOf(query, d, lower);
    hide Score, Terms, KeywordBonus, StandsIn;
    if StandsIn(d.title, query, lower) {
      TermsWithin(d.title, query, lower);
      FullOverlap(Terms(query, lower), Terms(d.title, lower));
    }
    if StandsIn(d.content, query, lower) {
      TermsWithin(d.content, query, lower);
      FullOverlap(Terms(query, lower), Terms(d.content, lower));
    }
    hide Overlap;
  }

  // ---- ranking ----

  const MIN_SCORE := 0.12

  /** Position `a` ranks before position `b`: a higher score, or an equal score and listed earlier. */
  predicate Beats(scores: seq<real>, a: nat, b: nat)
    requires a < |scores| && b < |scores|
  {
    scores[a] > scores[b] || (scores[a] == scores[b] && a < b)
  }

  predicate InRange(scores: seq<real>, r: seq<nat>) {
    forall k :: 0 <= k < |r| ==> r[k] < |scores|
  }

  ghost predicate Descending(scores: seq<real>, r: seq<nat>) {
    InRange(scores, r) && forall a, b :: 0 <= a < b < |r| ==> Beats(scores, r[a], r[b])
  }

  /** `r` is the stable descending order of all positions. */
  ghost predicate IsRanking(scores: seq<real>, r: seq<nat>) {
    Descending(scores, r) && forall i: nat :: i in r <==> i < |scores|
  }

  function InsertLast(scores: seq<real>, i: nat, sorted: seq<nat>): (r: seq<nat>)
    requires i < |scores| && InRange(scores, sorted)
    ensures InRange(scores, r)
  {
    if sorted == [] then [i]
    else if scores[sorted[0]] < scores[i] then [i] + sorted
    else [sorted[0]] + InsertLast(scores, i, sorted[1..])
  }

  /** The first `n` positions in ranking order, by stable insertion. */
  function RankFirst(scores: seq<real>, n: nat): (r: seq<nat>)
    requires n <= |scores|
    ensures InRange(scores, r)
  {
    if n == 0 then [] else InsertLast(scores, n - 1, RankFirst(scores, n - 1))
  }

  lemma HeadBeats(scores: seq<real>, sorted: seq<nat>, x: nat)
    requires Descending(scores, sorted) && sorted != [] && x in sorted[1..]
    ensures x < |scores| && sorted[0] < |scores| && Beats(scores, sorted[0], x)
  {
    var j :| 0 <= j < |sorted| - 1 && sorted[1..][j] == x;
    assert sorted[j + 1] == x;
  }

  lemma HeadFirst(scores: seq<real>, first: nat, rest: seq<nat>)
    requires Descending(scores, rest) && first < |scores|
    requires forall x :: x in rest ==> x < |scores| && Beats(scores, first, x)
    ensures Descending(scores, [first] + rest)
  {
    var all := [first] + rest;
    forall a, b | 0 <= a < b < |all| ensures all[a] < |scores| && all[b] < |scores| && Beats(scores, all[a], all[b]) {
      assert all[b] == rest[b - 1] && rest[b - 1] in rest;
    }
  }

  lemma {:induction false} InsertLastSorts(scores: seq<real>, i: nat, sorted: seq<nat>)
    requires i < |scores| && Descending(scores, sorted)
    requires forall k :: 0 <= k < |sorted| ==> sorted[k] < i
    ensures Descending(scores, InsertLast(scores, i, sorted))
    ensures forall x: nat :: x in InsertLast(scores, i, sorted) <==> x in sorted || x == i
    ensures |InsertLast(scores, i, sorted)| == |sorted| + 1
  {
    if sorted != [] && scores[sorted[0]] >= scores[i] {
      InsertLastSorts(scores, i, sorted[1..]);
      var rest := InsertLast(scores, i, sorted[1..]);
      forall x | x in rest ensures Beats(scores, sorted[0], x) {
        if x != i { HeadBeats(scores, sorted, x); }
      }
      hide InsertLast;
      HeadFirst(scores, sorted[0], rest);
    }
  }

  lemma {:induction false} RankFirstSorts(scores: seq<real>, n: nat)
    requires n <= |scores|
    ensures Descending(scores, RankFirst(scores, n))
    ensures forall x: nat :: x in RankFirst(scores, n) <==> x < n
    ensures |RankFirst(scores, n)| == n
  {
    if n > 0 {
      RankFirstSorts(scores, n - 1);
      var earlier := RankFirst(scores, n - 1);
      assert forall k :: 0 <= k < n - 1 ==> earlier[k] in earlier;
      InsertLastSorts(scores, n - 1, earlier);
    }
  }

  function Rank(scores: seq<real>): (r: seq<nat>)
    ensures InRange(scores, r)
  {
    RankFirst(scores, |scores|)
  }

  /** There is only one stable descending order. */
  lemma {:induction false} DescendingUnique(scores: seq<real>, r: seq<nat>, q: seq<nat>)
    requires Descending(scores, r) && Descending(scores, q)
    requires forall i: nat :: i in r <==> i in q
    ensures r == q
  {
    if r != [] {
      assert r[0] in q && q[0] in r;
      assert r[0] == q[0];
      forall i: nat ensures i in r[1..] <==> i in q[1..] {
        assert i in r <==> i == r[0] || i in r[1..];
        assert i in q <==> i == q[0] || i in q[1..];
      }
      DescendingUnique(scores, r[1..], q[1..]);
    } else if q != [] {
      HasMember(q);
    }
  }

  lemma HasMember(q: seq<nat>)
    requires q != []
    ensures exists i: nat :: i in q
  {
    assert q[0] in q;
  }

  function Scores(query: string, docs: seq<Document>, lower: char -> char): (r: seq<real>)
    ensures |r| == |docs|
    ensures forall i :: 0 <= i < |r| ==> r[i] == Score(query, docs[i], lower)
  {
    seq(|docs|, i requires 0 <= i < |docs| => Score(query, docs[i], lower))
  }

  /** The positions of a list whose score reaches the threshold, in list order. */
  function Qualifying(scores: seq<real>, r: seq<nat>): (q: seq<nat>)
    requires InRange(scores, r)
    ensures InRange(scores, q) && |q| <= |r|
    ensures forall i :: i in q <==> i in r && scores[i] >= MIN_SCORE
  {
    if r == [] then []
    else (if scores[r[0]] >= MIN_SCORE then [r[0]] else []) + Qualifying(scores, r[1..])
  }

  /** The positions returned by a search: rank, cut, then drop low scores. */
  function Selected(scores: seq<real>, limit: int): (r: seq<nat>)
    ensures InRange(scores, r)
  {
    Qualifying(scores, Prefix(Rank(scores), limit))
  }

  datatype Hit = Hit(
    documentId: string, title: string, excerpt: string, score: real, source: string, version: string,
    trustLevel: TrustLevel, evidenceOnly: bool)

  function ToHit(d: Document, score: real): Hit {
    Hit(d.id, d.title, if |d.content| <= 180 then d.content else d.content[..177] + "...", score, d.source, d.version,
        d.trustLevel, d.evidenceOnly)
  }

  function Search(
      query: string, docs: seq<Document>, domain: Option<string>, limit: int, scope: Scope, lower: char -> char)
    : seq<Hit>
  {
    var eligible := Eligible(docs, domain, scope);
    var scores := Scores(query, eligible, lower);
    var selected := Selected(scores, limit);
    seq(|selected|, k requires 0 <= k < |selected| => ToHit(eligible[selected[k]], scores[selected[k]]))
  }

  // ---- what a search returns ----

  /** How many positions at the front of the list qualify. */
  function Leading(scores: seq<real>, r: seq<nat>): (n: nat)
    requires InRange(scores, r)
    ensures n <= |r|
    ensures forall k :: 0 <= k < n ==> scores[r[k]] >= MIN_SCORE
    ensures n < |r| ==> scores[r[n]] < MIN_SCORE
  {
    if r != [] && scores[r[0]] >= MIN_SCORE then 1 + Leading(scores, r[1..]) else 0
  }

  lemma TailDescends(scores: seq<real>, r: seq<nat>)
    requires Descending(scores, r) && r != []
    ensures Descending(scores, r[1..]) && InRange(scores, r[1..]) && r[0] < |scores|
    ensures |r| > 1 ==> r[1] < |scores| && scores[r[0]] >= scores[r[1]]
  {
    assert |r| > 1 ==> Beats(scores, r[0], r[1]);
  }

  lemma FirstThenRest(r: seq<nat>, n: nat)
    requires n < |r|
    ensures r[..1 + n] == [r[0]] + r[1..][..n]
  {
  }

  lemma HeadDecides(scores: seq<real>, r: seq<nat>)
    requires InRange(scores, r) && r != []
    ensures InRange(scores, r[1..])
    ensures if scores[r[0]] >= MIN_SCORE
      then Qualifying(scores, r) == [r[0]] + Qualifying(scores, r[1..])
          && Leading(scores, r) == 1 + Leading(scores, r[1..])
      else Qualifying(scores, r) == Qualifying(scores, r[1..]) && Leading(scores, r) == 0
  {
  }

  /** In a descending list the qualifying positions come first. */
  lemma {:induction false} QualifyingIsPrefix(scores: seq<real>, r: seq<nat>)
    requires Descending(scores, r)
    ensures Qualifying(scores, r) == r[..Leading(scores, r)]
  {
    if r != [] {
      TailDescends(scores, r);
      HeadDecides(scores, r);
      hide *;
      QualifyingIsPrefix(scores, r[1..]);
      if scores[r[0]] >= MIN_SCORE {
        FirstThenRest(r, Leading(scores, r[1..]));
      }
    }
  }

  lemma LeadingOfPrefix(scores: seq<real>, r: seq<nat>, n: nat)
    requires InRange(scores, r) && n <= |r|
    ensures Leading(scores, r[..n]) == if n < Leading(scores, r) then n else Leading(scores, r)
  {
    var cut, all := Leading(scores, r[..n]), Leading(scores, r);
    assert forall k :: 0 <= k < n ==> r[..n][k] == r[k];
  }

  lemma RankIsRanking(scores: seq<real>)
    ensures IsRanking(scores, Rank(scores)) && |Rank(scores)| == |scores|
  {
    RankFirstSorts(scores, |scores|);
  }

  /** The qualifying part of a front of a descending list. */
  lemma QualifyingCut(scores: seq<real>, r: seq<nat>, n: nat)
    requires Descending(scores, r) && n <= |r|
    ensures Qualifying(scores, r[..n]) == r[..if n < Leading(scores, r) then n else Leading(scores, r)]
  {
    assert Descending(scores, r[..n]);
    hide Qualifying, Leading, Descending;
    QualifyingIsPrefix(scores, r[..n]);
    LeadingOfPrefix(scores, r, n);
    var m := Leading(scores, r[..n]);
    assert r[..n][..m] == r[..m];
  }

  /** What a search returns, as a prefix of the ranking. */
  lemma SelectedIsPrefix(scores: seq<real>, limit: int)
    ensures var r := Rank(scores);
      var n := PrefixLength(|r|, limit);
      && |r| == |scores| && IsRanking(scores, r)
      && Qualifying(scores, r) == r[..Leading(scores, r)]
      && Selected(scores, limit) == r[..if n < Leading(scores, r) then n else Leading(scores, r)]
  {
    hide Rank, Qualifying, Leading, Descending, PrefixLength;
    RankIsRanking(scores);
    var r := Rank(scores);
    QualifyingIsPrefix(scores, r);
    QualifyingCut(scores, r, PrefixLength(|r|, limit));
  }

  /**
   * A search with a non-negative limit returns the stable descending top `limit` of all qualifying
   * positions: nothing left out ranks before anything returned, and something is left out only when
   * the limit is reached.
   */
  lemma SelectedIsTop(scores: seq<real>, limit: nat)
    ensures var r := Selected(scores, limit);
      && Descending(scores, r) && |r| <= limit
      && (forall i :: i in r ==> scores[i] >= MIN_SCORE)
      && (forall i: nat :: i < |scores| && scores[i] >= MIN_SCORE && i !in r ==>
            |r| == limit && forall k :: 0 <= k < |r| ==> Beats(scores, r[k], i))
  {
    SelectedIsPrefix(scores, limit);
    TopOfRanking(scores, Rank(scores), limit);
  }

  lemma TopOfRanking(scores: seq<real>, ranking: seq<nat>, limit: nat)
    requires IsRanking(scores, ranking)
    ensures var n := PrefixLength(|ranking|, limit);
      var r := ranking[..if n < Leading(scores, ranking) then n else Leading(scores, ranking)];
      && Descending(scores, r) && |r| <= limit
      && (forall i :: i in r ==> scores[i] >= MIN_SCORE)
      && (forall i: nat :: i < |scores| && scores[i] >= MIN_SCORE && i !in r ==>
            |r| == limit && forall k :: 0 <= k < |r| ==> Beats(scores, r[k], i))
  {
    var n := PrefixLength(|ranking|, limit);
    var r := ranking[..if n < Leading(scores, ranking) then n else Leading(scores, ranking)];
    forall i: nat | i < |scores| && scores[i] >= MIN_SCORE && i !in r
      ensures |r| == limit && forall k :: 0 <= k < |r| ==> Beats(scores, r[k], i)
    {
      OmittedIsBeaten(scores, ranking, limit, i);
    }
  }

  lemma OmittedIsBeaten(scores: seq<real>, r: seq<nat>, limit: nat, i: nat)
    requires IsRanking(scores, r) && i < |scores| && scores[i] >= MIN_SCORE
    requires var n := PrefixLength(|r|, limit);
      i !in r[..if n < Leading(scores, r) then n else Leading(scores, r)]
    ensures limit < Leading(scores, r)
    ensures forall k :: 0 <= k < limit ==> Beats(scores, r[k], i)
  {
    var n := PrefixLength(|r|, limit);
    var cut := if n < Leading(scores, r) then n else Leading(scores, r);
    assert i in r;
    var j :| 0 <= j < |r| && r[j] == i;
    assert forall k :: 0 <= k < cut ==> r[..cut][k] == r[k];
    if j >= Leading(scores, r) { PastLeading(scores, r, j); }
  }

  lemma PastLeading(scores: seq<real>, r: seq<nat>, j: nat)
    requires Descending(scores, r) && Leading(scores, r) <= j < |r|
    ensures scores[r[j]] < MIN_SCORE
  {
    var n := Leading(scores, r);
    assert j > n ==> Beats(scores, r[n], r[j]);
  }

  /** Cutting before filtering and filtering before cutting agree exactly when the limit counts from the
      front, when everything or nothing qualifies, or when a negative limit cuts everything. */
  lemma CutCommutesIff(scores: seq<real>, limit: int)
    ensures var all := Qualifying(scores, Rank(scores));
      Selected(scores, limit) == Prefix(all, limit)
      <==> limit >= 0 || all == [] || |all| == |scores| || limit <= -|scores|
  {
    SelectedIsPrefix(scores, limit);
    PrefixesAgreeIff(Rank(scores), Leading(scores, Rank(scores)), limit);
  }

  lemma PrefixesAgreeIff(r: seq<nat>, lead: nat, limit: int)
    requires lead <= |r|
    ensures r[..if PrefixLength(|r|, limit) < lead then PrefixLength(|r|, limit) else lead] == Prefix(r[..lead], limit)
      <==> limit >= 0 || lead == 0 || lead == |r| || limit <= -|r|
  {
    assert Prefix(r[..lead], limit) == r[..PrefixLength(lead, limit)];
  }

  /** A document that is not eligible, or of another domain, influences no search wherever it is stored. */
  lemma InvisibleDocument(
      query: string, before: seq<Document>, d: Document, after: seq<Document>, domain: Option<string>,
      limit: int, scope: Scope, lower: char -> char)
    requires !IsEligible(d, scope) || (domain.Some? && domain.value != "" && d.domain != domain.value)
    ensures Search(query, before + [d] + after, domain, limit, scope, lower)
        == Search(query, before + after, domain, limit, scope, lower)
  {
    EligibleAround(before, d, after, domain, scope);
  }

  lemma OneListed(d: Document, domain: Option<string>)
    ensures Listed([d], domain) == if domain.None? || domain.value == "" || d.domain == domain.value then [d] else []
  {
    var docs := [d];
    assert docs[1..] == [];
    if domain.Some? {
      assert InDomain(docs[1..], domain.value) == [];
      assert docs == [docs[0]] + [];
    }
  }

  lemma EligibleAround(before: seq<Document>, d: Document, after: seq<Document>, domain: Option<string>, scope: Scope)
    requires !IsEligible(d, scope) || (domain.Some? && domain.value != "" && d.domain != domain.value)
    ensures Eligible(before + [d] + after, domain, scope) == Eligible(before + after, domain, scope)
  {
    var x, y, z := Listed(before, domain), Listed([d], domain), Listed(after, domain);
    ListedConcat(before + [d], after, domain);
    ListedConcat(before, [d], domain);
    ListedConcat(before, after, domain);
    EligibleConcat(x + y, z, scope);
    EligibleConcat(x, y, scope);
    EligibleConcat(x, z, scope);
    OneListed(d, domain);
    assert y == if domain.None? || domain.value == "" || d.domain == domain.value then [d] else [];
    assert EligibleOf(y, scope) == [];
  }

  lemma {:induction false} ListedConcat(a: seq<Document>, b: seq<Document>, domain: Option<string>)
    ensures Listed(a + b, domain) == Listed(a, domain) + Listed(b, domain)
  {
    if domain.Some? && domain.value != "" {
      InDomainConcat(a, b, domain.value);
    }
  }

  lemma {:induction false} InDomainConcat(a: seq<Document>, b: seq<Document>, domain: string)
    ensures InDomain(a + b, domain) == InDomain(a, domain) + InDomain(b, domain)
  {
    if a == [] {
      assert a + b == b;
    } else {
      InDomainConcat(a[1..], b, domain);
      FirstApart(a, b);
      Rebracket([a[0]], InDomain(a[1..], domain), InDomain(b, domain));
    }
  }

  lemma {:induction false} EligibleConcat(a: seq<Document>, b: seq<Document>, scope: Scope)
    ensures EligibleOf(a + b, scope) == EligibleOf(a, scope) + EligibleOf(b, scope)
  {
    if a == [] {
      assert a + b == b;
    } else {
      EligibleConcat(a[1..], b, scope);
      hide IsEligible;
      FirstApart(a, b);
      Rebracket([a[0]], EligibleOf(a[1..], scope), EligibleOf(b, scope));
    }
  }

  /**
   * An eligible document that scores enough is returned, unless the search is full of others that score at
   * least as high.
   */
  lemma ReturnedOrFull(
      query: string, docs: seq<Document>, domain: Option<string>, limit: nat, scope: Scope, lower: char -> char,
      i: nat)
    requires i < |Eligible(docs, domain, scope)| && Score(query, Eligible(docs, domain, scope)[i], lower) >= MIN_SCORE
    ensures var hits := Search(query, docs, domain, limit, scope, lower);
      var d := Eligible(docs, domain, scope)[i];
      || ToHit(d, Score(query, d, lower)) in hits
      || (|hits| == limit && forall h :: h in hits ==> h.score >= Score(query, d, lower))
  {
    var eligible := Eligible(docs, domain, scope);
    var scores := Scores(query, eligible, lower);
    var selected := Selected(scores, limit);
    var hits := Search(query, docs, domain, limit, scope, lower);
    hide Selected, Eligible, Score;
    SelectedIsTop(scores, limit);
    if i in selected {
      var j :| 0 <= j < |selected| && selected[j] == i;
      assert hits[j] == ToHit(eligible[i], scores[i]);
    } else {
      forall h | h in hits ensures h.score >= scores[i] {
        var j :| 0 <= j < |hits| && hits[j] == h;
        assert Beats(scores, selected[j], i);
      }
    }
  }

  /** The document is among the hits, or the hits are full of documents that score no lower. */
  ghost predicate IsRecalled(hits: seq<Hit>, documentId: string, score: real, limit: nat) {
    || (exists h :: h in hits && h.documentId == documentId && h.score == score)
    || (|hits| == limit && forall h :: h in hits ==> h.score >= score)
  }

  lemma EligibleIsRecalled(
      query: string, docs: seq<Document>, domain: Option<string>, limit: nat, scope: Scope, lower: char -> char,
      d: Document)
    requires d in Eligible(docs, domain, scope) && Score(query, d, lower) >= 0.12
    ensures IsRecalled(Search(query, docs, domain, limit, scope, lower), d.id, Score(query, d, lower), limit)
  {
    hide Eligible, Score, Search;
    var i :| 0 <= i < |Eligible(docs, domain, scope)| && Eligible(docs, domain, scope)[i] == d;
    ReturnedOrFull(query, docs, domain, limit, scope, lower, i);
  }

  /**
   * An eligible document whose title or content contains the query is found: it is among the hits, or these
   * are full of documents that score at least as high.
   */
  lemma MatchIsFound(
      query: string, docs: seq<Document>, domain: Option<string>, limit: nat, scope: Scope, lower: char -> char,
      d: Document)
    requires d in Eligible(docs, domain, scope) && Terms(query, lower) != {}
    requires StandsIn(d.title, query, lower) || StandsIn(d.content, query, lower)
    ensures Score(query, d, lower) >= if StandsIn(d.title, query, lower) then 0.35 else 0.25
    ensures IsRecalled(Search(query, docs, domain, limit, scope, lower), d.id, Score(query, d, lower), limit)
  {
    hide Eligible, Score, Search, Terms, StandsIn;
    MatchScores(query, d, lower);
    EligibleIsRecalled(query, docs, domain, limit, scope, lower, d);
  }

  /** Two characters or more without a Latin letter or digit have a term, and match wherever they occur. */
  lemma PlainQuery(query: string, text: string, lower: char -> char)
    requires |query| >= 2 && forall c :: c in MapChars(query, lower) ==> !IsLatin(c)
    ensures Terms(query, lower) != {}
    ensures StandsIn(text, query, lower) <==> Contains(MapChars(text, lower), MapChars(query, lower))
  {
    var q, x := MapChars(query, lower), MapChars(text, lower);
    assert Bigram(q, 0) in Bigrams(q);
    assert q[0] in q && q[|q| - 1] in q;
    assert forall i :: StandsAt(x, q, i) <==> OccursAt(x, q, i);
  }

  /** Every hit shows a document the search may return, with its score, and at most 180 characters of it. */
  lemma HitsShowDocuments(
      query: string, docs: seq<Document>, domain: Option<string>, limit: int, scope: Scope, lower: char -> char, h: Hit)
    requires h in Search(query, docs, domain, limit, scope, lower)
    ensures exists d ::
      && d in Eligible(docs, domain, scope)
      && h.documentId == d.id && h.title == d.title && h.source == d.source && h.version == d.version
      && h.trustLevel == d.trustLevel && h.evidenceOnly == d.evidenceOnly
      && h.score == Score(query, d, lower) && h.score >= 0.12
      && |h.excerpt| <= 180
      && (if |d.content| <= 180 then h.excerpt == d.content
          else |h.excerpt| == 180 && h.excerpt[..177] == d.content[..177] && h.excerpt[177..] == "...")
  {
    hide Eligible, Score;
    var eligible := Eligible(docs, domain, scope);
    var scores := Scores(query, eligible, lower);
    var selected := Selected(scores, limit);
    var hits := Search(query, docs, domain, limit, scope, lower);
    var k :| 0 <= k < |hits| && hits[k] == h;
    assert selected[k] in selected && scores[selected[k]] >= MIN_SCORE;
    hide Selected, Search;
    var d := eligible[selected[k]];
    assert d in eligible;
    HitIs(d, scores[selected[k]]);
  }

  lemma HitIs(d: Document, score: real)
    ensures var h := ToHit(d, score);
      && h.documentId == d.id && h.title == d.title && h.source == d.source && h.version == d.version
      && h.trustLevel == d.trustLevel && h.evidenceOnly == d.evidenceOnly && h.score == score
      && |h.excerpt| <= 180
      && (if |d.content| <= 180 then h.excerpt == d.content
          else |h.excerpt| == 180 && h.excerpt[..177] == d.content[..177] && h.excerpt[177..] == "...")
  {
  }
}
