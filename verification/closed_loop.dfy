/** From a published correction to its recall: the point of the feedback loop. */
module ClosedLoop {
  import opened Text
  import opened Domain
  import opened OperationsStore
  import opened Knowledge
  import opened FeedbackLoop
  import opened LoopSystem
  import opened LoopTheorems
  import opened Retrieval
  import CandidateOrigin

  /** The query mentions the stored question, whatever the case. */
  predicate Mentions(query: string, question: string, lower: char -> char) {
    Contains(MapChars(query, lower), MapChars(question, lower))
  }

  /** A document whose keyword the query mentions scores at least 0.43, provided the query has a term. */
  lemma MentionScores(query: string, d: Document, lower: char -> char)
    requires Terms(query, lower) != {} && |d.keywords| == 1 && Mentions(query, d.keywords[0], lower)
    ensures Score(query, d, lower) >= 0.43
  {
    var terms := Terms(query, lower);
    assert KeywordHits(query, d.keywords, lower) == 1 + KeywordHits(query, d.keywords[1..], lower);
    assert d.keywords[1..] == [];
    assert Overlap(terms, Terms(d.title, lower)) >= 0.0 && Overlap(terms, Terms(d.content, lower)) >= 0.0;
  }

  /** The queries without a term: the empty one, and a single character that is no Latin letter or digit. */
  lemma TermlessIff(query: string, lower: char -> char)
    ensures Terms(query, lower) == {} <==> query == "" || (|query| == 1 && !IsLatin(lower(query[0])))
  {
    var lowered := MapChars(query, lower);
    if |query| >= 2 {
      assert Bigram(lowered, 0) in Bigrams(lowered);
    } else {
      assert Bigrams(lowered) == {};
      assert LatinTerms("") == {};
      assert |query| == 1 ==> lowered[1..] == "";
      assert |query| == 1 && IsLatin(lowered[0]) ==> lowered[..RunLength(lowered)] in LatinTerms(lowered);
    }
  }

  lemma SelectedScores(scores: seq<real>, limit: int)
    ensures Selected(scores, limit) == [] || exists i: nat :: i < |scores| && scores[i] >= MIN_SCORE
  {
    var r := Selected(scores, limit);
    assert r != [] ==> r[0] in r;
  }

  /** They find nothing, so the proviso is needed. */
  lemma TermlessFindsNothing(
      query: string, docs: seq<Document>, domain: Option<string>, limit: int, scope: Scope, lower: char -> char)
    requires Terms(query, lower) == {}
    ensures Search(query, docs, domain, limit, scope, lower) == []
  {
    hide Eligible, Selected;
    SelectedScores(Scores(query, Eligible(docs, domain, scope), lower), limit);
  }

  /** The published document is eligible in its own domain, or in a search over all domains, under every scope. */
  lemma PublishedIsEligible(p: Policy, trace: seq<System>, actions: seq<Action>, k: nat, id: string,
                            domain: Option<string>, scope: Scope) returns (i: nat)
    requires IsRun(p, trace, actions) && k < |trace| && StatusIs(trace[k].world.store, id, Published)
    requires domain.Some? && domain.value != "" ==> domain.value == trace[k].world.store.candidates[id].domain
    ensures i < |Eligible(trace[k].world.docs, domain, scope)|
    ensures var d := Eligible(trace[k].world.docs, domain, scope)[i];
      d.id == DocumentId(id) && d.keywords == [trace[k].world.store.candidates[id].question]
  {
    PublishedDocument(p, trace, actions, k, id);
    var d := Under(trace[k].world.docs, DocumentId(id))[0];
    assert d in Under(trace[k].world.docs, DocumentId(id));
    ListedMember(trace[k].world.docs, domain, d);
    EligibleMember(Listed(trace[k].world.docs, domain), scope, d);
    i :| 0 <= i < |Eligible(trace[k].world.docs, domain, scope)|
        && Eligible(trace[k].world.docs, domain, scope)[i] == d;
  }

  /**
   * Once a correction is published, every query with at least one term that mentions its question finds
   * it: the search returns its document, or is full of documents that score at least as high.
   */
  lemma PublishedIsFound(p: Policy, trace: seq<System>, actions: seq<Action>, k: nat, id: string,
                         query: string, domain: Option<string>, limit: nat, scope: Scope)
    requires IsRun(p, trace, actions) && k < |trace| && StatusIs(trace[k].world.store, id, Published)
    requires domain.Some? && domain.value != "" ==> domain.value == trace[k].world.store.candidates[id].domain
    requires Terms(query, p.lower) != {}
    requires Mentions(query, trace[k].world.store.candidates[id].question, p.lower)
    ensures exists score ::
      score >= 0.43 && IsRecalled(Search(query, trace[k].world.docs, domain, limit, scope, p.lower), DocumentId(id),
          score, limit)
  {
    var i := PublishedIsEligible(p, trace, actions, k, id, domain, scope);
    var d := Eligible(trace[k].world.docs, domain, scope)[i];
    MentionScores(query, d, p.lower);
    hide Search, Eligible, Score, IsRun;
    ReturnedOrFull(query, trace[k].world.docs, domain, limit, scope, p.lower, i);
    assert IsRecalled(Search(query, trace[k].world.docs, domain, limit, scope, p.lower), DocumentId(id),
        Score(query, d, p.lower), limit);
  }

  lemma OnlyDocument(p: Policy, trace: seq<System>, actions: seq<Action>, k: nat, id: string, d: Document)
    requires IsRun(p, trace, actions) && k < |trace| && StatusIs(trace[k].world.store, id, Published)
    requires d in trace[k].world.docs && d.id == DocumentId(id)
    ensures d.domain == trace[k].world.store.candidates[id].domain
  {
    assert d in Under(trace[k].world.docs, DocumentId(id));
    hide *;
    PublishedDocument(p, trace, actions, k, id);
  }

  /** A document of this candidate that a search shows is of the candidate's domain. */
  lemma ShownInItsDomain(p: Policy, trace: seq<System>, actions: seq<Action>, k: nat, id: string,
                         query: string, domain: string, limit: int, scope: Scope, h: Hit)
    requires IsRun(p, trace, actions) && k < |trace| && StatusIs(trace[k].world.store, id, Published)
    requires domain != "" && h in Search(query, trace[k].world.docs, Some(domain), limit, scope, p.lower)
    requires h.documentId == DocumentId(id)
    ensures trace[k].world.store.candidates[id].domain == domain
  {
    hide Search, IsRun, Eligible, Score;
    var docs := trace[k].world.docs;
    HitsShowDocuments(query, docs, Some(domain), limit, scope, p.lower, h);
    var d :| d in Eligible(docs, Some(domain), scope) && h.documentId == d.id;
    EligibleIff(docs, Some(domain), scope, d);
    OnlyDocument(p, trace, actions, k, id, d);
  }

  /** The domain a correction of a question with this intent is searched in. */
  predicate SearchedIn(intent: Intent, domain: string) {
    || (intent == OrderQuery && domain == "order")
    || (intent == AfterSales && domain == "after_sales")
    || (intent != OrderQuery && intent != AfterSales && domain == "product")
  }

  /**
   * A published correction is found in the domain its question was asked in, order questions under orders and
   * after-sales questions under after-sales, and is never shown in a search of any other domain.
   */
  lemma CorrectionIsFoundInItsDomain(p: Policy, trace: seq<System>, actions: seq<Action>, k: nat, id: string,
                                     query: string, domain: string, limit: nat, scope: Scope)
    requires IsRun(p, trace, actions) && k < |trace| && StatusIs(trace[k].world.store, id, Published)
    requires domain != "" && Terms(query, p.lower) != {}
    requires Mentions(query, trace[k].world.store.candidates[id].question, p.lower)
    ensures trace[k].world.store.candidates[id].traceId in trace[k].world.store.interactions
    ensures var hits := Search(query, trace[k].world.docs, Some(domain), limit, scope, p.lower);
      var intent := trace[k].world.store.interactions[trace[k].world.store.candidates[id].traceId].intent;
      if SearchedIn(intent, domain) then exists score :: score >= 0.43 && IsRecalled(hits, DocumentId(id), score, limit)
      else forall h :: h in hits ==> h.documentId != DocumentId(id)
  {
    CandidateOrigin.CandidateDomain(p, trace, actions, k, id);
    hide Search, Terms, Mentions, IsRun, IsRecalled;
    if trace[k].world.store.candidates[id].domain == domain {
      PublishedIsFound(p, trace, actions, k, id, query, Some(domain), limit, scope);
    } else {
      forall h | h in Search(query, trace[k].world.docs, Some(domain), limit, scope, p.lower)
        ensures h.documentId != DocumentId(id)
      {
        if h.documentId == DocumentId(id) {
          ShownInItsDomain(p, trace, actions, k, id, query, domain, limit, scope, h);
        }
      }
    }
  }
}
