# ShopAgent Pro: a verified model

ShopAgent Pro answers customers with several domain agents, collects ratings of its answers, and lets
staff turn low ratings into published knowledge. This project models the protocols that make this safe
when many callers act at once, and the exact algorithms they rely on, and proves what they guarantee.

* **The feedback loop** (`store.dfy`, `knowledge.dfy`, `feedback.dfy`, `loop_system.dfy`, `submission.dfy`,
  `publication.dfy`, `loop_theorems.dfy`, `review_audit.dfy`, `origin.dfy`, `undisturbed.dfy`,
  `undisturbed_submit.dfy`). Any number of submitters and reviewers share one operations store and one knowledge
  repository. Each awaited call is one atomic step; the repository may fail before or after a write takes effect;
  a caller may be killed between any two steps. `Submit` and `Review` are the methods of the service, written as
  they are in the source and proved to compute what the steps compute when nobody interferes; the theorems are
  about every interleaving.
* **Recall** (`retrieval.dfy`, `closed_loop.dfy`): scoring and ranking, and the theorem that closes the loop:
  what was published is found again.
* **The circuit breaker** (`breaker.dfy`), with overlapping calls, cancellation and a clock.
* **Plans** (`planner.dfy`, `splitting.dfy`, `executor.dfy`, `parallel.dfy`): splitting a message into tasks,
  running them in sequence with dependencies and conditions, and all requests in progress at once: parallel and
  sequential plans under a shared semaphore, and messages with a single task beside them.
* **Session memory** (`sessions.dfy`, `redis_memory.dfy`): turns under the session lock, expiry, truncation, and
  the length-prefixed Redis key.
* **Tokens** (`base64url.dfy`, `tokens.dfy`), **tickets** (`tickets.dfy`), **calibration** (`calibration.dfy`) and
  **redaction** (`redaction.dfy`).

`text.dfy` and `domain.dfy` hold the string operations and the records the others share. Code that updates
state is modelled by classes and loops whose contracts tie the new state to a function of the old one; the
theorems are lemmas about those functions. What a function of text or numbers computes is in turn stated without
it: which words refuse a document, which terms a text has, when a condition holds, which messages a session
keeps, where a message is split, which digits stay visible. `dafny verify dfyconfig.toml` checks the project.

## What the proofs brought to light

The model follows the code where the code and what one would expect of it differ.

* Building the document of a candidate happens outside the guarded block of `review` (feedback.py:119-133). A
  reviewer name of more than 128 characters raises there, after the claim, and leaves the candidate in
  `publishing` for ever: `ReviewGoesOnIff` gives the exact condition, `LongNameStrands` the shortest example,
  `OrphanedForever` says that nothing ever frees it. A reviewer killed while publishing has the same effect;
  without either, `NoOrphans` holds.
* A submitter killed between saving its feedback and saving its candidate loses the candidate for good: a retry
  under the same key finds the record and does not create it (`LostCandidate`). A recorded candidate is missing
  exactly while the call that stored its record is at that point (`MissingCandidateIff`), and can still appear
  exactly if that call is alive (`MayStillAppearIff`).
* Ranking and then dropping low scores equals dropping and then ranking for every limit that is not negative;
  `CutCommutesIff` gives the exact condition, including the negative limits that slicing allows.
* A session limit of 0 keeps the whole history, and a negative one makes repeated truncation differ from
  truncating once (`TruncationBoundsIff`, `TruncationComposesIff`). The settings allow neither.
* A clear takes no session lock. A turn undoes it when it saves, exactly if it came between the turn's load and its
  save, the turn had loaded some message, and the limit is neither 1 nor 2 (`ClearIsUndoneIff`, `StaleIff`). Every
  other session serialises, and so does this one again after its next clear or expiry (`SessionsSerialise`,
  `UndoneIff`).
* The semaphore bounds the agents of planned tasks only: a message with a single task calls its agent without a
  permit. `OverallBoundIff` says exactly when the limit holds for all agents together.
* The identity-card pass of the redaction never changes a text: the long-number pass before it leaves no run of
  eleven digits (`IdCardPassIsIdle`).
* `issue_token` checks neither the length of the subject and the agent nor the role, so it issues tokens that never
  verify; `IssueThenVerify` says exactly which ones verify, `LongSubjectIsUseless` gives one that does not.
* Run in parallel, a condition is ignored; run in sequence without a dependency, it makes the task ask for input.
  The two agree exactly if there is no condition (`RunsAloneIff`, `IndependentTasksIff`); the planner builds no
  parallel plan with one (`PlannedPlansQualify`).
* With a task limit of 0 a message that would be split has an empty plan (`LimitZero`), which `handle` cannot
  answer. The settings exclude it.
* A query of one character that is no Latin letter or digit finds nothing (`TermlessIff`, `TermlessFindsNothing`).

## Model

| member | source | states |
|---|---|---|
| `OperationsStore.InMemoryOperationsStore.RecordInteraction` | src/shopagent/operations/store.py:25-27 | only the first interaction recorded under a trace is kept; nothing else changes |
| `OperationsStore.InMemoryOperationsStore.GetInteraction` | src/shopagent/operations/store.py:29-32 | the interaction of this trace, or none |
| `OperationsStore.InMemoryOperationsStore.SaveFeedback` | src/shopagent/operations/store.py:34-49 | returns the first record of the same user and non-empty key and stores nothing, or stores and returns the new one |
| `OperationsStore.InMemoryOperationsStore.GetFeedbackByIdempotency` | src/shopagent/operations/store.py:51-63 | the first record in insertion order of this user under this key; none for the empty key |
| `OperationsStore.FindByKey` | src/shopagent/operations/store.py:37-45 | a found record is stored and has this user and key; nothing is found only if no record has them |
| `OperationsStore.Put` | src/shopagent/operations/store.py:48 | a record with a new identifier is appended after the others |
| `OperationsStore.InMemoryOperationsStore.PutCandidate` | src/shopagent/operations/store.py:65-76 | the whole record under this identifier is overwritten and no other |
| `OperationsStore.InMemoryOperationsStore.GetCandidate` | src/shopagent/operations/store.py:69-72 | the candidate under this identifier, or none |
| `OperationsStore.InMemoryOperationsStore.UpdateStatus` | src/shopagent/operations/store.py:78-93 | status and reviewer change exactly when the status is the expected one; otherwise nothing does |
| `OperationsStore.InMemoryOperationsStore.RecordAudit` | src/shopagent/operations/store.py:152-154 | the event is appended to the log and nothing else changes |
| `Knowledge.MockKnowledgeAdapter.ListDocuments` | src/shopagent/adapters/mock_knowledge.py:76-79 | everything without a domain or for the empty one, else the documents of the domain, in order |
| `Knowledge.ListedMember` | src/shopagent/adapters/mock_knowledge.py:76-79 | a document is listed exactly if it is stored and of the asked domain, when one is asked |
| `Knowledge.MockKnowledgeAdapter.Upsert` | src/shopagent/adapters/mock_knowledge.py:81-83 | documents under the same identifier go, the new one comes last |
| `Knowledge.UnderUpsert` | src/shopagent/adapters/mock_knowledge.py:81-83 | after an upsert exactly the new document is under its identifier, and every other identifier holds what it held |
| `Knowledge.WithoutInOrder` | src/shopagent/adapters/mock_knowledge.py:81-83 | removing an identifier keeps all other documents in order |
| `Knowledge.UpsertTwice` | src/shopagent/adapters/mock_knowledge.py:81-83 | of two upserts under one identifier only the second leaves a trace |
| `Knowledge.ScanKnowledgeDocument` | src/shopagent/security/knowledge_governance.py:14-48 | refused exactly if title, content and keywords, line by line, are an injection or change under redaction, or the document is not evidence only; so forbidden words in any part refuse it; otherwise exactly the sorted flags of the documents that contradict it |
| `Knowledge.WordsAreSeen` | src/shopagent/security/knowledge_governance.py:26 | words in the title, the content or any keyword are in the text the policy reads |
| `Knowledge.PolicyTextIs` | src/shopagent/security/knowledge_governance.py:26 | that text is the title, the content and each keyword, a line each |
| `Knowledge.FlagsNameContradictions` | src/shopagent/security/knowledge_governance.py:39-48 | a flag names, by identifier and version, a stored document of another identifier and the same tenant with other content and the same folded title or two common keywords, and every such document is named |
| `Knowledge.SealDetectsChange` | src/shopagent/security/knowledge_governance.py:51-59 | two documents have the same hash exactly if they agree in all seven sealed fields, as far as the digest tells texts apart and no field contains the separator |
| `Knowledge.RiskFlags` | src/shopagent/security/knowledge_governance.py:39-48 | the flags are strictly sorted and are exactly those of the stored documents that conflict |
| `Knowledge.SortedSet` | src/shopagent/security/knowledge_governance.py:48 | strictly sorted, with exactly the given elements |
| `Knowledge.SortedUnique` | src/shopagent/security/knowledge_governance.py:48 | a strictly sorted list is determined by its elements |
| `Knowledge.OwnDocumentIsIgnored` | src/shopagent/security/knowledge_governance.py:41-43 | upserting a document under the scanned identifier first changes no flag |
| `FeedbackLoop.FeedbackLoopService.Submit` | src/shopagent/operations/feedback.py:28-93 | the method reaches, step by step, the state and result the atomic steps reach when nobody interferes; `UndisturbedSubmission.SubmitEndsInOutcome` says which these are |
| `UndisturbedSubmission.SubmitEndsInOutcome` | src/shopagent/operations/feedback.py:28-93 | an undisturbed call returns the record already under its key and changes nothing, or is refused exactly for an unknown interaction, another owner or a rating outside 1 to 5, or adds one redacted record, for a rating of 1 or 2 one pending candidate with question, answer and domain of the interaction, and one event |
| `FeedbackLoop.FeedbackLoopService.Review` | src/shopagent/operations/feedback.py:95-204 | the same for reviewing, for every behaviour of the repository |
| `FeedbackLoop.FeedbackLoopService.ClaimCandidate` | src/shopagent/operations/feedback.py:98-117 | the two compare-and-set attempts end in a claim or in the error that explains the refusal |
| `FeedbackLoop.FeedbackLoopService.PublishDocument` | src/shopagent/operations/feedback.py:134-178 | the guarded block goes on to the closing step or ends in the error of one of its two handlers |
| `FeedbackLoop.FeedbackLoopService.FinishPublication` | src/shopagent/operations/feedback.py:179-193 | the closing compare-and-set, the re-read and the error of a changed state |
| `UndisturbedReview.StepsReachOutcome` | src/shopagent/operations/feedback.py:95-204 | the steps of a review that nobody disturbs end in the world and result of a closed form, in every case including failures |
| `UndisturbedReview.ReviewEndsInOutcome` | src/shopagent/operations/feedback.py:95-204 | and in no other: whatever the method ends in is that outcome |
| `UndisturbedReview.PublishedFlags` | src/shopagent/operations/feedback.py:134-143 | a successful publication leaves exactly the flags naming the contradicting documents of the candidate's domain, or those it had if there is none |
| `UndisturbedReview.RetryHeals` | src/shopagent/operations/feedback.py:105-111 | a publication that failed, before or after its upsert took effect, and is retried ends with the result, records and documents of one that worked at once |
| `Publication.ReviewKeeps` | src/shopagent/operations/feedback.py:95-204 | every step of every review keeps the publication invariant and neither adds nor removes a candidate |
| `Submission.StepSubmitKeeps` | src/shopagent/operations/feedback.py:28-93 | every step of every submission keeps the submission invariant |
| `LoopTheorems.NextKeeps` | src/shopagent/operations/feedback.py:28-204 | every action of any caller, kills included, keeps both invariants |
| `LoopTheorems.OneOwner` | src/shopagent/operations/feedback.py:98-117 | in every run a candidate is in publication exactly while one reviewer is between its claim and its closing step, and never two |
| `LoopTheorems.ReviewGoesOnIff` | src/shopagent/operations/feedback.py:119-133 | after the claim an approval is stuck exactly if the reviewer's name exceeds 128 characters |
| `LoopTheorems.LongNameStrands` | src/shopagent/operations/feedback.py:119-133 | two steps of a reviewer with a name of 129 characters strand a pending candidate |
| `LoopTheorems.OrphanedForever` | src/shopagent/operations/feedback.py:98-117 | a candidate whose holder was killed or stuck stays in publication for the rest of every run |
| `LoopTheorems.NoOrphans` | src/shopagent/operations/feedback.py:119-193 | with nobody killed and every approver's name within bounds, whoever holds a candidate can take its next step |
| `LoopTheorems.ClosingSucceeds` | src/shopagent/operations/feedback.py:179-193 | every closing compare-and-set succeeds; the error of a changed state and a vanished candidate never occur |
| `Publication.StatusWrite` | src/shopagent/operations/store.py:78-93 | a review step that changes candidates moves one of them along an allowed edge and records its own reviewer |
| `LoopTheorems.StepAlongEdges` | src/shopagent/operations/feedback.py:95-204 | every step of anybody moves every candidate along an allowed edge and keeps what the submission wrote |
| `LoopTheorems.LifeOfCandidate` | src/shopagent/operations/feedback.py:95-204 | through any run content is kept, statuses follow the edges, and published and rejected records never change again |
| `LoopTheorems.SnapshotLosesNothing` | src/shopagent/operations/feedback.py:141-143 | writing back the whole snapshot changes the risk flags of that candidate and nothing else |
| `LoopTheorems.PublishedDocument` | src/shopagent/operations/feedback.py:119-146 | a published candidate has exactly one document, with the stripped suggestion or else the current answer, the first 30 characters of the question in its title, the question as keyword, its recorded reviewer as approver, and the digest of its sealed fields |
| `LoopTheorems.UnpublishedHasNoDocument` | src/shopagent/operations/feedback.py:134-160 | pending and rejected candidates never have a document, however often publication was tried |
| `LoopTheorems.RefusedIsNeverPublished` | src/shopagent/security/knowledge_governance.py:26-37 | a candidate the policy refuses is never published and never has a document |
| `LoopTheorems.RefusedIff` | src/shopagent/security/knowledge_governance.py:26-37 | a candidate is refused exactly if the policy objects to the three lines of its title, answer and question |
| `LoopTheorems.ForbiddenIsNeverPublished` | src/shopagent/security/knowledge_governance.py:26-37 | in every run a candidate with forbidden words in its question or in the answer it proposes is never published and has no document |
| `LoopTheorems.PublishedIsClean` | src/shopagent/security/knowledge_governance.py:26-37 | in every run no document that stems from feedback has forbidden words in any part |
| `Publication.RefusedIsFixed` | src/shopagent/security/knowledge_governance.py:26-37 | the refusal depends only on fields of the candidate that no step changes, not on who reviews |
| `Publication.DocumentIdInjective` | src/shopagent/operations/feedback.py:122 | different candidates have different document identifiers |
| `ReviewAudit.DecisionsAreTrue` | src/shopagent/operations/feedback.py:147-204 | every decision in the audit log agrees for ever with the stored status, reviewer and conversation, and policy rejections are of refused candidates |
| `ReviewAudit.OneDecision` | src/shopagent/operations/feedback.py:147-204 | a candidate is final exactly if one reviewer settled it; the log holds one decision on it once that reviewer has completed, and else none |
| `ReviewAudit.BecomesFinal` | src/shopagent/operations/feedback.py:95-193 | only the reviewer's own candidate becomes final in its step, and the reviewer has then settled it |
| `ReviewAudit.StepLogs` | src/shopagent/operations/feedback.py:147-204 | a review step logs at most one event, a decision exactly when a settled reviewer completes |
| `CandidateOrigin.CandidateHasOrigin` | src/shopagent/operations/feedback.py:46-82 | every stored candidate repeats question, answer and domain of an interaction its own user rated 1 or 2, that rating's suggestion, and its comment or else the rating as the reason |
| `CandidateOrigin.CandidateDomain` | src/shopagent/operations/feedback.py:207-212 | in every run a candidate is filed under after_sales exactly for an after-sales question, under order exactly for an order question, and under product otherwise |
| `CandidateOrigin.DocumentDomain` | src/shopagent/operations/feedback.py:119-124 | and so is every document published for it |
| `CandidateOrigin.RecordsAreRedacted` | src/shopagent/operations/feedback.py:46-61 | in every run each stored record is of a request with a rating from 1 to 5, with comment and suggestion redacted, and names a candidate exactly for a rating of 1 or 2 |
| `CandidateOrigin.PublishedAnswersAQuestion` | src/shopagent/operations/feedback.py:28-146 | what is published answers a question really asked, with the words of the low rating or else the answer given |
| `LoopTheorems.OneRecordPerKey` | src/shopagent/operations/store.py:34-49 | at any time a user has at most one record under a non-empty key |
| `LoopTheorems.RecordsStay` | src/shopagent/operations/store.py:25-49 | records and interactions, once stored, stay as they are through any run |
| `LoopTheorems.CompletedCallsAgree` | src/shopagent/operations/feedback.py:38-70 | every completed call under a key returned the one record its user has, or will ever have, under it |
| `LoopTheorems.OneWinnerPerRecord` | src/shopagent/operations/feedback.py:46-70 | each record was stored by exactly one call, and its user owns the interaction it refers to |
| `LoopTheorems.OneSubmissionEvent` | src/shopagent/operations/feedback.py:62-93 | each record is announced in the log by its winner once it completes, and never twice |
| `LoopTheorems.AnnouncementsAreTrue` | src/shopagent/operations/feedback.py:83-92 | every submission event in the log names a stored record with the same user and conversation |
| `LoopTheorems.StoredCandidates` | src/shopagent/operations/feedback.py:71-82 | the stored candidates are exactly those of the calls that got past saving theirs |
| `LoopTheorems.MissingCandidateIff` | src/shopagent/operations/feedback.py:46-82 | in every run the candidate a stored record names is missing exactly while a call that stored this very record is about to save it |
| `LoopTheorems.MayStillAppearIff` | src/shopagent/operations/feedback.py:71-82 | a next step can then save it exactly if that call has not been killed |
| `LoopTheorems.LostCandidate` | src/shopagent/operations/feedback.py:38-82 | a call killed between its two saves leaves a record whose candidate never appears |
| `Retrieval.EligibleMember` | src/shopagent/ports/retrieval.py:23-36 | the searched documents are exactly the listed ones the scope may see |
| `Retrieval.EligibleIff` | src/shopagent/ports/retrieval.py:23-36 | a search sees exactly the stored documents of the asked domain, of the tenant or all tenants, open to the department and channel, in force, and not untrusted |
| `Retrieval.TermIff` | src/shopagent/ports/retrieval.py:77-82 | the terms of a text are exactly its pairs of neighbouring characters and its whole words of Latin letters and digits, in lower case |
| `Retrieval.Score` | src/shopagent/ports/retrieval.py:84-103 | every score lies between 0 and 1; `Retrieval.ScoreIs` and `Retrieval.MatchScores` say which it is |
| `Retrieval.ScoreIs` | src/shopagent/ports/retrieval.py:84-103 | 0.35 for the share of terms in the title, 0.25 for that in the content, 0.18 for each mentioned keyword and 0.25 for any, 0.15 for a term in the keywords, at most 1 |
| `Retrieval.TermsWithin` | src/shopagent/ports/retrieval.py:77-82 | a text that contains the query, not inside a Latin word, has all of its terms |
| `Retrieval.MatchScores` | src/shopagent/ports/retrieval.py:84-103 | a title that contains the query scores at least 0.35, content that does 0.25, both 0.60 |
| `Retrieval.PlainQuery` | src/shopagent/ports/retrieval.py:77-82 | a query of two or more characters without Latin letters and digits has terms, and matches wherever it occurs |
| `Retrieval.TitleWeighsMore` | src/shopagent/ports/retrieval.py:94-103 | for every document, keywords or not, exchanging title and content lowers the score exactly if the title overlaps the query more and the exchanged score stays below the cap of 1 |
| `Retrieval.RankFirstSorts` | src/shopagent/ports/retrieval.py:68-72 | stable insertion orders all positions by falling score, equal scores in repository order |
| `Retrieval.DescendingUnique` | src/shopagent/ports/retrieval.py:68-72 | there is only one such order |
| `Retrieval.SelectedIsTop` | src/shopagent/ports/retrieval.py:68-74 | a search returns the stable descending top of all documents scoring 0.12 or more; one is left out only if the limit is reached and all returned ones rank before it |
| `Retrieval.CutCommutesIff` | src/shopagent/ports/retrieval.py:73-75 | cutting before filtering equals filtering before cutting exactly under a condition on limit and scores, met by every limit that is not negative |
| `Retrieval.InvisibleDocument` | src/shopagent/ports/retrieval.py:61-67 | a document that is not eligible, or of another domain, influences no search |
| `Retrieval.ReturnedOrFull` | src/shopagent/ports/retrieval.py:54-75 | an eligible document that scores enough is returned unless the hits are full of others that score no lower |
| `Retrieval.MatchIsFound` | src/shopagent/ports/retrieval.py:54-103 | an eligible document whose title or content contains the query is returned unless the hits are full of others that score no lower |
| `Retrieval.HitsShowDocuments` | src/shopagent/ports/retrieval.py:71-75 | every hit shows an eligible document with its score, at least 0.12, and its content, or 177 characters of it and dots |
| `ClosedLoop.MentionScores` | src/shopagent/ports/retrieval.py:84-103 | a query with a term that contains the only keyword, whatever the case, scores at least 0.43 |
| `ClosedLoop.TermlessIff` | src/shopagent/ports/retrieval.py:77-82 | the queries without terms are the empty one and a single character that is no Latin letter or digit |
| `ClosedLoop.TermlessFindsNothing` | src/shopagent/ports/retrieval.py:54-87 | they find nothing, for any documents, limit and scope |
| `ClosedLoop.PublishedIsEligible` | src/shopagent/operations/feedback.py:121-133 | a published document is eligible in its domain under every scope |
| `ClosedLoop.PublishedIsFound` | src/shopagent/ports/retrieval.py:54-75 | in every run a query that mentions a published question finds its document, or gets a full list of documents that score as high |
| `ClosedLoop.CorrectionIsFoundInItsDomain` | src/shopagent/operations/feedback.py:207-212 | in every run a mentioning query finds a published correction in the domain of its question, order questions under order, and never shows it in any other |
| `Breaker.ToolRegistry.Register` | src/shopagent/tools/registry.py:51-55 | a new tool starts with a fresh runtime of its own; a known name changes nothing |
| `Breaker.ToolRegistry.Authorize` | src/shopagent/tools/registry.py:64-76 | the specification, or the error for an unknown tool or a forbidden agent |
| `Breaker.ToolRegistry.Admit` | src/shopagent/tools/registry.py:82-94 | a call is admitted exactly if authorized, well formed and past the deadline; a refused one changes no counter of any tool |
| `Breaker.ToolRegistry.Complete` | src/shopagent/tools/registry.py:95-109 | success, failure and cancellation each change this tool's counters and deadline as stated, and no other tool's |
| `Breaker.StateOfHistory` | src/shopagent/tools/registry.py:89-107 | however calls overlap, counters and deadline are functions of the history: the trailing run of failures, and the last failure plus the cooldown when it reaches the threshold |
| `Breaker.CallsAreAccountedFor` | src/shopagent/tools/registry.py:93-109 | calls equal successes, failures, cancelled calls and calls in flight |
| `Breaker.LatencyIsTimeSpent` | src/shopagent/tools/registry.py:108-109 | the total latency is the time of all completed calls, cancelled ones included |
| `Breaker.AdmitsIff` | src/shopagent/tools/registry.py:90-92 | a call is refused exactly while a run of failures has reached the threshold and its last one is less than a cooldown ago |
| `Breaker.InFlightMeansClosed` | src/shopagent/tools/registry.py:90-107 | from any moment of any history at which nothing is in flight and nothing failed since the last success, as long as calls do not overlap and none succeeds, the circuit is closed while a call is in flight |
| `Breaker.FailuresAreSpaced` | src/shopagent/tools/registry.py:97-102 | in such an outage, whatever happened before it, failure number threshold + j comes at least j cooldowns after the tripping one |
| `Breaker.OutageCost` | src/shopagent/tools/registry.py:90-102 | the calls admitted since such an outage began are at most the threshold, one in flight, the cancelled ones, and one for each whole cooldown elapsed since it tripped the circuit |
| `Planner.Split` | src/shopagent/orchestration/planner.py:85-105 | the loop over sentences computes the segments |
| `Planner.SplitRejoins` | src/shopagent/orchestration/planner.py:98-101 | putting the separators back between the pieces restores the text |
| `Planner.FirstMatch` | src/shopagent/orchestration/planner.py:52-53 | the leftmost position at which the separator matches |
| `Planner.Trimmed` | src/shopagent/orchestration/planner.py:102 | no part is empty |
| `Splitting.LongestMatch` | src/shopagent/orchestration/planner.py:52 | wherever a separator is tried it is the longest text made of an optional comma and spaces, one of the seven words, and spaces |
| `Splitting.PiecesHaveNoWord` | src/shopagent/orchestration/planner.py:98-101 | no piece between separators contains a coordinating word |
| `Splitting.PartsInOrder` | src/shopagent/orchestration/planner.py:98-101 | the parts of the sentences come in order |
| `Splitting.TrimmedIs` | src/shopagent/orchestration/planner.py:102 | each part is stripped of spaces, commas and sentence ends and kept if something is left, in order |
| `Splitting.TasksAreClean` | src/shopagent/orchestration/planner.py:98-105 | no task of a split message without condition is empty, contains a coordinating word or a sentence end, or has a space or comma at either side |
| `Splitting.ConditionalIff` | src/shopagent/orchestration/planner.py:51 | a message is read as a conditional sentence exactly if it can be, with the shortest head and then the shortest condition |
| `Splitting.ConditionalSegments` | src/shopagent/orchestration/planner.py:85-96 | then the plan is head and tail, the tail depending on the head under the condition, all stripped |
| `Planner.Build` | src/shopagent/orchestration/planner.py:58-83 | task i has its identifier, segment, dependency and condition, and the entities of tasks 1 to i merged, later ones overriding |
| `Planner.TasksFollowSegments` | src/shopagent/orchestration/planner.py:68-83 | a task is classified by its own content, numbered by its place, and depends on the first task exactly if it has a condition |
| `Planner.EntitiesAreInherited` | src/shopagent/orchestration/planner.py:62-67 | a task carries an entity exactly if it or an earlier task was classified with it |
| `Planner.EntityIsLatest` | src/shopagent/orchestration/planner.py:62-67 | its value is that of the latest of these classifications |
| `Planner.PlansAreWellFormed` | src/shopagent/orchestration/planner.py:58-105 | identifiers are task-1 to task-n, dependencies name earlier tasks of the same plan even after truncation, only dependent tasks have conditions, and there are 1 to max_tasks tasks exactly if max_tasks is at least 1 |
| `Planner.TaskIdInjective` | src/shopagent/orchestration/planner.py:75 | tasks of a plan have different identifiers |
| `Executor.ExecuteSequentially` | src/shopagent/orchestration/service.py:242-280 | the loop leaves the outcomes of all tasks and calls the agents of the tasks that run, in order |
| `Executor.OneOutcomePerTask` | src/shopagent/orchestration/service.py:242-283 | every task has exactly one outcome, the one fixed when its turn came |
| `Executor.CallsAreOrdered` | src/shopagent/orchestration/service.py:278-280 | every agent call belongs to one task that ran, and calls come in task order |
| `Executor.BlocksDescendants` | src/shopagent/orchestration/service.py:243-254 | whatever needs a human blocks everything that depends on it, directly or not, and none of it calls an agent |
| `Executor.BlockedIff` | src/shopagent/orchestration/service.py:243-254 | a task is blocked exactly if something it depends on, directly or not, needs a human |
| `Executor.HumanHasCause` | src/shopagent/orchestration/service.py:243-288 | behind every task that needs a human there is one, at or before it, that does so without being blocked |
| `Executor.CalledIff` | src/shopagent/orchestration/service.py:243-280 | an agent is called exactly for a task that has one, whose dependencies need no human, and whose condition, if any, holds: pending goods are reported for a shipping condition, a positive first stock for a stock condition |
| `Executor.ShippingCondition` | src/shopagent/orchestration/service.py:397-409 | for a condition on goods not shipped the task runs exactly if a dependency reports a pending marker, is skipped exactly if none does and one reports a shipped marker, and else asks for input |
| `Executor.StockCondition` | src/shopagent/orchestration/service.py:410-415 | for a condition on stock alone it runs if the first number reported is positive, is skipped if it is not, and asks for input if there is none |
| `Executor.OtherCondition` | src/shopagent/orchestration/service.py:416 | with any other condition it asks for input |
| `Executor.WordReported` | src/shopagent/orchestration/service.py:398-400 | a marker is in the rendered list exactly if it is in the data of one dependency |
| `Executor.WithoutIs` | src/shopagent/orchestration/service.py:401 | dropping a character keeps all others in place |
| `Executor.FirstOccurrences` | src/shopagent/orchestration/service.py:287 | the same values without repetition |
| `Executor.ReportSequentially` | src/shopagent/orchestration/service.py:242-288 | running the plan and reading the dictionary in task order reports the outcome fixed for each task at its turn |
| `Executor.ReportIsFaithful` | src/shopagent/orchestration/service.py:283-288 | a tool is reported exactly if some task used it, a human asked for exactly if some task that is not blocked needs one |
| `Executor.RunsAloneIff` | src/shopagent/orchestration/service.py:243-280 | a task without dependencies has the outcome of running alone exactly if it carries no condition, whatever ran before it |
| `Executor.IndependentTasksIff` | src/shopagent/orchestration/service.py:232-240 | so the tasks of a parallel plan may be run apart from each other exactly if none carries a condition |
| `ParallelExecution.BoundedAgents` | src/shopagent/orchestration/service.py:361-363 | over all requests together the running agents of planned tasks and the free permits add up to max_parallel; all running agents exceed it exactly when more single tasks run than permits are free |
| `ParallelExecution.OverallBoundIff` | src/shopagent/orchestration/service.py:126-146 | in every reachable state at most max_parallel agents run, single tasks included, exactly if no single task calls an agent, or all calls that can be under way at once are within the limit anyway |
| `ParallelExecution.MostAtOnce` | src/shopagent/orchestration/service.py:126-146 | a run reaches the state in which all calling single tasks and as many planned ones as find permits run at once |
| `ParallelExecution.PlannedAtMost` | src/shopagent/orchestration/service.py:361-363 | never more planned tasks run than a parallel plan has callers and any other plan one |
| `ParallelExecution.NeverStuck` | src/shopagent/orchestration/service.py:126-394 | in every reachable state of all requests together, until all tasks are finished one of them can advance |
| `ParallelExecution.StepsRunOut` | src/shopagent/orchestration/service.py:126-394 | every step of any task uses up some of a finite number of steps |
| `ParallelExecution.PlansReportAsInSequence` | src/shopagent/orchestration/service.py:232-288 | however the requests interleave, a finished plan has the outcomes, in order, of running its tasks alone one after another; for a parallel plan exactly if no task carries a condition |
| `ParallelExecution.SingleTasksAreAnswered` | src/shopagent/orchestration/service.py:126-169 | a message with a single task ends, whatever else runs, in the answer it gets alone |
| `ParallelExecution.DirectAgrees` | src/shopagent/orchestration/service.py:126-169 | which has the state, tools, agent and need for a human of the same task in a plan, and is the same answer when the agent replies |
| `ParallelExecution.PlannedPlansQualify` | src/shopagent/orchestration/planner.py:31-33 | every parallel plan of the planner is without conditions |
| `Sessions.InMemoryTTLStore.Get` | src/shopagent/memory/in_memory.py:30-37 | an unexpired memory, or an empty one after dropping what expired |
| `Sessions.InMemoryTTLStore.Save` | src/shopagent/memory/in_memory.py:39-42 | the memory is stored under its own user and session with a new expiry; other sessions keep theirs |
| `Sessions.InMemoryTTLStore.Clear` | src/shopagent/memory/in_memory.py:44-46 | only this session is removed |
| `Sessions.InMemoryTTLStore.Turn` | src/shopagent/orchestration/service.py:175-194 | a turn saves, under its session and with a new expiry, the newest messages of the loaded history followed by its question and answer, as many as a positive limit allows |
| `Sessions.TruncatedIs` | src/shopagent/orchestration/service.py:181 | a positive limit keeps the newest messages, that many or all; 0 keeps all |
| `Sessions.TruncationComposesIff` | src/shopagent/orchestration/service.py:181 | truncating after every turn equals truncating the whole history exactly for limits that are not negative |
| `Sessions.TruncationBoundsIff` | src/shopagent/orchestration/service.py:181 | the limit bounds the history exactly if it is positive |
| `Sessions.SessionsSerialise` | src/shopagent/orchestration/service.py:95-98 | in every interleaving of turns, clears and time, unless a turn of this session has undone a clear since the last reset, a load returns the last messages committed to this session since its last clear or expiry while the last write is younger than the time to live, and nothing after |
| `Sessions.LoadsTheNewest` | src/shopagent/orchestration/service.py:95-98 | so what a load returns is the end of the messages committed since the last reset, of the length of the limit or all of them |
| `Sessions.TurnIsKept` | src/shopagent/orchestration/service.py:175-194 | in every run the newest two messages after a turn are its question and answer, for every limit but 1 that is not negative |
| `Sessions.OneTurnPerSession` | src/shopagent/memory/in_memory.py:18-24 | in every interleaving, with any clears and any limit, two turns never hold the lock of one session |
| `Sessions.ClearIsUndoneIff` | src/shopagent/memory/in_memory.py:44-46 | a save disagrees with what was committed since the last clear exactly if the session was cleared since the turn loaded it, the turn had loaded some message, and the limit is neither 1 nor 2 |
| `Sessions.StaleIff` | src/shopagent/memory/in_memory.py:44-46 | the turns whose session was cleared under them are those for which some earlier action cleared it between their load and their save |
| `Sessions.UndoneIff` | src/shopagent/memory/in_memory.py:30-46 | a session is excepted exactly if some turn of it undid a clear and it has neither been cleared nor found missing or expired since |
| `RedisMemory.PreImageInjective` | src/shopagent/memory/redis_store.py:21-22 | no two sessions share a key pre-image, whatever their names contain |
| `RedisMemory.NamesAloneCollide` | src/shopagent/memory/redis_store.py:22 | without the lengths they would |
| `RedisMemory.DataKeyInjective` | src/shopagent/memory/redis_store.py:21-24 | sessions whose digests do not collide have different keys |
| `RedisMemory.LocksAreApart` | src/shopagent/memory/redis_store.py:27-34 | no lock key is the data key of any session |
| `RedisMemory.RedisMemoryStore.Get` | src/shopagent/memory/redis_store.py:43-52 | refines the keyed map with a renewed time to live; the scope mismatch never arises |
| `RedisMemory.RedisMemoryStore.Save` | src/shopagent/memory/redis_store.py:54-59 | refines the keyed map: this session changes and no other |
| `RedisMemory.RedisMemoryStore.Clear` | src/shopagent/memory/redis_store.py:61-62 | refines the keyed map: only this session is removed |
| `Text.DecimalRoundTrip` | src/shopagent/memory/redis_store.py:22 | the decimal rendering of a length determines it |
| `Text.StripIs` | src/shopagent/orchestration/planner.py:102 | stripping removes exactly the dropped characters at both ends |
| `Text.ContainsIff` | src/shopagent/ports/retrieval.py:91 | a text contains another exactly if it goes on with it after some part |
| `Text.JoinSnoc` | src/shopagent/security/knowledge_governance.py:26 | joining one more part appends the separator and the part |
| `Text.JoinContainsIff` | src/shopagent/orchestration/service.py:398-404 | a joined text contains a needle that shares no character with the separator exactly if a part does |
| `Base64Url.RoundTrip` | src/shopagent/security/tokens.py:120-126 | decoding inverts encoding on every byte string |
| `Base64Url.PaddedShape` | src/shopagent/security/tokens.py:120-126 | stripping removes exactly the padding that decoding puts back |
| `Base64Url.EncodingIsSafe` | src/shopagent/security/tokens.py:120-121 | encodings differ for different bytes and contain no dot |
| `Tokens.IssueThenVerify` | src/shopagent/security/tokens.py:27-113 | verifying an issued token yields the principal of its claims, or the error of the first check the claims do not meet |
| `Tokens.CheckIssuedPayload` | src/shopagent/security/tokens.py:83-113 | the same for the payload, with the error for each way to fail |
| `Tokens.AcceptedIff` | src/shopagent/security/tokens.py:63-113 | for claims within the verifier's limits the round trip succeeds exactly before expiry and when no other role is expected |
| `Tokens.IssuedIff` | src/shopagent/security/tokens.py:39-60 | a token is issued exactly for a secret, a subject, a positive time to live, a tenant of 1 to 128 characters and a department of at most 128 |
| `Tokens.FreshIsAccepted` | src/shopagent/security/tokens.py:27-113 | a token issued for a known role and bounded names is accepted in the second of its issue, for the very principal of its claims, and expired at the end of its time to live |
| `Tokens.AcceptedIsSigned` | src/shopagent/security/tokens.py:63-82 | every accepted token carries the signature of its own content under the secret |
| `Tokens.PayloadIff` | src/shopagent/security/tokens.py:83-113 | a payload makes a principal exactly if it is for this audience, not expired, of a known role and the one expected, and gives subject, agent, tenant and department of the principal as names of 1 to 128 characters or leaves them out; the missing tenant is global |
| `Tokens.AcceptedSays` | src/shopagent/security/tokens.py:63-113 | the signed payload of every accepted token says exactly this of the principal returned |
| `Tokens.LongSubjectIsUseless` | src/shopagent/security/tokens.py:39-60 | a token for a subject of 129 characters is issued and never verifies |
| `Tickets.MockAfterSalesAdapter.Create` | src/shopagent/adapters/mock_commerce.py:47-70 | one atomic call returns the ticket under the key or creates it |
| `Tickets.MySQLCommerceAdapter.Create` | src/shopagent/adapters/mysql_commerce.py:77-118 | the method computes its three transactions one after another |
| `Tickets.Matching` | src/shopagent/adapters/mysql_commerce.py:145-155 | exactly the rows of this user under this non-empty key |
| `Tickets.OneRowPerKey` | src/shopagent/adapters/mysql_commerce.py:47 | at most one row per identifier and per user and non-empty key, in every run |
| `Tickets.NeverRaises` | src/shopagent/adapters/mysql_commerce.py:112-116 | the integrity error is never raised again, and calls without a key never meet it |
| `Tickets.CallsAgree` | src/shopagent/adapters/mysql_commerce.py:86-118 | all calls of a user under one non-empty key return the same ticket |
| `Tickets.TicketsAreRequested` | src/shopagent/adapters/mysql_commerce.py:91-98 | every stored ticket says what one of the calls asked for, with the order number in upper case |
| `Tickets.ReturnsItsTicket` | src/shopagent/adapters/mysql_commerce.py:86-118 | every call returns a stored ticket of its own user and key, without a key the very one it asked for |
| `Tickets.StepRefines` | src/shopagent/adapters/mysql_commerce.py:86-118 | the step in which a call returns is one atomic create, every other step changes nothing |
| `Tickets.RefinesAtomicCreate` | src/shopagent/adapters/mysql_commerce.py:77-118 | every run of concurrent calls is a run of atomic calls with the same tickets and results |
| `Calibration.Evaluate` | src/shopagent/evaluation.py:201-219 | the counters of one threshold are the sizes of the three sets of cases |
| `Calibration.RowCounts` | src/shopagent/evaluation.py:201-219 | false accepts are the answered cases that should be handed off, false handoffs the unanswered ones that should be answered, and the cost weighs each by its own cost |
| `Calibration.MinimumCost` | src/shopagent/evaluation.py:221 | a cost that occurs and that no row undercuts |
| `Calibration.Highest` | src/shopagent/evaluation.py:230 | a row whose threshold no other exceeds |
| `Calibration.Select` | src/shopagent/evaluation.py:222-229 | exactly the rows that satisfy the condition |
| `Calibration.WeakestPositive` | src/shopagent/evaluation.py:223-228 | the lowest confidence among the correctly classified automatable cases |
| `Calibration.Calibrate` | src/shopagent/evaluation.py:199-230 | one row per threshold, and the recommended one: cheapest, then highest at or below the safety ceiling if there is one |
| `Calibration.VerdictsPartition` | src/shopagent/evaluation.py:204-209 | correct routes, false accepts and false handoffs add up to the cases |
| `Calibration.ThresholdTradeOff` | src/shopagent/evaluation.py:200-209 | a higher threshold never has more false accepts nor fewer false handoffs |
| `Calibration.RecommendationIsSafe` | src/shopagent/evaluation.py:223-230 | a recommendation at or below the ceiling leaves every correctly classified automatable case the margin |
| `Calibration.RecommendationWithoutPositives` | src/shopagent/evaluation.py:228-230 | without a correctly classified automatable case the ceiling is 0.80 |
| `Calibration.RecommendationIsUnique` | src/shopagent/evaluation.py:230 | the recommended threshold is unique |
| `Calibration.PercentileIsNearestRank` | src/shopagent/evaluation.py:252-255 | the percentile is one of the values, at least the share of values do not exceed it, and fewer lie below it |
| `Calibration.SortedSorts` | src/shopagent/evaluation.py:253 | sorted, of the same length, with the same elements |
| `Redaction.LongNumberMatchIsTheRun` | src/shopagent/security/redaction.py:10 | a long-number match extends to the end of its run of digits |
| `Redaction.LongNumbersGo` | src/shopagent/security/redaction.py:23 | the long-number pass leaves no run of eleven or more digits |
| `Redaction.NumberIsMasked` | src/shopagent/security/redaction.py:20-23 | a mobile number of eleven digits, or a number of eleven or more, shows its first three and last four digits and four stars between; other numbers stay, and the text around is treated as if it stood alone |
| `Redaction.BelowMeans` | src/shopagent/security/redaction.py:10 | the recursive bound on runs says that wherever a run starts it is short |
| `Redaction.PassesAreIdempotent` | src/shopagent/security/redaction.py:20-24 | each numeric pass leaves its own output alone, for every text |
| `Redaction.ShortRunsAreLeftAlone` | src/shopagent/security/redaction.py:5-11 | where no run reaches eleven digits no numeric pass changes anything |
| `Redaction.IdCardPassIsIdle` | src/shopagent/security/redaction.py:23-24 | after the long-number pass the identity-card pass changes nothing |
| `Redaction.MaskingKeepsRunsShort` | src/shopagent/security/redaction.py:25-26 | replacing parts of a text by masks without digits never lengthens a run |
| `Redaction.RedactedHasNoLongNumber` | src/shopagent/security/redaction.py:18-27 | no redacted text has a run of eleven or more digits |
| `Redaction.RedactedIsNumericallyStable` | src/shopagent/security/redaction.py:18-27 | the numeric passes change nothing in a redacted text |

## Left out

- HTTP, SSE, MCP and A2A wire formats, static pages and settings validation: plumbing over libraries.
- The SQL engine, the Redis server, string widths and collations, connection pools: a table with a unique constraint and a keyed map stand for them. The 60-second lease of the Redis lock can expire during a turn; serialisation is stated for the in-memory lock.
- Sessions.SessionsSerialise: says nothing of a session in which a turn has undone a clear until it is cleared or expires, since what is stored there is not what was committed; `Sessions.ClearIsUndoneIff` and `Sessions.UndoneIff` say exactly when that is. The limit is not negative, by `Sessions.TruncationComposesIff`.
- Session context (product, order, last intents) and time stamps of messages.
- Tokens.IssueThenVerify: JSON is assumed to round-trip on the payload; HMAC is an arbitrary function, so nothing is said about forging.
- Base64Url.RoundTrip: text outside the alphabet, which the source's decoder skips, is refused by the model's decoder; only signed text reaches it.
- RedisMemory.DataKeyInjective: assumes that SHA-256 does not collide on the sessions in use.
- Random identifiers (record, candidate, ticket and event identifiers are cut to 10 or 12 hexadecimal digits) are never drawn twice in the model.
- Identifiers, payloads and creation times of audit events; the stores' list, task and dashboard queries.
- FeedbackLoop.FeedbackLoopService.Review: an upsert that takes effect only after its caller saw it fail, and a repository that itself raises a policy violation, are not modelled.
- The prompt-injection patterns and the text of the name, address, email and order patterns: arbitrary predicates and text functions, for the masks after the numbers only that they contain no digit.
- Retrieval.Score: floats are reals, `lower` works character by character, and the rounding of a hit's score to four places is left out. The vector backend is left out.
- Calibration.Calibrate: the accuracy ratio, rounded for display, and the classification of the cases.
- ParallelExecution.PlansReportAsInSequence: an agent's reply is a function of its task and request; a gather cancelled from outside is left out, and so is the refusal of a message before it is planned (service.py:103-112). An empty plan, which `handle` cannot answer, finishes without an outcome.
- ParallelExecution.BoundedAgents: the requests in progress belong to different sessions; those of one session wait for its lock, which `Sessions` models.
- Agents' wording, keyword rules and language models: classifier and agents are arbitrary functions.
- Aliasing of handed-out objects: the operations and memory stores hand out copies, but mock_knowledge.py:76-79 and mock_commerce.py:57-58 return the stored objects. The model's values are copies throughout; no caller modelled here changes an object it was handed by those two.
