/** The records exchanged by the feedback loop, retrieval and the stores. */
module Domain {
  import opened Text

  datatype Result<+T, +E> = Ok(value: T) | Err(error: E)

  datatype Intent =
    | ProductSearch | ProductDetail | StockQuery | SalesPolicy | OrderQuery
    | AfterSales | Recommendation | Greeting | Unknown

  datatype Interaction = Interaction(
    traceId: string, userId: string, question: string, answer: string, intent: Intent)

  datatype Feedback = Feedback(
    id: string, traceId: string, userId: string, rating: int, comment: string,
    suggestedAnswer: string, idempotencyKey: string, candidateId: Option<string>)

  datatype Status = Pending | Publishing | Published | PublishFailed | Rejected

  datatype Candidate = Candidate(
    id: string, traceId: string, question: string, currentAnswer: string, suggestedAnswer: string,
    reason: string, domain: string, status: Status, reviewedBy: Option<string>, riskFlags: seq<string>)

  datatype AuditType =
    | FeedbackSubmitted | KnowledgePublished | KnowledgeRejected | PolicyRejected | PublishFailedEvent

  datatype AuditEvent = AuditEvent(eventType: AuditType, actorId: string, entityId: string, traceId: string)

  datatype TrustLevel = Verified | Internal | Untrusted

  datatype Document = Document(
    id: string, domain: string, title: string, content: string, keywords: seq<string>,
    version: string, source: string, tenantId: string, departments: seq<string>, channels: seq<string>,
    validFrom: Option<int>, validUntil: Option<int>, trustLevel: TrustLevel,
    approvedBy: Option<string>, contentHash: string, evidenceOnly: bool)

  /** `KnowledgeDocument.approved_by` and the other identity fields hold at most this many characters. */
  const MAX_NAME: nat := 128
}
