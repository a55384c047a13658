/** Items, outcomes and commands of the driver outbox
    (packages/driver-outbox/src/outbox.types.ts). Instants are integer milliseconds. */
module OutboxTypes {
  import opened Sequences

  type Instant = int

  /** Row ids and event keys are only ever compared. There are some of each. */
  type RowId(==, !new, 00)
  type EventKey(==, !new, 00)

  datatype OutboxItemKind = OBSERVATION | PROOF

  datatype OutboxItemState = PENDING | BLOCKED

  datatype CaptureMode = LIVE_CAMERA | GALLERY | UNKNOWN

  datatype OutboxAttachment = OutboxAttachment(uri: string, contentType: string, captureMode: CaptureMode)

  /** The normalised request body; the queue never looks inside it. */
  datatype Payload = Payload(json: string)

  datatype OutboxItem = OutboxItem(
    id: RowId,
    clientEventId: EventKey,
    kind: OutboxItemKind,
    capturedAt: Instant,
    payload: Payload,
    attachments: seq<OutboxAttachment>,
    attempts: nat,
    nextAttemptAt: Instant,
    state: OutboxItemState,
    lastError: Option<string>)
  {
    /** The frozen part of a row: everything the server is told about it, and its kind. */
    function Content(): EventContent {
      EventContent(clientEventId, kind, capturedAt, payload, attachments)
    }
  }

  datatype EventContent = EventContent(
    clientEventId: EventKey,
    kind: OutboxItemKind,
    capturedAt: Instant,
    payload: Payload,
    attachments: seq<OutboxAttachment>)

  datatype EnqueueCommand = EnqueueCommand(
    clientEventId: EventKey,
    kind: OutboxItemKind,
    capturedAt: Instant,
    payload: Payload,
    attachments: Option<seq<OutboxAttachment>>)

  datatype SendOutcome = ACCEPTED | RETRY(reason: string) | REJECTED(reason: string)

  /** What awaiting `sendBatch` gives: a list of outcomes, or something thrown. */
  datatype SendResult = Returned(outcomes: seq<SendOutcome>) | Thrown(error: Thrown)

  datatype Thrown = AnError(message: string) | NotAnError

  datatype SyncStatus = SyncStatus(
    pending: nat,
    blocked: nat,
    lastAttemptAt: Option<Instant>,
    lastError: Option<string>)
}
