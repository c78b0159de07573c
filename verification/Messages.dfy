/** Messages: the value that is cloned, archived and returned, and the record that
    the store mutates in place. */
module Messages {
  import opened Wrappers
  import opened Hex

  /** The canonical text of a UUID. */
  datatype Uuid = Uuid(text: string)
  /** A Walrus quilt patch id. */
  datatype PatchId = PatchId(text: string)
  /** Nanoseconds since the epoch. */
  type Timestamp = int

  const NANOS_PER_SECOND: nat := 1_000_000_000

  /** `timestamp()`: whole seconds, rounded down. */
  function Seconds(t: Timestamp): int {
    t / NANOS_PER_SECOND
  }

  datatype Attachment = Attachment(
    storageId: string, nonce: Bytes, encryptedMetadata: Bytes, metadataNonce: Bytes)

  datatype SyncStatus = SyncPending | Synced | UpdatePending | Updated | DeletePending | Deleted

  predicate IsPending(status: SyncStatus) {
    status.SyncPending? || status.UpdatePending? || status.DeletePending?
  }

  /** The status a pending message reaches once it is archived. */
  function Target(status: SyncStatus): SyncStatus {
    match status
    case SyncPending => Synced
    case UpdatePending => Updated
    case DeletePending => Deleted
    case other => other
  }

  /** The fields that an edit replaces together. */
  datatype Content = Content(
    encryptedMsg: Bytes,
    nonce: Bytes,
    keyVersion: int,
    attachments: seq<Attachment>,
    signature: Bytes,
    publicKey: Bytes)

  datatype Message = Message(
    id: Uuid,
    groupId: string,
    order: Option<int>,
    sender: string,
    content: Content,
    createdAt: Timestamp,
    updatedAt: Timestamp,
    syncStatus: SyncStatus,
    quiltPatchId: Option<PatchId>)

  function NewMessage(id: Uuid, groupId: string, sender: string, content: Content, now: Timestamp): Message {
    Message(id, groupId, None, sender, content, now, now, SyncPending, None)
  }

  /** `order.unwrap_or(0)` */
  function OrderOf(m: Message): int {
    match m.order
    case None => 0
    case Some(o) => o
  }

  function WithOrder(m: Message, order: int): Message {
    m.(order := Some(order))
  }

  /** The message before its order is taken. */
  function Unordered(m: Message): Message {
    m.(order := None)
  }

  function MarkedForDeletion(m: Message, now: Timestamp): Message {
    m.(syncStatus := DeletePending, updatedAt := now)
  }

  function WithContent(m: Message, content: Content, now: Timestamp): Message {
    m.(content := content, syncStatus := UpdatePending, updatedAt := now)
  }

  /** A status change by the sync worker; the old patch id survives when no new one is given. */
  function WithStatus(m: Message, status: SyncStatus, patchId: Option<PatchId>, now: Timestamp): Message {
    m.(syncStatus := status, updatedAt := now,
       quiltPatchId := if patchId.Some? then patchId else m.quiltPatchId)
  }

  /** What no operation on a stored message ever changes. */
  predicate SameIdentity(m: Message, m': Message) {
    && m.id == m'.id
    && m.groupId == m'.groupId
    && m.order == m'.order
    && m.sender == m'.sender
    && m.createdAt == m'.createdAt
  }

  /** A message as it lives in the store's map. */
  class StoredMessage {
    const id: Uuid
    const groupId: string
    var order: Option<int>
    const sender: string
    var content: Content
    const createdAt: Timestamp
    var updatedAt: Timestamp
    var syncStatus: SyncStatus
    var quiltPatchId: Option<PatchId>

    /** `now` is read once: a new message was created when it was last updated. */
    constructor (id: Uuid, groupId: string, sender: string, content: Content, now: Timestamp)
      ensures Value().id == id && Value().groupId == groupId && Value().sender == sender && Value().content == content
      ensures Value().createdAt == Value().updatedAt == now
      ensures Value().order.None? && Value().syncStatus.SyncPending? && Value().quiltPatchId.None?
    {
      this.id, this.groupId, this.sender, this.content := id, groupId, sender, content;
      createdAt, updatedAt := now, now;
      order, syncStatus, quiltPatchId := None, SyncPending, None;
    }

    /** A clone. */
    function Value(): Message
      reads this
    {
      Message(id, groupId, order, sender, content, createdAt, updatedAt, syncStatus, quiltPatchId)
    }

    method SetOrder(o: int)
      modifies this
      ensures Value() == WithOrder(old(Value()), o)
    {
      order := Some(o);
    }

    method MarkForDeletion(now: Timestamp)
      modifies this
      ensures Value() == MarkedForDeletion(old(Value()), now)
    {
      syncStatus := DeletePending;
      updatedAt := now;
    }

    method UpdateContent(c: Content, now: Timestamp)
      modifies this
      ensures Value() == WithContent(old(Value()), c, now)
    {
      content := c;
      syncStatus := UpdatePending;
      updatedAt := now;
    }

    method SetSyncStatus(status: SyncStatus, patchId: Option<PatchId>, now: Timestamp)
      modifies this
      ensures Value() == WithStatus(old(Value()), status, patchId, now)
    {
      syncStatus := status;
      updatedAt := now;
      if patchId.Some? {
        quiltPatchId := patchId;
      }
    }
  }
}
