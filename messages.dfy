/**
 * The message record the client keeps for each row of the conversation, the
 * partial updates the live events merge into it (`{ ...msg, ...updates }`),
 * and the events the client emits on the live connection.
 *
 * JavaScript's missing fields are modelled as follows: a missing `content`,
 * `senderName` or `mediaUrl` is the empty string; a missing `readBy` is [];
 * a missing or unrecognised `status` is `Unset`; a missing `type` is
 * `Untyped`. Where the code only tests truthiness, "" and a missing value
 * behave alike; the bubble's editor is the one place where they differ.
 */
module Messages {
  import opened Wrappers

  /** The `type` field. */
  datatype Kind = Text | Image | Video | Voice | File | Poll | Untyped

  /** The `status` field of one's own outgoing message. */
  datatype Status = Sent | Delivered | Read | Unset

  datatype Reaction = Reaction(emoji: string, count: int)

  datatype PollOption = PollOption(text: string, votes: seq<string>)
  datatype PollData = PollData(question: string, options: seq<PollOption>)

  /** The denormalised snapshot of the message being answered (`replyTo`). */
  datatype ReplyRef = ReplyRef(messageId: string, content: string, senderName: string,
                               kind: Kind, mediaUrl: string)

  /** What the composer holds while the user is answering a message (`replyingTo`). */
  datatype ReplyDraft = ReplyDraft(messageId: string, content: string, senderName: string)

  datatype Message = Message(
    messageId: string,
    senderId: string,
    senderName: string,
    kind: Kind,
    content: string,
    timestamp: int,
    status: Status,
    isEdited: bool,
    editedAt: Option<int>,
    isDeletedForEveryone: bool,
    reactions: seq<Reaction>,
    poll: Option<PollData>,
    replyTo: Option<ReplyRef>,
    readBy: seq<string>,
    mediaUrl: string,
    duration: int)

  /**
   * The `updates` object passed to `updateMessage`: each field the object
   * carries is `Some`, each it does not carry is `None`. Identity fields
   * (`messageId`, `senderId`, ...) are never part of an update.
   */
  datatype Patch = Patch(
    content: Option<string>,
    isEdited: Option<bool>,
    editedAt: Option<Option<int>>,
    isDeletedForEveryone: Option<bool>,
    status: Option<Status>,
    reactions: Option<seq<Reaction>>,
    poll: Option<Option<PollData>>)

  const NoUpdates: Patch := Patch(None, None, None, None, None, None, None)

  /** `{ ...m, ...p }`: the fields `p` carries replace those of `m`; all others are kept. */
  function Merge(m: Message, p: Patch): Message {
    m.(content := p.content.GetOr(m.content),
       isEdited := p.isEdited.GetOr(m.isEdited),
       editedAt := p.editedAt.GetOr(m.editedAt),
       isDeletedForEveryone := p.isDeletedForEveryone.GetOr(m.isDeletedForEveryone),
       status := p.status.GetOr(m.status),
       reactions := p.reactions.GetOr(m.reactions),
       poll := p.poll.GetOr(m.poll))
  }

  /** Spreading `p` and then `q` is spreading one object whose keys are those of both, `q`'s winning. */
  function Then(p: Patch, q: Patch): Patch {
    Patch(if q.content.Some? then q.content else p.content,
          if q.isEdited.Some? then q.isEdited else p.isEdited,
          if q.editedAt.Some? then q.editedAt else p.editedAt,
          if q.isDeletedForEveryone.Some? then q.isDeletedForEveryone else p.isDeletedForEveryone,
          if q.status.Some? then q.status else p.status,
          if q.reactions.Some? then q.reactions else p.reactions,
          if q.poll.Some? then q.poll else p.poll)
  }

  lemma MergeKeepsIdentity(m: Message, p: Patch)
    ensures Merge(m, p).messageId == m.messageId
    ensures Merge(m, p).senderId == m.senderId && Merge(m, p).kind == m.kind
    ensures Merge(m, p).timestamp == m.timestamp && Merge(m, p).replyTo == m.replyTo
  {
  }

  lemma MergeNoUpdates(m: Message)
    ensures Merge(m, NoUpdates) == m
  {
  }

  lemma MergeIdempotent(m: Message, p: Patch)
    ensures Merge(Merge(m, p), p) == Merge(m, p)
  {
  }

  lemma MergeThen(m: Message, p: Patch, q: Patch)
    ensures Merge(Merge(m, p), q) == Merge(m, Then(p, q))
  {
  }

  /** The events the client emits on the live connection (the thin wrappers of the socket module). */
  datatype Outbound =
    | TypingUpdate(isTyping: bool)
    | SendMessage(content: string, kind: Kind, replyTo: Option<ReplyDraft>)
    | AddReaction(messageId: string, emoji: string)
    | EditMessage(messageId: string, newContent: string)
    | DeleteMessage(messageId: string, deleteForEveryone: bool)
    | MarkRead(messageIds: seq<string>)
}
