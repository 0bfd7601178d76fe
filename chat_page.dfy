/**
 * The live-event reconciliation of the chat page (src/pages/ChatPage.jsx):
 * the handlers registered by the setup effect, which turn each inbound event
 * into a store mutation or a presence-map update, the per-user typing decay
 * timers, the initial history load, and the typing banner text.
 *
 * Time is explicit: `now` is the page's clock, a pending `setTimeout`
 * callback is an entry of `timers`, and the scheduler fires the earliest one
 * (`FireDecay`) or lets time pass up to it (`AdvanceClock`).
 */
module ChatPage {
  import opened Wrappers
  import opened JsText
  import opened Messages
  import opened ChatContext

  /** How long after a typing event the typing flag is cleared. */
  const TypingDecayMs: int := 16000
  const DeletedText: string := "[This message was deleted]"
  const PreviewLength: nat := 50

  /** A browser notification raised for an incoming message; the preview is a JavaScript string, so code units. */
  datatype Notice = Notice(senderName: string, preview: seq<CodeUnit>)

  /** A pending typing-decay callback: at `due`, set `typingStatus[userId]` to false. */
  datatype Decay = Decay(userId: string, due: int)

  /**
   * The notification for a received message: the sender's name or 'User', and
   * the first 50 UTF-16 code units of the content, or 'New message' when there
   * is no content. A character beyond U+FFFF counts as two units, and the cut
   * can fall between them.
   */
  function NotificationFor(m: Message): (n: Notice)
    ensures n.senderName == (if m.senderName == "" then "User" else m.senderName)
    ensures m.content == "" ==> n.preview == Utf16("New message")
    ensures m.content != "" ==> n.preview <= Utf16(m.content)
                                && |n.preview| == Min(|Utf16(m.content)|, PreviewLength)
  {
    var preview := Substring(m.content, PreviewLength);
    Notice(if m.senderName == "" then "User" else m.senderName,
           if preview == [] then Utf16("New message") else preview)
  }

  /** For content without characters beyond U+FFFF the preview is its first 50 characters. */
  lemma PreviewOfBmpContent(m: Message)
    requires m.content != ""
    requires forall i :: 0 <= i < |m.content| ==> IsBmp(m.content[i])
    ensures NotificationFor(m).preview == Utf16(m.content[..Min(|m.content|, PreviewLength)])
  {
    SubstringOfBmp(m.content, PreviewLength);
  }

  /** Forty-nine units of text followed by an emoji: the preview ends with half of the emoji's surrogate pair. */
  lemma PreviewCanSplitSurrogatePair(m: Message, text: string, c: char)
    requires m.content == text + [c] && |Utf16(text)| == PreviewLength - 1 && !IsBmp(c)
    ensures NotificationFor(m).preview == Utf16(text) + [Utf16Char(c)[0]]
    ensures IsHighSurrogate(NotificationFor(m).preview[PreviewLength - 1])
  {
    SubstringSplitsPair(text, c);
  }

  function Min(a: int, b: int): int { if a < b then a else b }

  // ----------------------------------------------------- the patches the events apply

  function ReactionsPatch(reactions: seq<Reaction>): Patch {
    NoUpdates.(reactions := Some(reactions))
  }

  function PollPatch(poll: Option<PollData>): Patch {
    NoUpdates.(poll := Some(poll))
  }

  function EditPatch(content: string, isEdited: bool, editedAt: Option<int>): Patch {
    NoUpdates.(content := Some(content), isEdited := Some(isEdited), editedAt := Some(editedAt))
  }

  /** The tombstone of a message deleted for everyone. */
  const TombstonePatch: Patch := NoUpdates.(isDeletedForEveryone := Some(true), content := Some(DeletedText))

  const ReadPatch: Patch := NoUpdates.(status := Some(Read))

  /** An edit event rewrites exactly the content and the two edit fields. */
  lemma EditChangesOnlyEditFields(m: Message, content: string, isEdited: bool, editedAt: Option<int>)
    ensures Merge(m, EditPatch(content, isEdited, editedAt))
            == m.(content := content, isEdited := isEdited, editedAt := editedAt)
  {
  }

  /** Reaction and poll events touch only their own field. */
  lemma ReactionAndPollTouchOneField(m: Message, rs: seq<Reaction>, poll: Option<PollData>)
    ensures Merge(m, ReactionsPatch(rs)) == m.(reactions := rs)
    ensures Merge(m, PollPatch(poll)) == m.(poll := poll)
  {
  }

  /** Deleting for everyone keeps the row at its position, flagged, with the placeholder text. */
  lemma TombstoneKeepsRow(ms: seq<Message>, id: string, k: nat)
    requires k < |ms| && ms[k].messageId == id
    ensures |PatchById(ms, id, TombstonePatch)| == |ms|
    ensures PatchById(ms, id, TombstonePatch)[k]
            == ms[k].(isDeletedForEveryone := true, content := DeletedText)
  {
  }

  /** What a read batch does to the list: every entry whose id is listed is marked read, the rest are untouched. */
  function WithReadMarks(ms: seq<Message>, ids: seq<string>): seq<Message> {
    seq(|ms|, k requires 0 <= k < |ms| =>
      if ms[k].messageId in ids then ms[k].(status := Read) else ms[k])
  }

  lemma MarkReadStep(ms: seq<Message>, ids: seq<string>, i: nat)
    requires i < |ids|
    ensures PatchById(WithReadMarks(ms, ids[..i]), ids[i], ReadPatch) == WithReadMarks(ms, ids[..i + 1])
  {
    var a := PatchById(WithReadMarks(ms, ids[..i]), ids[i], ReadPatch);
    var b := WithReadMarks(ms, ids[..i + 1]);
    assert forall id :: id in ids[..i + 1] <==> id in ids[..i] || id == ids[i] by {
      assert ids[..i + 1] == ids[..i] + [ids[i]];
    }
    forall k | 0 <= k < |ms| ensures a[k] == b[k] {
    }
  }

  lemma MarkReadNone(ms: seq<Message>)
    ensures WithReadMarks(ms, []) == ms
  {
  }

  /** The order (and repetition) of the ids in a read batch does not matter. */
  lemma MarkReadOrderFree(ms: seq<Message>, ids1: seq<string>, ids2: seq<string>)
    requires forall id :: id in ids1 <==> id in ids2
    ensures WithReadMarks(ms, ids1) == WithReadMarks(ms, ids2)
  {
  }

  // ------------------------------------------------------------- the typing banner

  /** The other member of the two-person room. */
  function OtherUser(currentUserId: string): (r: string)
    ensures r != currentUserId && (r == "1111" || r == "6910")
  {
    if currentUserId == "1111" then "6910" else "1111"
  }

  function DisplayName(userId: string): string {
    if userId == "1111" then "Abhinav \U{1F380}"
    else if userId == "6910" then "Adiuu Ji \U{1F497}\U{1F380}"
    else userId
  }

  /** `getTypingMessage`: nothing unless the other user is typing; the long-typing text as soon as any decay timer was ever recorded for them. */
  function TypingMessage(currentUserId: string, typingStatus: map<string, bool>,
                         typingTimeout: map<string, nat>): Option<string>
  {
    var other := OtherUser(currentUserId);
    if other !in typingStatus || !typingStatus[other] then None
    else if other in typingTimeout then
      Some("I think " + DisplayName(other) + " is writing Mahabharat/Ramayan")
    else Some(DisplayName(other) + " is typing")
  }

  lemma TypingMessageShownIffTyping(currentUserId: string, typingStatus: map<string, bool>,
                                    typingTimeout: map<string, nat>)
    ensures var other := OtherUser(currentUserId);
            TypingMessage(currentUserId, typingStatus, typingTimeout).Some?
            <==> other in typingStatus && typingStatus[other]
    ensures OtherUser(currentUserId) != currentUserId
  {
  }

  /** Once a decay timer was recorded for the other user, the plain "is typing" text never comes back. */
  lemma LongTypingTextSticks(currentUserId: string, typingStatus: map<string, bool>,
                             typingTimeout: map<string, nat>)
    requires OtherUser(currentUserId) in typingTimeout
    ensures TypingMessage(currentUserId, typingStatus, typingTimeout)
            != Some(DisplayName(OtherUser(currentUserId)) + " is typing")
  {
    var name := DisplayName(OtherUser(currentUserId));
    var long := "I think " + name + " is writing Mahabharat/Ramayan";
    assert long[0] == 'I';
    if name != [] {
      assert (name + " is typing")[0] == name[0];
      assert |long| != |name + " is typing"|;
    }
  }

  // ----------------------------------------------------------------- the page

  /** The handle `clearTimeout` is given for `userId`, as a set: empty when none was recorded. */
  function HandleOf(handles: map<string, nat>, userId: string): (r: set<nat>)
    ensures userId in handles ==> r == {handles[userId]}
    ensures userId !in handles ==> r == {}
  {
    if userId in handles then {handles[userId]} else {}
  }

  class ChatPage {
    const ctx: ChatProvider
    const currentUserId: string
    /**
     * The `typingTimeout` map the typing handler closed over. The setup
     * effect runs once (its dependencies never change), when the map is
     * still empty, so the handler's `clearTimeout` never finds a handle.
     */
    const capturedTypingTimeout: map<string, nat>
    /** The `typingTimeout` state: the latest decay handle recorded per user. */
    var typingTimeout: map<string, nat>
    /** The pending decay callbacks, by handle. */
    var timers: map<nat, Decay>
    var nextHandle: nat
    var now: int
    var notifications: seq<Notice>

    ghost predicate Valid()
      reads this
    {
      && capturedTypingTimeout == map[]
      && nextHandle >= 1
      && (forall h :: h in timers ==> 1 <= h < nextHandle && now <= timers[h].due)
      && (forall u :: u in typingTimeout ==> 1 <= typingTimeout[u] < nextHandle)
    }

    constructor (store: ChatProvider, userId: string, start: int)
      ensures Valid() && ctx == store && currentUserId == userId && now == start
      ensures typingTimeout == map[] && timers == map[] && notifications == [] && nextHandle == 1
    {
      ctx := store;
      currentUserId := userId;
      capturedTypingTimeout := map[];
      typingTimeout := map[];
      timers := map[];
      nextHandle := 1;
      now := start;
      notifications := [];
    }

    /** `message:received`: always offered to the store; a notification only for the other user's messages. */
    method OnMessageReceived(m: Message)
      modifies ctx`messages, this`notifications
      ensures ctx.messages == Append(old(ctx.messages), m)
      ensures notifications == old(notifications)
              + (if m.senderId != currentUserId then [NotificationFor(m)] else [])
    {
      ctx.AddMessage(m);
      if m.senderId != currentUserId {
        notifications := notifications + [NotificationFor(m)];
      }
    }

    method OnUserOnline(userId: string)
      modifies ctx`onlineStatus
      ensures ctx.onlineStatus == old(ctx.onlineStatus)[userId := true]
    {
      ctx.onlineStatus := ctx.onlineStatus[userId := true];
    }

    /** `user:offline`: the last-seen time is recorded only when the event carries one. */
    method OnUserOffline(userId: string, lastSeen: Option<int>)
      modifies ctx`onlineStatus, ctx`lastSeenStatus
      ensures ctx.onlineStatus == old(ctx.onlineStatus)[userId := false]
      ensures ctx.lastSeenStatus == if IsTruthy(lastSeen)
                                    then old(ctx.lastSeenStatus)[userId := lastSeen.value]
                                    else old(ctx.lastSeenStatus)
    {
      ctx.onlineStatus := ctx.onlineStatus[userId := false];
      if IsTruthy(lastSeen) {
        ctx.lastSeenStatus := ctx.lastSeenStatus[userId := lastSeen.value];
      }
    }

    /**
     * `typing:update`: set the flag; when typing starts, schedule its decay
     * 16 s from now and record the handle. No earlier decay is cancelled.
     */
    method OnTypingUpdate(userId: string, isTyping: bool)
      requires Valid()
      modifies this`timers, this`nextHandle, this`typingTimeout, ctx`typingStatus
      ensures Valid()
      ensures ctx.typingStatus == old(ctx.typingStatus)[userId := isTyping]
      ensures !isTyping ==> timers == old(timers) && typingTimeout == old(typingTimeout)
      ensures isTyping ==>
                var h := old(nextHandle);
                && h !in old(timers)
                && timers == old(timers)[h := Decay(userId, now + TypingDecayMs)]
                && typingTimeout == old(typingTimeout)[userId := h]
    {
      timers := timers - HandleOf(capturedTypingTimeout, userId);
      ctx.typingStatus := ctx.typingStatus[userId := isTyping];
      if isTyping {
        var h := nextHandle;
        timers := timers[h := Decay(userId, now + TypingDecayMs)];
        nextHandle := nextHandle + 1;
        typingTimeout := typingTimeout[userId := h];
      }
    }

    /** Time passes, up to (at most) the earliest pending decay. */
    method AdvanceClock(t: int)
      requires Valid() && now <= t
      requires forall h :: h in timers ==> t <= timers[h].due
      modifies this`now
      ensures Valid() && now == t
    {
      now := t;
    }

    /** The earliest pending decay fires: its user's typing flag drops; `typingTimeout` keeps its entry. */
    method FireDecay(h: nat)
      requires Valid() && h in timers
      requires forall g :: g in timers ==> timers[h].due <= timers[g].due
      modifies this`now, this`timers, ctx`typingStatus
      ensures Valid()
      ensures now == old(timers)[h].due && timers == old(timers) - {h}
      ensures ctx.typingStatus == old(ctx.typingStatus)[old(timers)[h].userId := false]
    {
      var d := timers[h];
      now := d.due;
      timers := timers - {h};
      ctx.typingStatus := ctx.typingStatus[d.userId := false];
    }

    method OnReactionUpdated(messageId: string, reactions: seq<Reaction>)
      modifies ctx`messages
      ensures ctx.messages == PatchById(old(ctx.messages), messageId, ReactionsPatch(reactions))
    {
      ctx.UpdateMessage(messageId, ReactionsPatch(reactions));
    }

    method OnPollUpdated(messageId: string, poll: Option<PollData>)
      modifies ctx`messages
      ensures ctx.messages == PatchById(old(ctx.messages), messageId, PollPatch(poll))
    {
      ctx.UpdateMessage(messageId, PollPatch(poll));
    }

    method OnMessageEdited(messageId: string, content: string, isEdited: bool, editedAt: Option<int>)
      modifies ctx`messages
      ensures ctx.messages == PatchById(old(ctx.messages), messageId, EditPatch(content, isEdited, editedAt))
    {
      ctx.UpdateMessage(messageId, EditPatch(content, isEdited, editedAt));
    }

    /** `message:deleted`: a tombstone for `deletedFor === 'everyone'`, removal for any other value. */
    method OnMessageDeleted(messageId: string, deletedFor: string)
      modifies ctx`messages
      ensures deletedFor == "everyone" ==>
                ctx.messages == PatchById(old(ctx.messages), messageId, TombstonePatch)
      ensures deletedFor != "everyone" ==>
                ctx.messages == RemoveById(old(ctx.messages), messageId)
    {
      if deletedFor == "everyone" {
        ctx.UpdateMessage(messageId, TombstonePatch);
      } else {
        ctx.DeleteMessage(messageId);
      }
    }

    /** `message:read`: one status patch per listed id, in list order. */
    method OnMessageRead(messageIds: seq<string>)
      modifies ctx`messages
      ensures ctx.messages == WithReadMarks(old(ctx.messages), messageIds)
    {
      MarkReadNone(ctx.messages);
      var i := 0;
      while i < |messageIds|
        invariant 0 <= i <= |messageIds|
        invariant ctx.messages == WithReadMarks(old(ctx.messages), messageIds[..i])
      {
        MarkReadStep(old(ctx.messages), messageIds, i);
        ctx.UpdateMessage(messageIds[i], ReadPatch);
        i := i + 1;
      }
      assert messageIds[..i] == messageIds;
    }

    /** The initial history load: every fetched message goes through `addMessage`, in order; a failed or empty fetch changes nothing. */
    method LoadInitialMessages(fetched: Option<seq<Message>>)
      modifies ctx`messages
      ensures ctx.messages == if fetched.Some? then AddAll(old(ctx.messages), fetched.value)
                              else old(ctx.messages)
    {
      if fetched.Some? && |fetched.value| > 0 {
        var batch := fetched.value;
        var i := 0;
        while i < |batch|
          invariant 0 <= i <= |batch|
          invariant AddAll(old(ctx.messages), batch) == AddAll(ctx.messages, batch[i..])
        {
          assert batch[i..][1..] == batch[i + 1..];
          ctx.AddMessage(batch[i]);
          i := i + 1;
        }
      }
    }

    function TypingBanner(): Option<string>
      reads this, ctx
    {
      TypingMessage(currentUserId, ctx.typingStatus, typingTimeout)
    }
  }

  /**
   * The typing flag of a user who starts typing at time 0 and again at
   * 10000 is cleared at 16000 by the first decay, although the second event
   * came only 6000 earlier: a later typing event does not push back an
   * earlier decay. Meanwhile the banner shows the long-typing text.
   */
  method RenewedTypingStillDecaysEarly() returns (bannerBefore: Option<string>, typingAt16s: bool, clock: int)
    ensures bannerBefore == Some("I think " + DisplayName("6910") + " is writing Mahabharat/Ramayan")
    ensures !typingAt16s && clock == 16000
  {
    var store := new ChatProvider();
    var page := new ChatPage(store, "1111", 0);
    page.OnTypingUpdate("6910", true);
    page.AdvanceClock(10000);
    page.OnTypingUpdate("6910", true);
    bannerBefore := page.TypingBanner();
    page.FireDecay(1);
    typingAt16s := store.typingStatus["6910"];
    clock := page.now;
  }
}
