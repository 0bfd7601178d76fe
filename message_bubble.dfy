/**
 * The decision logic of one message bubble (src/components/MessageBubble.jsx):
 * which view its content gets, how a quoted reply is previewed, which ticks
 * an own message shows, when a read receipt is sent, and what the edit,
 * delete, reply and reaction actions emit.
 */
module MessageBubble {
  import opened Wrappers
  import opened JsText
  import opened Messages
  import opened TimeFormat
  import ChatContext
  import opened SeqLemmas

  // ------------------------------------------------------------- content sniffs

  /** Content that starts like a PNG or a JPEG file in base64. */
  predicate IsBase64Image(content: string) {
    "iVBORw0KG" <= content || "/9j/" <= content
  }

  const Extensions: seq<string> := ["jpg", "jpeg", "png", "gif", "webp"]

  /** The characters `.` in a JavaScript regular expression does not match. */
  predicate IsLineTerminator(c: char) {
    c == '\n' || c == '\r' || c == '\U{2028}' || c == '\U{2029}'
  }

  predicate NoLineTerminator(s: string) {
    forall i :: 0 <= i < |s| ==> !IsLineTerminator(s[i])
  }

  predicate IsExtension(s: string) {
    exists e :: e in Extensions && CaseEq(s, e)
  }

  /**
   * What `/^https?:\/\/.*\.(jpg|jpeg|png|gif|webp)$/i` means: the scheme ends
   * at `i`, the `.*` covers `s[i..j]`, a dot sits at `j` and an extension
   * fills the rest, all letters compared without case.
   */
  predicate MatchesImageUrlAt(s: string, i: int, j: int) {
    && 0 <= i <= j < |s|
    && (CaseEq(s[..i], "http://") || CaseEq(s[..i], "https://"))
    && NoLineTerminator(s[i..j]) && s[j] == '.' && IsExtension(s[j + 1..])
  }

  ghost predicate MatchesImageUrl(s: string) {
    exists i, j :: MatchesImageUrlAt(s, i, j)
  }

  predicate HasScheme(s: string, scheme: string) {
    |scheme| <= |s| && CaseEq(s[..|scheme|], scheme)
  }

  /** `s` ends in `.` + `e` and nothing from `i` up to that dot ends a line. */
  predicate EndsWithExtension(s: string, i: nat, e: string) {
    && i + |e| + 1 <= |s|
    && s[|s| - |e| - 1] == '.' && CaseEq(s[|s| - |e|..], e)
    && NoLineTerminator(s[i..|s| - |e| - 1])
  }

  predicate ImageTail(s: string, i: nat) {
    || EndsWithExtension(s, i, "jpg") || EndsWithExtension(s, i, "jpeg")
    || EndsWithExtension(s, i, "png") || EndsWithExtension(s, i, "gif")
    || EndsWithExtension(s, i, "webp")
  }

  /** The image-link sniff, decided directly: a scheme of seven or eight characters, then an image tail. */
  predicate IsImageUrl(s: string) {
    (HasScheme(s, "http://") && ImageTail(s, 7)) || (HasScheme(s, "https://") && ImageTail(s, 8))
  }

  lemma ImageTailMatches(s: string, i: nat, e: string)
    requires e in Extensions && EndsWithExtension(s, i, e)
    requires CaseEq(s[..i], "http://") || CaseEq(s[..i], "https://")
    ensures MatchesImageUrl(s)
  {
    var j := |s| - |e| - 1;
    assert CaseEq(s[j + 1..], e);
    assert MatchesImageUrlAt(s, i, j);
  }

  /** The direct check decides exactly the strings the regular expression matches. */
  lemma ImageUrlMatchesRegex(s: string)
    ensures IsImageUrl(s) <==> MatchesImageUrl(s)
  {
    if IsImageUrl(s) {
      ImageUrlIsMatch(s);
    }
    if MatchesImageUrl(s) {
      var i, j :| MatchesImageUrlAt(s, i, j);
      MatchIsImageUrl(s, i, j);
    }
  }

  lemma ImageUrlIsMatch(s: string)
    requires IsImageUrl(s)
    ensures MatchesImageUrl(s)
  {
    var i := if HasScheme(s, "http://") && ImageTail(s, 7) then 7 else 8;
    assert CaseEq(s[..i], "http://") || CaseEq(s[..i], "https://");
    if EndsWithExtension(s, i, "jpg") { ImageTailMatches(s, i, "jpg"); }
    else if EndsWithExtension(s, i, "jpeg") { ImageTailMatches(s, i, "jpeg"); }
    else if EndsWithExtension(s, i, "png") { ImageTailMatches(s, i, "png"); }
    else if EndsWithExtension(s, i, "gif") { ImageTailMatches(s, i, "gif"); }
    else { ImageTailMatches(s, i, "webp"); }
  }

  lemma MatchIsImageUrl(s: string, i: int, j: int)
    requires MatchesImageUrlAt(s, i, j)
    ensures IsImageUrl(s)
  {
    var e :| e in Extensions && CaseEq(s[j + 1..], e);
    assert j == |s| - |e| - 1;
    assert EndsWithExtension(s, i, e);
    ExtensionIsImageTail(s, i, e);
    assert i == 7 ==> HasScheme(s, "http://");
    assert i == 8 ==> HasScheme(s, "https://");
  }

  lemma ExtensionIsImageTail(s: string, i: nat, e: string)
    requires e in Extensions && EndsWithExtension(s, i, e)
    ensures ImageTail(s, i)
  {
  }

  // ------------------------------------------------------------- content view

  /** The branches of `renderContent`. */
  datatype ContentView =
    | DeletedView | EditorView
    | VoiceView | ImageView | VideoView | FileView | PollView
    | ReplyView | Base64ImageView | ImageLinkView | PlainView

  /** The condition under which each view is a candidate. */
  predicate Applies(v: ContentView, m: Message, isEditing: bool) {
    match v
    case DeletedView => m.isDeletedForEveryone
    case EditorView => isEditing
    case VoiceView => m.kind == Voice
    case ImageView => m.kind == Image
    case VideoView => m.kind == Video
    case FileView => m.kind == File
    case PollView => m.kind == Poll
    case ReplyView => m.replyTo.Some?
    case Base64ImageView => IsBase64Image(m.content)
    case ImageLinkView => IsImageUrl(m.content)
    case PlainView => true
  }

  /** The precedence: a lower rank wins. */
  function Rank(v: ContentView): nat {
    match v
    case DeletedView => 0
    case EditorView => 1
    case VoiceView => 2
    case ImageView => 3
    case VideoView => 4
    case FileView => 5
    case PollView => 6
    case ReplyView => 7
    case Base64ImageView => 8
    case ImageLinkView => 9
    case PlainView => 10
  }

  /** `renderContent`: the first view in precedence order whose condition holds. */
  function RenderContent(m: Message, isEditing: bool): (v: ContentView)
    ensures Applies(v, m, isEditing)
    ensures forall w :: Rank(w) < Rank(v) ==> !Applies(w, m, isEditing)
  {
    if m.isDeletedForEveryone then DeletedView
    else if isEditing then EditorView
    else if m.kind == Voice then VoiceView
    else if m.kind == Image then ImageView
    else if m.kind == Video then VideoView
    else if m.kind == File then FileView
    else if m.kind == Poll then PollView
    else if m.replyTo.Some? then ReplyView
    else if IsBase64Image(m.content) then Base64ImageView
    else if IsImageUrl(m.content) then ImageLinkView
    else PlainView
  }

  /** The view is determined by the precedence: no other candidate beats all those ranked above it. */
  lemma RenderContentIsFirstApplicable(m: Message, isEditing: bool, v: ContentView)
    requires Applies(v, m, isEditing)
    requires forall w :: Rank(w) < Rank(v) ==> !Applies(w, m, isEditing)
    ensures v == RenderContent(m, isEditing)
  {
    var r := RenderContent(m, isEditing);
    assert Rank(v) <= Rank(r) && Rank(r) <= Rank(v);
  }

  /** A message deleted for everyone shows the placeholder, whatever its type, reply or edit state. */
  lemma DeletedWinsOverAll(m: Message, isEditing: bool)
    requires m.isDeletedForEveryone
    ensures RenderContent(m, isEditing) == DeletedView
  {
  }

  // ------------------------------------------------------------- reply quote

  predicate IsMediaKind(k: Kind) {
    k == Image || k == Video || k == Voice || k == File
  }

  /** The text shown for a quoted message: a fixed label for media, the quoted text otherwise. */
  function ReplyLabel(r: ReplyRef): string {
    if r.kind == Image then "\U{1F5BC}\U{FE0F} Image"
    else if r.kind == Video then "\U{1F3AC} Video"
    else if r.kind == Voice then "\U{1F3A4} Voice message"
    else if r.kind == File then "\U{1F4CE} " + (if r.mediaUrl == "" then "File" else r.mediaUrl)
    else r.content
  }

  /** The label of a media reply never shows the quoted content; the label of any other reply is that content. */
  lemma ReplyLabelOfMedia(r: ReplyRef, other: string)
    ensures IsMediaKind(r.kind) ==> ReplyLabel(r.(content := other)) == ReplyLabel(r)
    ensures !IsMediaKind(r.kind) ==> ReplyLabel(r) == r.content
  {
  }

  /** Replies to different kinds of media get different labels. */
  lemma MediaLabelsDistinct(r1: ReplyRef, r2: ReplyRef)
    requires IsMediaKind(r1.kind) && IsMediaKind(r2.kind) && r1.kind != r2.kind
    ensures ReplyLabel(r1) != ReplyLabel(r2)
  {
    assert ReplyLabel(r1)[0] != ReplyLabel(r2)[0];
  }

  /** How the quote inside a reply bubble is previewed. */
  datatype QuotePreview = QuotedImage | QuotedBase64Image | QuotedImageLink | QuotedText(text: string)

  function ReplyQuote(r: ReplyRef): (q: QuotePreview)
    ensures q.QuotedText? <==> !(r.kind == Image && r.content != "") && !IsBase64Image(r.content)
                                && !IsImageUrl(r.content)
    ensures q.QuotedText? ==> q.text == ReplyLabel(r)
  {
    if r.kind == Image && r.content != "" then QuotedImage
    else if IsBase64Image(r.content) then QuotedBase64Image
    else if IsImageUrl(r.content) then QuotedImageLink
    else QuotedText(ReplyLabel(r))
  }

  // ------------------------------------------------------------- status ticks

  datatype Tick = SentTick | DeliveredTick | ReadTick

  /** `renderStatusIndicators`: only one's own messages carry ticks. */
  function StatusTick(isSent: bool, status: Status): (t: Option<Tick>)
    ensures t.None? <==> !isSent
    ensures t == Some(ReadTick) <==> isSent && status == Read
    ensures t == Some(DeliveredTick) <==> isSent && status == Delivered
    ensures t == Some(SentTick) <==> isSent && status != Read && status != Delivered
  {
    if !isSent then None
    else if status == Read then Some(ReadTick)
    else if status == Delivered then Some(DeliveredTick)
    else Some(SentTick)
  }

  function Marks(t: Tick): string {
    if t == SentTick then "✓" else "✓✓"
  }

  /** An own message shows the double tick exactly when the other side has it, read or not. */
  lemma DoubleTickIffReceived(status: Status)
    ensures |Marks(StatusTick(true, status).value)| == 2 <==> status == Delivered || status == Read
  {
  }

  // ------------------------------------------------------------- read receipts

  /** The receipt guard: someone else's message that does not yet list the current user as a reader. */
  predicate ShouldSendReadReceipt(m: Message, currentUserId: string) {
    m.senderId != currentUserId && currentUserId !in m.readBy
  }

  /** Never a receipt for one's own message, and none once the reader is recorded. */
  lemma ReadReceiptGuard(m: Message, currentUserId: string)
    ensures !ShouldSendReadReceipt(m, m.senderId)
    ensures !ShouldSendReadReceipt(m.(readBy := m.readBy + [currentUserId]), currentUserId)
    ensures m.senderId != currentUserId && currentUserId !in m.readBy
            ==> ShouldSendReadReceipt(m, currentUserId)
  {
    assert currentUserId == (m.readBy + [currentUserId])[|m.readBy|];
  }

  const ReadReceiptDelayMs: int := 500

  // ------------------------------------------------------------- edits

  /**
   * What saving an edit emits, given whether the message is editable: nothing
   * on a locked message, otherwise the trimmed draft, and only when it differs
   * from the shown content.
   */
  function EditEmission(isEditable: bool, m: Message, draft: string): (r: seq<Outbound>)
    ensures |r| <= 1
    ensures !isEditable ==> r == []
    ensures r != [] ==> r == [EditMessage(m.messageId, Trim(draft))] && Trim(draft) != m.content
  {
    if !isEditable then []
    else if Trim(draft) != m.content then [EditMessage(m.messageId, Trim(draft))]
    else []
  }

  /** On an editable message an edit is emitted exactly when the trimmed draft differs, and once applied, saving the same draft again emits nothing. */
  lemma EditEmissionGuard(m: Message, draft: string)
    ensures |EditEmission(true, m, draft)| == (if Trim(draft) != m.content then 1 else 0)
    ensures EditEmission(true, m.(content := Trim(draft)), draft) == []
    ensures EditEmission(true, m.(content := Trim(draft)), Trim(draft)) == []
  {
    TrimIdempotent(draft);
  }

  /** The emit step of saving an editable message: the trimmed draft, only when it changed. */
  method SavedEdit(m: Message, draft: string) returns (sent: seq<Outbound>)
    ensures sent == EditEmission(true, m, draft)
  {
    var trimmed := Trim(draft);
    if trimmed != m.content {
      sent := [EditMessage(m.messageId, trimmed)];
    } else {
      sent := [];
    }
  }

  // ------------------------------------------------------------- the bubble

  /** No event in `events` edits or deletes a message. */
  predicate NoOwnerActions(events: seq<Outbound>) {
    forall i :: 0 <= i < |events| ==> !events[i].EditMessage? && !events[i].DeleteMessage?
  }

  class MessageBubble {
    const message: Message
    const isSent: bool
    const currentUserId: string
    const store: ChatContext.ChatProvider
    /** Whether the message may be edited, computed once per render from its timestamp. */
    const isEditable: bool
    var isEditing: bool
    var showOptions: bool
    var showReactions: bool
    var showReplyMenu: bool
    /** The editor's text; it starts as the content the bubble was first rendered with. */
    var editedContent: string
    /** The events emitted on the live connection, oldest first. */
    var outbox: seq<Outbound>
    /** Due times of the scheduled read receipts. */
    var pendingReceipts: seq<int>

    /**
     * The options button, and with it the Edit and Delete items, is rendered
     * only on the user's own messages: a received bubble never has its menu or
     * its editor open and never emits an edit or a delete.
     */
    predicate Valid()
      reads this
    {
      !isSent ==> !showOptions && !isEditing && NoOwnerActions(outbox)
    }

    constructor (m: Message, sent: bool, userId: string, s: ChatContext.ChatProvider)
      ensures Valid()
      ensures message == m && isSent == sent && currentUserId == userId && store == s
      ensures isEditable == EditableTime(m.timestamp).isEditable
      ensures !isEditing && !showOptions && !showReactions && !showReplyMenu
      ensures editedContent == m.content && outbox == [] && pendingReceipts == []
    {
      message := m;
      isSent := sent;
      currentUserId := userId;
      store := s;
      isEditable := EditableTime(m.timestamp).isEditable;
      isEditing := false;
      showOptions := false;
      showReactions := false;
      showReplyMenu := false;
      editedContent := m.content;
      outbox := [];
      pendingReceipts := [];
    }

    function View(): ContentView
      reads this
    {
      RenderContent(message, isEditing)
    }

    function Ticks(): Option<Tick> {
      StatusTick(isSent, message.status)
    }

    /** The read-receipt effect: schedules a receipt half a second later when the guard holds. */
    method ReadReceiptEffect(now: int)
      requires Valid()
      modifies this`pendingReceipts
      ensures Valid()
      ensures pendingReceipts == old(pendingReceipts)
              + (if ShouldSendReadReceipt(message, currentUserId) then [now + ReadReceiptDelayMs] else [])
    {
      if message.senderId != currentUserId && currentUserId !in message.readBy {
        pendingReceipts := pendingReceipts + [now + ReadReceiptDelayMs];
      }
    }

    /** A scheduled receipt fires: the message id is sent as a one-element read batch. */
    method FireReadReceipt(k: nat)
      requires Valid() && k < |pendingReceipts|
      modifies this`pendingReceipts, this`outbox
      ensures Valid()
      ensures pendingReceipts == old(pendingReceipts[..k] + pendingReceipts[k + 1..])
      ensures outbox == old(outbox) + [MarkRead([message.messageId])]
    {
      pendingReceipts := pendingReceipts[..k] + pendingReceipts[k + 1..];
      outbox := outbox + [MarkRead([message.messageId])];
    }

    /** The reaction button opens or closes the reaction picker. */
    method ToggleReactions()
      requires Valid()
      modifies this`showReactions
      ensures Valid() && showReactions == !old(showReactions)
    {
      showReactions := !showReactions;
    }

    /** A pick in the reaction picker, which is shown only while open: the reaction is emitted and the picker closes. */
    method HandleAddReaction(emoji: string)
      requires Valid() && showReactions
      modifies this`outbox, this`showReactions
      ensures Valid()
      ensures outbox == old(outbox) + [AddReaction(message.messageId, emoji)]
      ensures !showReactions
    {
      outbox := outbox + [AddReaction(message.messageId, emoji)];
      showReactions := false;
    }

    /** The "more options" button, rendered on sent messages only, toggles the menu. */
    method ToggleOptions()
      requires Valid() && isSent
      modifies this`showOptions
      ensures Valid()
      ensures showOptions == !old(showOptions)
    {
      showOptions := !showOptions;
    }

    /**
     * The menu's Edit item, rendered only while the menu is open on an editable
     * message of one's own: the editor opens on the draft as it was last left,
     * and the menu stays open.
     */
    method OpenEditor()
      requires Valid() && isSent && showOptions && isEditable
      modifies this`isEditing
      ensures Valid() && isEditing
    {
      isEditing := true;
    }

    /** Typing in the editor, which is shown only in the editor view, replaces the draft. */
    method EditDraft(value: string)
      requires Valid() && View() == EditorView
      modifies this`editedContent
      ensures Valid()
      ensures editedContent == value
    {
      editedContent := value;
    }

    /** Cancel closes the editor and keeps the draft. */
    method CancelEditing()
      requires Valid() && View() == EditorView
      modifies this`isEditing
      ensures Valid() && !isEditing
    {
      isEditing := false;
    }

    /** Save in the editor: on an editable message, emits the trimmed draft only when it changed and closes the editor and the menu. */
    method HandleEditMessage()
      requires Valid() && View() == EditorView
      modifies this`outbox, this`isEditing, this`showOptions
      ensures Valid()
      ensures outbox == old(outbox) + EditEmission(isEditable, message, old(editedContent))
      ensures isEditable ==> !isEditing && !showOptions
      ensures !isEditable ==> isEditing == old(isEditing) && showOptions == old(showOptions)
    {
      if isEditable {
        var sent := SavedEdit(message, editedContent);
        outbox := outbox + sent;
        isEditing := false;
        showOptions := false;
      } else {
        ConcatEmpty(outbox);
      }
    }

    /**
     * Delete, an item of the open menu on one's own message, behind `confirm`
     * (whose answer is `confirmed`): the for-everyone flag is passed on unchanged.
     */
    method HandleDeleteMessage(forEveryone: bool, confirmed: bool)
      requires Valid() && isSent && showOptions
      modifies this`outbox, this`showOptions
      ensures Valid()
      ensures confirmed ==> outbox == old(outbox) + [DeleteMessage(message.messageId, forEveryone)] && !showOptions
      ensures !confirmed ==> outbox == old(outbox) && showOptions == old(showOptions)
    {
      if confirmed {
        outbox := outbox + [DeleteMessage(message.messageId, forEveryone)];
        showOptions := false;
      }
    }

    /** Reply: the composer is given the id, the content and the sender's name, or 'Unknown'. */
    method HandleReply()
      requires Valid()
      modifies store`replyingTo, this`showReplyMenu
      ensures Valid()
      ensures store.replyingTo == Some(ReplyDraft(message.messageId, message.content,
                                                  if message.senderName == "" then "Unknown" else message.senderName))
      ensures !showReplyMenu
    {
      store.replyingTo := Some(ReplyDraft(message.messageId, message.content,
                                          if message.senderName == "" then "Unknown" else message.senderName));
      showReplyMenu := false;
    }
  }

  /** A draft abandoned with Cancel is what the editor shows when it is opened again. */
  method AbandonedDraftReturns(m: Message, typed: string) returns (shown: string)
    requires !m.isDeletedForEveryone
    ensures shown == typed
  {
    var store := new ChatContext.ChatProvider();
    var bubble := new MessageBubble(m, true, m.senderId, store);
    bubble.ToggleOptions();
    bubble.OpenEditor();
    bubble.EditDraft(typed);
    bubble.CancelEditing();
    bubble.OpenEditor();
    assert bubble.isEditing;
    shown := bubble.editedContent;
  }

  /** Whatever happened to it, a bubble showing a received message has emitted no edit and no delete. */
  lemma ReceivedBubbleNeverEditsOrDeletes(b: MessageBubble)
    requires b.Valid() && !b.isSent
    ensures forall e :: e in b.outbox ==> !e.EditMessage? && !e.DeleteMessage?
  {
    forall e | e in b.outbox
      ensures !e.EditMessage? && !e.DeleteMessage?
    {
      var i :| 0 <= i < |b.outbox| && b.outbox[i] == e;
    }
  }
}
