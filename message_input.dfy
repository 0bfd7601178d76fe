/**
 * The composer (src/components/MessageInput.jsx): the draft, the typing
 * indicator debounce (typing starts with the first keystroke and stops 3 s
 * after the last one), the send guard and reset, emoji insertion, and the
 * "m:ss" recording clock.
 */
module MessageInput {
  import opened Wrappers
  import opened JsText
  import opened Messages
  import opened SeqLemmas
  import ChatContext

  const TypingIdleMs: int := 3000

  /** The flag of the last typing event in an event list, if any. */
  function LastTyping(events: seq<Outbound>): Option<bool>
    decreases |events|
  {
    if events == [] then None
    else if events[|events| - 1].TypingUpdate? then Some(events[|events| - 1].isTyping)
    else LastTyping(events[..|events| - 1])
  }

  /** The last typing event of a concatenation is the later part's, when it has one. */
  lemma {:induction false} LastTypingAppend(xs: seq<Outbound>, ys: seq<Outbound>)
    ensures LastTyping(xs + ys) == if LastTyping(ys).Some? then LastTyping(ys) else LastTyping(xs)
    decreases |ys|
  {
    if ys == [] {
      assert xs + ys == xs;
    } else {
      var zs := xs + ys;
      assert zs[|zs| - 1] == ys[|ys| - 1];
      assert zs[..|zs| - 1] == xs + ys[..|ys| - 1];
      LastTypingAppend(xs, ys[..|ys| - 1]);
    }
  }

  /** Every "typing" announcement comes when the last typing announcement before it, if any, was "stopped". */
  predicate StartsAlternate(events: seq<Outbound>) {
    forall i :: 0 <= i < |events| && events[i] == TypingUpdate(true) ==> LastTyping(events[..i]) != Some(true)
  }

  /** One more event keeps the alternation, provided a "typing" only follows a "stopped" or nothing. */
  lemma AlternationExtends(events: seq<Outbound>, e: Outbound)
    requires StartsAlternate(events)
    requires e == TypingUpdate(true) ==> LastTyping(events) != Some(true)
    ensures StartsAlternate(events + [e])
  {
    var xs := events + [e];
    forall i | 0 <= i < |xs| && xs[i] == TypingUpdate(true) ensures LastTyping(xs[..i]) != Some(true) {
      if i < |events| {
        assert xs[..i] == events[..i] && xs[i] == events[i];
      } else {
        assert xs[..i] == events;
      }
    }
  }

  /** A "typing" with no "stopped" after it makes "typing" the last typing announcement. */
  lemma {:induction false} LastTypingAfterStart(xs: seq<Outbound>, i: nat)
    requires i < |xs| && xs[i] == TypingUpdate(true)
    requires forall k :: i < k < |xs| ==> xs[k] != TypingUpdate(false)
    ensures LastTyping(xs) == Some(true)
    decreases |xs|
  {
    var last := xs[|xs| - 1];
    if i < |xs| - 1 && !last.TypingUpdate? {
      LastTypingAfterStart(xs[..|xs| - 1], i);
    }
  }

  /** Between any two "typing" announcements of an alternating run there is a "stopped". */
  lemma NoTwoStartsWithoutStop(events: seq<Outbound>, i: nat, j: nat)
    requires StartsAlternate(events)
    requires i < j < |events| && events[i] == TypingUpdate(true) && events[j] == TypingUpdate(true)
    ensures exists k :: i < k < j && events[k] == TypingUpdate(false)
  {
    var before := events[..j];
    if forall k :: i < k < j ==> events[k] != TypingUpdate(false) {
      assert forall k :: i < k < |before| ==> before[k] != TypingUpdate(false);
      LastTypingAfterStart(before, i);
      assert false;
    }
  }

  // ------------------------------------------------------- the recording clock

  /** `formatRecordingTime`: whole minutes, a colon, the seconds as two digits. */
  function FormatRecordingTime(seconds: nat): (r: string)
    ensures |r| >= 4 && r[|r| - 3] == ':' && IsDigits(r[|r| - 2..])
  {
    SecondsFieldTwoDigits(seconds % 60);
    var p := PadStart2(NatToString(seconds % 60));
    var r := NatToString(seconds / 60) + ":" + p;
    assert r[|r| - 2..] == p;
    r
  }

  /** Reads an "m:ss" clock back into seconds. */
  function ParseRecordingTime(s: string): Option<nat> {
    match ReadNat(s)
    case None => None
    case Some((m, rest)) =>
      if |rest| == 3 && rest[0] == ':' && IsDigits(rest[1..]) && DigitsValue(rest[1..]) < 60
      then Some(m * 60 + DigitsValue(rest[1..]))
      else None
  }

  /** The seconds field is always exactly two digits and reads back as the remainder. */
  lemma SecondsFieldTwoDigits(r: nat)
    requires r < 60
    ensures |PadStart2(NatToString(r))| == 2
    ensures IsDigits(PadStart2(NatToString(r))) && DigitsValue(PadStart2(NatToString(r))) == r
  {
    DigitsValueOfNatToString(r);
    var d := NatToString(r);
    if r < 10 {
      assert |d| == 1;
      var p := PadStart2(d);
      assert p[..1] == "0" && p[1] == d[0];
      assert DigitsValue(p) == DigitsValue(d);
    } else {
      assert |NatToString(r / 10)| == 1;
    }
  }

  /** Every clock reading shows the number of seconds it was made from. */
  lemma RecordingTimeRoundTrip(seconds: nat)
    ensures ParseRecordingTime(FormatRecordingTime(seconds)) == Some(seconds)
  {
    var m, r := seconds / 60, seconds % 60;
    var shown := NatToString(m) + ":" + PadStart2(NatToString(r));
    assert FormatRecordingTime(seconds) == shown;
    assert ParseRecordingTime(shown) == Some(seconds) by {
      ClockRoundTrip(m, r);
      assert m * 60 + r == seconds;
    }
  }

  /** An "m:ss" reading made from whole minutes and a remainder below 60 reads back as m * 60 + r. */
  lemma ClockRoundTrip(m: nat, r: nat)
    requires r < 60
    ensures ParseRecordingTime(NatToString(m) + ":" + PadStart2(NatToString(r))) == Some(m * 60 + r)
  {
    var p := PadStart2(NatToString(r));
    var shown := NatToString(m) + ":" + p;
    assert ReadNat(shown) == Some((m, ":" + p)) by {
      ConcatAssoc(NatToString(m), ":", p);
      ReadNatOfNatToString(m, ":" + p);
    }
    assert ParseRecordingTime(shown) == Some(m * 60 + r) by {
      SecondsFieldTwoDigits(r);
      ParseAfterMinutes(shown, m, p);
    }
  }

  /** Once the minutes are read, a colon and two digits worth less than 60 complete the reading. */
  lemma ParseAfterMinutes(s: string, m: nat, p: string)
    requires ReadNat(s) == Some((m, ":" + p))
    requires |p| == 2 && IsDigits(p) && DigitsValue(p) < 60
    ensures ParseRecordingTime(s) == Some(m * 60 + DigitsValue(p))
  {
    assert (":" + p)[1..] == p;
  }

  // -------------------------------------------------------------- the composer

  class MessageInput {
    const store: ChatContext.ChatProvider
    /** The draft. */
    var message: string
    var showEmojiPicker: bool
    /** `typingTimeoutRef.current`: the due time of the pending stop-typing timer. */
    var typingTimer: Option<int>
    var now: int
    /** Typing events and the messages handed to `onSendMessage`, oldest first. */
    var outbox: seq<Outbound>

    /**
     * The announcements sent so far alternate, and while no stop-typing timer
     * is pending the last of them (if any) said "stopped".
     */
    ghost predicate Valid()
      reads this
    {
      && StartsAlternate(outbox)
      && (typingTimer.None? ==> LastTyping(outbox) != Some(true))
      && (typingTimer.Some? ==> now <= typingTimer.value)
    }

    constructor (s: ChatContext.ChatProvider, start: int)
      ensures Valid() && store == s && now == start
      ensures message == "" && !showEmojiPicker && typingTimer == None && outbox == []
    {
      store := s;
      message := "";
      showEmojiPicker := false;
      typingTimer := None;
      now := start;
      outbox := [];
    }

    /** A keystroke: "typing" is announced only when no timer is pending; the timer is always restarted. */
    method HandleInputChange(value: string)
      requires Valid()
      modifies this`message, this`outbox, this`typingTimer
      ensures Valid()
      ensures message == value && typingTimer == Some(now + TypingIdleMs)
      ensures outbox == old(outbox) + (if old(typingTimer).None? then [TypingUpdate(true)] else [])
      ensures old(typingTimer).None? ==> LastTyping(old(outbox)) != Some(true)
    {
      message := value;
      if typingTimer.None? {
        AlternationExtends(outbox, TypingUpdate(true));
        outbox := outbox + [TypingUpdate(true)];
      }
      typingTimer := Some(now + TypingIdleMs);
    }

    /** Time passes, up to (at most) the pending timer. */
    method AdvanceClock(t: int)
      requires Valid() && now <= t
      requires typingTimer.Some? ==> t <= typingTimer.value
      modifies this`now
      ensures Valid() && now == t
    {
      now := t;
    }

    /** The stop-typing timer fires: "stopped" is announced and no timer is pending any more. */
    method FireTypingTimer()
      requires Valid() && typingTimer.Some?
      modifies this`now, this`outbox, this`typingTimer
      ensures Valid()
      ensures now == old(typingTimer).value && typingTimer == None
      ensures outbox == old(outbox) + [TypingUpdate(false)]
    {
      now := typingTimer.value;
      AlternationExtends(outbox, TypingUpdate(false));
      outbox := outbox + [TypingUpdate(false)];
      LastTypingAppend(old(outbox), [TypingUpdate(false)]);
      typingTimer := None;
    }

    /**
     * Send: a blank draft does nothing. Otherwise the untrimmed draft goes out
     * as a text message with the current reply target, the draft and the
     * reply target are cleared and "stopped" is announced. The pending
     * stop-typing timer is left running.
     */
    method HandleSendMessage()
      requires Valid()
      modifies this`message, this`outbox, store`replyingTo
      ensures Valid() && typingTimer == old(typingTimer)
      ensures IsBlank(old(message)) ==>
                message == old(message) && outbox == old(outbox) && store.replyingTo == old(store.replyingTo)
      ensures !IsBlank(old(message)) ==>
                && message == "" && store.replyingTo == None
                && outbox == old(outbox) + [SendMessage(old(message), Text, old(store.replyingTo)),
                                            TypingUpdate(false)]
    {
      TrimEmptyIffBlank(message);
      if Trim(message) == "" {
        return;
      }
      var sent := [SendMessage(message, Text, store.replyingTo), TypingUpdate(false)];
      AlternationExtends(outbox, sent[0]);
      AlternationExtends(outbox + [sent[0]], sent[1]);
      assert outbox + [sent[0]] + [sent[1]] == outbox + sent;
      outbox := outbox + sent;
      LastTypingAppend(old(outbox), sent);
      message := "";
      store.replyingTo := None;
    }

    /** The emoji button opens or closes the picker. */
    method ToggleEmojiPicker()
      requires Valid()
      modifies this`showEmojiPicker
      ensures Valid() && showEmojiPicker == !old(showEmojiPicker)
    {
      showEmojiPicker := !showEmojiPicker;
    }

    /** A click in the picker, which is shown only while open: the emoji goes to the end of the draft and the picker closes. */
    method HandleEmojiSelect(emoji: string)
      requires Valid() && showEmojiPicker
      modifies this`message, this`showEmojiPicker
      ensures Valid()
      ensures message == old(message) + emoji && !showEmojiPicker
    {
      message := message + emoji;
      showEmojiPicker := false;
    }
  }

  /**
   * In every state the composer's methods reach (each of them keeps `Valid`),
   * two "typing" announcements always have a "stopped" between them.
   */
  lemma ComposerNeverRepeatsStart(input: MessageInput, i: nat, j: nat)
    requires input.Valid()
    requires i < j < |input.outbox|
    requires input.outbox[i] == TypingUpdate(true) && input.outbox[j] == TypingUpdate(true)
    ensures exists k :: i < k < j && input.outbox[k] == TypingUpdate(false)
  {
    NoTwoStartsWithoutStop(input.outbox, i, j);
  }

  /**
   * A user who types at 0 and 1000 and sends at 2000 sees the events
   * typing, message, stopped, and at 4000 a second "stopped" from the
   * timer the send left running.
   */
  method TypeThenSend() returns (events: seq<Outbound>)
    ensures events == [TypingUpdate(true), SendMessage("hi", Text, None), TypingUpdate(false),
                       TypingUpdate(false)]
  {
    var store := new ChatContext.ChatProvider();
    var input := new MessageInput(store, 0);
    input.HandleInputChange("h");
    input.AdvanceClock(1000);
    input.HandleInputChange("hi");
    input.AdvanceClock(2000);
    assert !IsBlank("hi") by { assert !IsJsWhitespace("hi"[0]); }
    input.HandleSendMessage();
    input.FireTypingTimer();
    events := input.outbox;
  }
}
