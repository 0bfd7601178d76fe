/**
 * The chat store (`ChatProvider` in src/context/ChatContext.jsx): the ordered
 * list of messages of the room, the mutators the rest of the client calls on
 * it, the three-flag pager that prepends older pages, and the per-user maps
 * and reply draft the provider also holds.
 *
 * Each mutator computes its new list with `some`/`map`/`filter`/spread; those
 * list transforms are the functions below, and the class methods assign
 * their results to the fields.
 */
module ChatContext {
  import opened Wrappers
  import opened SeqLemmas
  import opened Messages

  /** Page size of the pager (`CHUNK_SIZE`). */
  const ChunkSize: nat := 25

  predicate HasId(ms: seq<Message>, id: string) {
    exists i :: 0 <= i < |ms| && ms[i].messageId == id
  }

  predicate UniqueIds(ms: seq<Message>) {
    forall i, j :: 0 <= i < j < |ms| ==> ms[i].messageId != ms[j].messageId
  }

  function IdSet(ms: seq<Message>): set<string> {
    set m | m in ms :: m.messageId
  }

  lemma HasIdIffInIdSet(ms: seq<Message>, id: string)
    ensures HasId(ms, id) <==> id in IdSet(ms)
  {
    if id in IdSet(ms) {
      var m :| m in ms && m.messageId == id;
      var i :| 0 <= i < |ms| && ms[i] == m;
    }
  }

  // ---------------------------------------------------------------- addMessage

  /** `addMessage`: append at the tail unless an entry with the same id is already present. */
  function Append(ms: seq<Message>, m: Message): (r: seq<Message>)
    ensures ms <= r && HasId(r, m.messageId)
    ensures |r| == if HasId(ms, m.messageId) then |ms| else |ms| + 1
    ensures |r| > |ms| ==> r[|ms|] == m
    ensures UniqueIds(ms) ==> UniqueIds(r)
  {
    if HasId(ms, m.messageId) then ms
    else
      var r := ms + [m];
      assert r[|ms|] == m;
      r
  }

  /** Successive `addMessage` calls, in order (the initial history load is this loop). */
  function AddAll(ms: seq<Message>, batch: seq<Message>): (r: seq<Message>)
    ensures ms <= r && |r| <= |ms| + |batch|
    decreases |batch|
  {
    if batch == [] then ms else AddAll(Append(ms, batch[0]), batch[1..])
  }

  lemma {:induction false} AddAllKeepsUnique(ms: seq<Message>, batch: seq<Message>)
    requires UniqueIds(ms)
    ensures UniqueIds(AddAll(ms, batch)) && ms <= AddAll(ms, batch)
    decreases |batch|
  {
    if batch != [] {
      AddAllKeepsUnique(Append(ms, batch[0]), batch[1..]);
    }
  }

  // ------------------------------------------------------------- deleteMessage

  /** `filter` by id: the entries whose id is not in `ids`, in their order. */
  function WithoutIds(ms: seq<Message>, ids: set<string>): (r: seq<Message>)
    ensures |r| <= |ms|
  {
    if ms == [] then []
    else if ms[0].messageId in ids then WithoutIds(ms[1..], ids)
    else [ms[0]] + WithoutIds(ms[1..], ids)
  }

  /** What the filter keeps: exactly the entries whose id is not in `ids`. */
  lemma {:induction false} WithoutIdsMembers(ms: seq<Message>, ids: set<string>)
    ensures forall x :: x in WithoutIds(ms, ids) <==> x in ms && x.messageId !in ids
    decreases |ms|
  {
    if ms != [] {
      WithoutIdsMembers(ms[1..], ids);
      assert forall x :: x in ms <==> x == ms[0] || x in ms[1..];
    }
  }

  /** `deleteMessage`: every entry with this id goes, the others stay in order. */
  function RemoveById(ms: seq<Message>, id: string): (r: seq<Message>)
    ensures !HasId(r, id)
    ensures forall x :: x in r <==> x in ms && x.messageId != id
  {
    WithoutIdsMembers(ms, {id});
    WithoutIds(ms, {id})
  }

  lemma {:induction false} WithoutIdsConcat(a: seq<Message>, b: seq<Message>, ids: set<string>)
    ensures WithoutIds(a + b, ids) == WithoutIds(a, ids) + WithoutIds(b, ids)
    decreases |a|
  {
    if a != [] {
      assert (a + b)[1..] == a[1..] + b;
      WithoutIdsConcat(a[1..], b, ids);
    } else {
      assert a + b == b;
    }
  }

  lemma {:induction false} WithoutIdsTwice(ms: seq<Message>, s: set<string>, t: set<string>)
    ensures WithoutIds(WithoutIds(ms, s), t) == WithoutIds(ms, s + t)
    decreases |ms|
  {
    if ms != [] {
      WithoutIdsTwice(ms[1..], s, t);
      if ms[0].messageId !in s {
        SliceConcat([ms[0]], WithoutIds(ms[1..], s));
      }
    }
  }

  lemma {:induction false} WithoutNoIds(ms: seq<Message>)
    ensures WithoutIds(ms, {}) == ms
    decreases |ms|
  {
    if ms != [] {
      WithoutNoIds(ms[1..]);
    }
  }

  lemma {:induction false} WithoutIdsKeepsUnique(ms: seq<Message>, ids: set<string>)
    requires UniqueIds(ms)
    ensures UniqueIds(WithoutIds(ms, ids))
    decreases |ms|
  {
    if ms != [] {
      WithoutIdsKeepsUnique(ms[1..], ids);
      WithoutIdsMembers(ms[1..], ids);
      var rest := WithoutIds(ms[1..], ids);
      if ms[0].messageId !in ids {
        forall x | x in rest ensures x.messageId != ms[0].messageId {
          var i :| 0 <= i < |ms[1..]| && ms[1..][i] == x;
          assert ms[i + 1] == x;
        }
      }
    }
  }

  /** On a list with unique ids, deleting a present id shortens it by exactly one. */
  lemma {:induction false} RemovePresentShortensByOne(ms: seq<Message>, id: string)
    requires UniqueIds(ms) && HasId(ms, id)
    ensures |RemoveById(ms, id)| == |ms| - 1
    decreases |ms|
  {
    if ms[0].messageId == id {
      assert !HasId(ms[1..], id);
      RemoveAbsentIsIdentity(ms[1..], id);
    } else {
      var i :| 0 <= i < |ms| && ms[i].messageId == id;
      assert ms[1..][i - 1].messageId == id;
      RemovePresentShortensByOne(ms[1..], id);
    }
  }

  lemma {:induction false} RemoveAbsentIsIdentity(ms: seq<Message>, id: string)
    requires !HasId(ms, id)
    ensures RemoveById(ms, id) == ms
    decreases |ms|
  {
    if ms != [] {
      assert !HasId(ms[1..], id) by {
        forall i | 0 <= i < |ms[1..]| ensures ms[1..][i].messageId != id {
          assert ms[1..][i] == ms[i + 1];
        }
      }
      RemoveAbsentIsIdentity(ms[1..], id);
    }
  }

  // ------------------------------------------------------------- updateMessage

  /** `updateMessage`: merge the updates into every entry with this id; length and order are kept. */
  function PatchById(ms: seq<Message>, id: string, p: Patch): (r: seq<Message>)
    ensures |r| == |ms|
    ensures forall k :: 0 <= k < |ms| ==>
              r[k] == if ms[k].messageId == id then Merge(ms[k], p) else ms[k]
  {
    if ms == [] then []
    else [if ms[0].messageId == id then Merge(ms[0], p) else ms[0]] + PatchById(ms[1..], id, p)
  }

  /** A patch never changes which id sits at which position. */
  lemma PatchKeepsIds(ms: seq<Message>, id: string, p: Patch)
    ensures forall k :: 0 <= k < |ms| ==> PatchById(ms, id, p)[k].messageId == ms[k].messageId
    ensures UniqueIds(ms) ==> UniqueIds(PatchById(ms, id, p))
  {
  }

  /** A patch for an id that is not in the list (a race with a delete) changes nothing. */
  lemma PatchAbsentIsIdentity(ms: seq<Message>, id: string, p: Patch)
    requires !HasId(ms, id)
    ensures PatchById(ms, id, p) == ms
  {
  }

  /** After "delete for me", later patches of that id are no-ops. */
  lemma PatchAfterRemove(ms: seq<Message>, id: string, p: Patch)
    ensures PatchById(RemoveById(ms, id), id, p) == RemoveById(ms, id)
  {
    var r := RemoveById(ms, id);
    WithoutIdsMembers(ms, {id});
    assert !HasId(r, id) by {
      forall i | 0 <= i < |r| ensures r[i].messageId != id {
        assert r[i] in r;
      }
    }
    PatchAbsentIsIdentity(r, id, p);
  }

  // ---------------------------------------------- first-seen order of addMessage

  /**
   * Reference definition of "one entry per distinct id, in first-seen order":
   * keep the first message and drop every later one with its id.
   */
  function FirstSeen(xs: seq<Message>): seq<Message>
    decreases |xs|
  {
    if xs == [] then [] else [xs[0]] + FirstSeen(RemoveById(xs[1..], xs[0].messageId))
  }

  lemma IdSetAppendNew(acc: seq<Message>, x: Message)
    ensures IdSet(acc + [x]) == IdSet(acc) + {x.messageId}
  {
    assert forall m :: m in acc + [x] <==> m in acc || m == x;
  }

  lemma FirstSeenCons(x: Message, w: seq<Message>)
    ensures FirstSeen([x] + w) == [x] + FirstSeen(RemoveById(w, x.messageId))
  {
    SliceConcat([x], w);
  }

  lemma {:induction false} AddAllIsFirstSeenAfter(acc: seq<Message>, xs: seq<Message>)
    ensures AddAll(acc, xs) == acc + FirstSeen(WithoutIds(xs, IdSet(acc)))
    decreases |xs|
  {
    if xs == [] {
      assert acc + [] == acc;
    } else {
      var x, rest := xs[0], xs[1..];
      HasIdIffInIdSet(acc, x.messageId);
      if x.messageId in IdSet(acc) {
        AddAllIsFirstSeenAfter(acc, rest);
        AddAllSeenStep(acc, xs);
      } else {
        AddAllIsFirstSeenAfter(acc + [x], rest);
        IdSetAppendNew(acc, x);
        HeadThenRest(xs);
        AddAllNewStep(acc, x, rest);
      }
    }
  }

  /** Inductive step: the next message's id is already present, so it is skipped. */
  lemma AddAllSeenStep(acc: seq<Message>, xs: seq<Message>)
    requires xs != [] && xs[0].messageId in IdSet(acc) && HasId(acc, xs[0].messageId)
    requires AddAll(acc, xs[1..]) == acc + FirstSeen(WithoutIds(xs[1..], IdSet(acc)))
    ensures AddAll(acc, xs) == acc + FirstSeen(WithoutIds(xs, IdSet(acc)))
  {
    assert AddAll(acc, xs) == AddAll(acc, xs[1..]);
  }

  /** Inductive step: the next message's id is new, so it is appended. */
  lemma AddAllNewStep(acc: seq<Message>, x: Message, rest: seq<Message>)
    requires !HasId(acc, x.messageId)
    requires AddAll(acc + [x], rest)
             == acc + [x] + FirstSeen(WithoutIds(rest, IdSet(acc) + {x.messageId}))
    ensures AddAll(acc, [x] + rest) == acc + FirstSeen(WithoutIds([x] + rest, IdSet(acc)))
  {
    var tail := FirstSeen(WithoutIds(rest, IdSet(acc) + {x.messageId}));
    SliceConcat([x], rest);
    assert AddAll(acc, [x] + rest) == AddAll(acc + [x], rest);
    ConcatAssoc(acc, [x], tail);
    FirstSeenOfNew(acc, x, rest);
  }

  lemma FirstSeenOfNew(acc: seq<Message>, x: Message, rest: seq<Message>)
    requires !HasId(acc, x.messageId)
    ensures FirstSeen(WithoutIds([x] + rest, IdSet(acc)))
            == [x] + FirstSeen(WithoutIds(rest, IdSet(acc) + {x.messageId}))
  {
    var s := IdSet(acc);
    var w := WithoutIds(rest, s);
    HasIdIffInIdSet(acc, x.messageId);
    SliceConcat([x], rest);
    assert WithoutIds([x] + rest, s) == [x] + w;
    FirstSeenCons(x, w);
    WithoutIdsTwice(rest, s, {x.messageId});
  }

  /** Any sequence of `addMessage` calls on the empty list keeps the first message of each id, in first-seen order. */
  lemma AddAllFromEmptyIsFirstSeen(xs: seq<Message>)
    ensures AddAll([], xs) == FirstSeen(xs)
  {
    AddAllIsFirstSeenAfter([], xs);
    assert IdSet([]) == {};
    WithoutNoIds(xs);
    assert [] + FirstSeen(xs) == FirstSeen(xs);
  }

  /** The reference definition holds one entry per distinct id, and only messages of the input. */
  lemma FirstSeenOnePerId(xs: seq<Message>)
    ensures UniqueIds(FirstSeen(xs))
    ensures IdSet(FirstSeen(xs)) == IdSet(xs)
    ensures forall m :: m in FirstSeen(xs) ==> m in xs
  {
    FirstSeenMembers(xs);
    FirstSeenUnique(xs);
    FirstSeenIdSet(xs);
  }

  lemma {:induction false} FirstSeenMembers(xs: seq<Message>)
    ensures forall m :: m in FirstSeen(xs) ==> m in xs
    decreases |xs|
  {
    if xs != [] {
      var w := RemoveById(xs[1..], xs[0].messageId);
      FirstSeenMembers(w);
      WithoutIdsMembers(xs[1..], {xs[0].messageId});
      assert forall m :: m in FirstSeen(xs) <==> m == xs[0] || m in FirstSeen(w);
    }
  }

  lemma {:induction false} FirstSeenUnique(xs: seq<Message>)
    ensures UniqueIds(FirstSeen(xs))
    decreases |xs|
  {
    if xs != [] {
      var x := xs[0];
      var w := RemoveById(xs[1..], x.messageId);
      var tail := FirstSeen(w);
      FirstSeenUnique(w);
      FirstSeenMembers(w);
      WithoutIdsMembers(xs[1..], {x.messageId});
      assert FirstSeen(xs) == [x] + tail;
      forall j | 0 <= j < |tail| ensures tail[j].messageId != x.messageId {
        assert tail[j] in w;
      }
    }
  }

  lemma {:induction false} FirstSeenIdSet(xs: seq<Message>)
    ensures IdSet(FirstSeen(xs)) == IdSet(xs)
    decreases |xs|
  {
    if xs != [] {
      var x := xs[0];
      var w := RemoveById(xs[1..], x.messageId);
      var r := FirstSeen(xs);
      FirstSeenIdSet(w);
      WithoutIdsMembers(xs[1..], {x.messageId});
      assert IdSet(w) == IdSet(xs[1..]) - {x.messageId} by {
        forall id | id in IdSet(xs[1..]) - {x.messageId} ensures id in IdSet(w) {
          var m :| m in xs[1..] && m.messageId == id;
          assert m in w;
        }
      }
      assert IdSet(xs) == {x.messageId} + IdSet(xs[1..]) by {
        assert forall m :: m in xs <==> m == x || m in xs[1..];
      }
      assert IdSet(r) == {x.messageId} + IdSet(FirstSeen(w)) by {
        assert forall m :: m in r <==> m == x || m in FirstSeen(w);
      }
    }
  }

  // ---------------------------------------------------------------- pagination

  /** The request the pager issues: `fetchFunction(offset, CHUNK_SIZE)`. */
  datatype FetchRequest = FetchRequest(offset: nat, limit: nat)

  /**
   * How the fetch settles. A fetcher that turns its errors into `[]`
   * (the message list's own fetcher does) settles as `Resolved(Some([]))`.
   */
  datatype FetchOutcome = Resolved(page: Option<seq<Message>>) | Rejected

  /** The outcomes after which `hasMoreMessages` becomes false. */
  predicate EndsHistory(o: FetchOutcome) {
    match o
    case Rejected => true
    case Resolved(None) => true
    case Resolved(Some(page)) => |page| < ChunkSize
  }

  /** The list after the fetch settles: a non-empty page goes in front, in its own order, ids unfiltered. */
  function AfterFetch(ms: seq<Message>, o: FetchOutcome): (r: seq<Message>)
    ensures |ms| <= |r| && r[|r| - |ms|..] == ms
  {
    match o
    case Resolved(Some(page)) => if |page| == 0 then ms else page + ms
    case _ => ms
  }

  /**
   * Seen from the pager: a resolved page of at least `CHUNK_SIZE` messages goes
   * in front and leaves `hasMoreMessages` as it was; every other outcome ends
   * the history, whatever was there before.
   */
  lemma FullPageKeepsPaging(ms: seq<Message>, hasMore: bool, o: FetchOutcome)
    ensures o.Resolved? && o.page.Some? && |o.page.value| >= ChunkSize ==>
              && (hasMore && !EndsHistory(o)) == hasMore
              && AfterFetch(ms, o) == o.page.value + ms
    ensures !(o.Resolved? && o.page.Some? && |o.page.value| >= ChunkSize) ==>
              !(hasMore && !EndsHistory(o))
  {
  }

  /** The pages that arrive go in front of everything present, which keeps its order. */
  lemma AfterFetchPrepends(ms: seq<Message>, o: FetchOutcome)
    ensures o.Resolved? && o.page.Some? ==> AfterFetch(ms, o) == o.page.value + ms
    ensures !(o.Resolved? && o.page.Some?) ==> AfterFetch(ms, o) == ms
  {
  }

  /** A page that re-delivers a message already present leaves two entries with its id. */
  lemma PrependMayDuplicate(m: Message)
    ensures !UniqueIds(AfterFetch([m], Resolved(Some([m]))))
  {
    var r := AfterFetch([m], Resolved(Some([m])));
    assert r[0].messageId == r[1].messageId;
  }

  /** Uniqueness survives a prepend when the page is duplicate-free and disjoint from the list. */
  lemma PrependDisjointKeepsUnique(ms: seq<Message>, page: seq<Message>)
    requires UniqueIds(ms) && UniqueIds(page) && IdSet(page) !! IdSet(ms)
    ensures UniqueIds(AfterFetch(ms, Resolved(Some(page))))
  {
    var r := AfterFetch(ms, Resolved(Some(page)));
    if |page| > 0 {
      forall i, j | 0 <= i < j < |r| ensures r[i].messageId != r[j].messageId {
        if i < |page| <= j {
          assert page[i] in page && ms[j - |page|] in ms;
          assert r[i].messageId in IdSet(page) && r[j].messageId in IdSet(ms);
        }
      }
    }
  }

  // -------------------------------------------------------------- the provider

  class ChatProvider {
    var messages: seq<Message>
    /** The `loading` state the message list shows. */
    var loading: bool
    var hasMoreMessages: bool
    /** The `loadingRef` guard against a second fetch. */
    var loadingRef: bool
    var typingStatus: map<string, bool>
    var onlineStatus: map<string, bool>
    var lastSeenStatus: map<string, int>
    var replyingTo: Option<ReplyDraft>

    constructor ()
      ensures messages == [] && !loading && hasMoreMessages && !loadingRef
      ensures typingStatus == map[] && onlineStatus == map[] && lastSeenStatus == map[]
      ensures replyingTo == None
    {
      messages := [];
      loading := false;
      hasMoreMessages := true;
      loadingRef := false;
      typingStatus := map[];
      onlineStatus := map[];
      lastSeenStatus := map[];
      replyingTo := None;
    }

    method AddMessage(m: Message)
      modifies this`messages
      ensures messages == Append(old(messages), m)
    {
      if !HasId(messages, m.messageId) {
        messages := messages + [m];
      }
    }

    /**
     * `loadMoreMessages`: while a fetch is in flight or the history is
     * exhausted, nothing happens and no fetch is made; otherwise raise both
     * loading flags and request a page at the current length.
     */
    method LoadMoreMessages() returns (request: Option<FetchRequest>)
      modifies this`loadingRef, this`loading
      ensures old(loadingRef) || !hasMoreMessages ==>
                request == None && loadingRef == old(loadingRef) && loading == old(loading)
      ensures !old(loadingRef) && hasMoreMessages ==>
                request == Some(FetchRequest(|messages|, ChunkSize)) && loadingRef && loading
    {
      if loadingRef || !hasMoreMessages {
        return None;
      }
      loadingRef := true;
      loading := true;
      request := Some(FetchRequest(|messages|, ChunkSize));
    }

    /** The `then`/`catch`/`finally` of the fetch: prepend, settle `hasMoreMessages`, drop both loading flags. */
    method SettleFetch(outcome: FetchOutcome)
      modifies this`messages, this`hasMoreMessages, this`loadingRef, this`loading
      ensures messages == AfterFetch(old(messages), outcome)
      ensures hasMoreMessages == (old(hasMoreMessages) && !EndsHistory(outcome))
      ensures !loadingRef && !loading
    {
      match outcome {
        case Resolved(page) =>
          if page.None? || |page.value| == 0 {
            hasMoreMessages := false;
          } else {
            if |page.value| < ChunkSize {
              hasMoreMessages := false;
            }
            messages := page.value + messages;
          }
        case Rejected =>
          hasMoreMessages := false;
      }
      loadingRef := false;
      loading := false;
    }

    method UpdateMessage(id: string, updates: Patch)
      modifies this`messages
      ensures messages == PatchById(old(messages), id, updates)
    {
      messages := PatchById(messages, id, updates);
    }

    method DeleteMessage(id: string)
      modifies this`messages
      ensures messages == RemoveById(old(messages), id)
    {
      messages := RemoveById(messages, id);
    }

    /** `clearMessages`: the `loading` state and any fetch in flight are left as they are. */
    method ClearMessages()
      modifies this`messages, this`hasMoreMessages, this`loadingRef
      ensures messages == [] && hasMoreMessages && !loadingRef
    {
      messages := [];
      hasMoreMessages := true;
      loadingRef := false;
    }
  }

  /**
   * A history served as pages of 25, 25 and 10 messages: three requests at
   * offsets 0, 25 and 50, the pages stacked oldest first, and a fourth
   * request that makes no fetch.
   */
  method ThreePageHistory(p1: seq<Message>, p2: seq<Message>, p3: seq<Message>)
    returns (r1: Option<FetchRequest>, r2: Option<FetchRequest>, r3: Option<FetchRequest>,
             r4: Option<FetchRequest>, shown: seq<Message>)
    requires |p1| == 25 && |p2| == 25 && |p3| == 10
    ensures r1 == Some(FetchRequest(0, 25)) && r2 == Some(FetchRequest(25, 25))
    ensures r3 == Some(FetchRequest(50, 25)) && r4 == None
    ensures shown == p3 + p2 + p1
  {
    var store := new ChatProvider();
    r1 := store.LoadMoreMessages();
    store.SettleFetch(Resolved(Some(p1)));
    r2 := store.LoadMoreMessages();
    store.SettleFetch(Resolved(Some(p2)));
    r3 := store.LoadMoreMessages();
    store.SettleFetch(Resolved(Some(p3)));
    r4 := store.LoadMoreMessages();
    shown := store.messages;
    assert p3 + (p2 + p1) == p3 + p2 + p1;
  }
}
