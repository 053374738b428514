/** Booking chat: who may read a booking's conversation, read-marking, sending, and the inbox that
    groups a user's messages by booking. */
module Chat {
  import opened Wrappers
  import opened BookingModel
  import UserModel
  import Sorting
  import Seqs

  /** A stored message; `read` defaults to false and `createdAt` is the creation timestamp. */
  datatype Message = Message(id: Id, text: string, senderId: Id, receiverId: Id, bookingId: Id, roomId: string,
                             read: bool, createdAt: int)

  /** The caller is a party to the booking: its client or its assigned photographer. */
  predicate Party(b: Booking, caller: Id)
  {
    b.clientId == caller || b.photographerId == Some(caller)
  }

  /** A message the caller has not read yet in the booking's conversation. */
  predicate UnreadFor(m: Message, bookingId: Id, caller: Id)
  {
    m.bookingId == bookingId && m.receiverId == caller && !m.read
  }

  /** `updateMany({ bookingId, receiverId, read: false }, { $set: { read: true } })`. */
  function MarkRead(messages: seq<Message>, bookingId: Id, caller: Id): (r: seq<Message>)
    ensures |r| == |messages|
    ensures forall i :: 0 <= i < |r| ==>
              r[i] == (if UnreadFor(messages[i], bookingId, caller) then messages[i].(read := true) else messages[i])
  {
    seq(|messages|, i requires 0 <= i < |messages| =>
      if UnreadFor(messages[i], bookingId, caller) then messages[i].(read := true) else messages[i])
  }

  /** After marking, nothing in the booking addressed to the caller is unread, and every message
      outside it, or addressed to someone else, is exactly as it was. */
  lemma MarkReadEffect(messages: seq<Message>, bookingId: Id, caller: Id)
    ensures var r := MarkRead(messages, bookingId, caller);
            && (forall i :: 0 <= i < |r| ==> !UnreadFor(r[i], bookingId, caller))
            && (forall i :: 0 <= i < |r| && (messages[i].bookingId != bookingId || messages[i].receiverId != caller) ==>
                  r[i] == messages[i])
            && (forall i :: 0 <= i < |r| ==> r[i].(read := messages[i].read) == messages[i])
  {
  }

  /** Marking twice marks once. */
  lemma MarkReadIdempotent(messages: seq<Message>, bookingId: Id, caller: Id)
    ensures MarkRead(MarkRead(messages, bookingId, caller), bookingId, caller) == MarkRead(messages, bookingId, caller)
  {
  }

  /** Ascending `createdAt`, ties kept in store order. */
  function OldestFirst(): (le: (Message, Message) -> bool)
    ensures Sorting.TotalPreorder(le)
  {
    (a: Message, b: Message) => a.createdAt <= b.createdAt
  }

  /** Descending `createdAt`, ties kept in store order. */
  function NewestFirst(): (le: (Message, Message) -> bool)
    ensures Sorting.TotalPreorder(le)
  {
    (a: Message, b: Message) => a.createdAt >= b.createdAt
  }

  /** The filter `{ bookingId }`. */
  function InBooking(bookingId: Id): Message -> bool
  {
    (m: Message) => m.bookingId == bookingId
  }

  /** `find({ bookingId }).sort({ createdAt: 1 })`: a reordering of exactly the booking's messages,
      each kept as often as it is stored, oldest first. */
  function Conversation(messages: seq<Message>, bookingId: Id): (r: seq<Message>)
    ensures multiset(r) == multiset(Seqs.Filter(messages, InBooking(bookingId)))
    ensures forall m :: m in r <==> m in messages && m.bookingId == bookingId
    ensures Ascending(r)
  {
    var mine := Seqs.Filter(messages, InBooking(bookingId));
    Sorting.SortSameElements(OldestFirst(), mine);
    Sorting.Sort(OldestFirst(), mine)
  }

  const HistoryFailed: string := "Failed to fetch chat history"
  const Unauthorized: string := "Unauthorized access to this chat"

  /** `getChatHistory`: the booking must exist (404); a caller that is not its client is compared
      with the photographer, which throws when there is none (500); a non-party gets 403. A party
      receives the conversation as it stood before its incoming messages were marked read. */
  function History(store: Store, messages: seq<Message>, caller: Id, bookingId: Id): (r: (Reply<seq<Message>>, seq<Message>))
    ensures r.0.Fail? ==> r.1 == messages
    ensures FindById(store, bookingId).None? ==> r.0 == Fail(404, "Booking not found")
    ensures FindById(store, bookingId).Some? ==>
              var b := store[FindById(store, bookingId).value];
              && (r.0.Ok? <==> Party(b, caller))
              && (b.clientId != caller && b.photographerId.None? ==> r.0 == Fail(500, HistoryFailed))
              && (b.clientId != caller && b.photographerId.Some? && b.photographerId.value != caller ==>
                    r.0 == Fail(403, Unauthorized))
    ensures r.0.Ok? ==> && r.0.status == 200
                        && r.0.body == Conversation(messages, bookingId)
                        && r.1 == MarkRead(messages, bookingId, caller)
  {
    match FindById(store, bookingId)
    case None => (Fail(404, "Booking not found"), messages)
    case Some(i) =>
      var b := store[i];
      if b.clientId != caller && b.photographerId.None? then (Fail(500, HistoryFailed), messages)
      else if b.clientId != caller && b.photographerId.value != caller then (Fail(403, Unauthorized), messages)
      else (Ok(200, Conversation(messages, bookingId)), MarkRead(messages, bookingId, caller))
  }

  /** The conversation returned by a history fetch is in ascending time and belongs to the booking. */
  lemma HistoryOrdered(store: Store, messages: seq<Message>, caller: Id, bookingId: Id)
    requires History(store, messages, caller, bookingId).0.Ok?
    ensures var h := History(store, messages, caller, bookingId).0.body;
            && (forall i, j :: 0 <= i < j < |h| ==> h[i].createdAt <= h[j].createdAt)
            && (forall m :: m in h ==> m.bookingId == bookingId)
  {
  }

  const NotSent: string := "Message not sent"

  /** `saveChat`: the request fields become a message in the booking's room (`roomId` is the booking
      id); a missing booking id, or a missing or empty text or receiver, fails with 500. */
  function SaveChat(messages: seq<Message>, caller: Id, text: Option<string>, receiverId: Option<Id>, bookingId: Option<Id>,
                    newId: Id, now: int): (r: (Reply<Message>, seq<Message>))
    ensures r.0.Ok? <==> bookingId.Some? && bookingId.value != "" && text.Some? && text.value != ""
                         && receiverId.Some? && receiverId.value != ""
    ensures r.0.Fail? ==> r.0 == Fail(500, NotSent) && r.1 == messages
    ensures r.0.Ok? ==> && r.0.body.roomId == r.0.body.bookingId == bookingId.value
                        && r.0.body.senderId == caller && r.0.body.receiverId == receiverId.value
                        && r.0.body.text == text.value && !r.0.body.read && r.0.body.createdAt == now
                        && r.1 == messages + [r.0.body]
  {
    if bookingId.None? || bookingId.value == "" || text.None? || text.value == "" || receiverId.None? || receiverId.value == "" then
      (Fail(500, NotSent), messages)
    else
      var m := Message(newId, text.value, caller, receiverId.value, bookingId.value, bookingId.value, false, now);
      (Ok(200, m), messages + [m])
  }

  /** A message that passes a filter is all that filtering it alone keeps. */
  lemma FilterOne(m: Message, p: Message -> bool)
    requires p(m)
    ensures Seqs.Filter([m], p) == [m]
  {
    assert [m][1..] == [];
  }

  /** A saved message reaches its receiver: the receiver's unread count for the booking grows by
      one, and the booking's conversation holds exactly the earlier messages and the new one. */
  lemma SaveChatDelivered(messages: seq<Message>, caller: Id, text: Option<string>, receiverId: Option<Id>, bookingId: Option<Id>,
                          newId: Id, now: int)
    requires SaveChat(messages, caller, text, receiverId, bookingId, newId, now).0.Ok?
    ensures var r := SaveChat(messages, caller, text, receiverId, bookingId, newId, now);
            var m := r.0.body;
            && UnreadCount(r.1, m.bookingId, m.receiverId) == UnreadCount(messages, m.bookingId, m.receiverId) + 1
            && multiset(Conversation(r.1, m.bookingId)) == multiset(Conversation(messages, m.bookingId)) + multiset{m}
  {
    var r := SaveChat(messages, caller, text, receiverId, bookingId, newId, now);
    var m := r.0.body;
    Seqs.FilterConcat(messages, [m], Unread(m.bookingId, m.receiverId));
    FilterOne(m, Unread(m.bookingId, m.receiverId));
    Seqs.FilterConcat(messages, [m], InBooking(m.bookingId));
    FilterOne(m, InBooking(m.bookingId));
  }

  /** When every stored message is older than the new one, the new message closes its conversation. */
  lemma SaveChatLast(messages: seq<Message>, caller: Id, text: Option<string>, receiverId: Option<Id>, bookingId: Option<Id>,
                     newId: Id, now: int)
    requires SaveChat(messages, caller, text, receiverId, bookingId, newId, now).0.Ok?
    requires forall x :: x in messages ==> x.createdAt < now
    ensures var r := SaveChat(messages, caller, text, receiverId, bookingId, newId, now);
            var c := Conversation(r.1, r.0.body.bookingId);
            |c| > 0 && c[|c| - 1] == r.0.body
  {
    var r := SaveChat(messages, caller, text, receiverId, bookingId, newId, now);
    var m := r.0.body;
    var c := Conversation(r.1, m.bookingId);
    assert m in c by { assert m in r.1; }
    forall x | x in c && x != m ensures x.createdAt < m.createdAt {
      assert x in messages;
    }
    NewestIsLast(c, m);
  }

  /** The caller sent or received the message. */
  predicate Involves(m: Message, caller: Id)
  {
    m.senderId == caller || m.receiverId == caller
  }

  /** The messages of the loop that open a conversation: each one whose booking has not been seen
      earlier in the list, nor in `seen`. */
  function FirstPerBooking(list: seq<Message>, seen: set<Id>): (r: seq<Message>)
    ensures |r| <= |list|
    ensures forall k :: 0 <= k < |r| ==> r[k] in list && r[k].bookingId !in seen
    ensures forall k, l :: 0 <= k < l < |r| ==> r[k].bookingId != r[l].bookingId
    decreases |list|
  {
    if |list| == 0 then []
    else if list[0].bookingId in seen then FirstPerBooking(list[1..], seen)
    else [list[0]] + FirstPerBooking(list[1..], seen + {list[0].bookingId})
  }

  /** Oldest first: no message is newer than one after it. */
  predicate Ascending(list: seq<Message>)
  {
    forall i, j :: 0 <= i < j < |list| ==> list[i].createdAt <= list[j].createdAt
  }

  /** In an oldest-first list, a message strictly newer than every other one is the last. */
  lemma NewestIsLast(list: seq<Message>, m: Message)
    requires Ascending(list) && m in list
    requires forall x :: x in list && x != m ==> x.createdAt < m.createdAt
    ensures list[|list| - 1] == m
  {
    var k :| 0 <= k < |list| && list[k] == m;
  }

  /** Newest first: no message is older than one after it. */
  predicate Descending(list: seq<Message>)
  {
    forall i, j :: 0 <= i < j < |list| ==> list[i].createdAt >= list[j].createdAt
  }

  /** The head of a newest-first list is at least as new as every message in it. */
  lemma HeadIsNewest(list: seq<Message>)
    requires |list| > 0 && Descending(list)
    ensures Descending(list[1..])
    ensures forall y :: y in list ==> y.createdAt <= list[0].createdAt
  {
    var tail := list[1..];
    forall i, j | 0 <= i < j < |tail| ensures tail[i].createdAt >= tail[j].createdAt {
      assert tail[i] == list[i + 1] && tail[j] == list[j + 1];
    }
  }

  /** A message no older than anything in a newest-first list may go in front of it. */
  lemma DescendingCons(x: Message, rest: seq<Message>)
    requires Descending(rest) && forall y :: y in rest ==> y.createdAt <= x.createdAt
    ensures Descending([x] + rest)
  {
    var r := [x] + rest;
    forall k, l | 0 <= k < l < |r| ensures r[k].createdAt >= r[l].createdAt {
      assert r[l] == rest[l - 1];
      if k > 0 {
        assert r[k] == rest[k - 1];
      }
    }
  }

  /** Newest first in, newest first out: the opening messages keep the order of the list. */
  lemma {:induction false} FirstPerBookingNewestFirst(list: seq<Message>, seen: set<Id>)
    requires Descending(list)
    ensures Descending(FirstPerBooking(list, seen))
    decreases |list|
  {
    if |list| > 0 {
      HeadIsNewest(list);
      if list[0].bookingId in seen {
        FirstPerBookingNewestFirst(list[1..], seen);
      } else {
        var rest := FirstPerBooking(list[1..], seen + {list[0].bookingId});
        FirstPerBookingNewestFirst(list[1..], seen + {list[0].bookingId});
        assert forall y :: y in rest ==> y in list;
        DescendingCons(list[0], rest);
      }
    }
  }

  /** Every booking of the list that was not seen beforehand gets its conversation. */
  lemma {:induction false} FirstPerBookingComplete(list: seq<Message>, seen: set<Id>, m: Message)
    requires m in list && m.bookingId !in seen
    ensures exists k :: 0 <= k < |FirstPerBooking(list, seen)| && FirstPerBooking(list, seen)[k].bookingId == m.bookingId
    decreases |list|
  {
    var r := FirstPerBooking(list, seen);
    if list[0].bookingId in seen {
      assert m != list[0];
      FirstPerBookingComplete(list[1..], seen, m);
    } else if m.bookingId == list[0].bookingId {
      assert r[0].bookingId == m.bookingId;
    } else {
      assert m in list[1..];
      FirstPerBookingComplete(list[1..], seen + {list[0].bookingId}, m);
      var k :| 0 <= k < |FirstPerBooking(list[1..], seen + {list[0].bookingId})|
               && FirstPerBooking(list[1..], seen + {list[0].bookingId})[k].bookingId == m.bookingId;
      assert r[k + 1].bookingId == m.bookingId;
    }
  }

  /** On a newest-first list, the message that opens a conversation is the newest of its booking. */
  lemma {:induction false} FirstPerBookingNewest(list: seq<Message>, seen: set<Id>, k: nat, m: Message)
    requires forall i, j :: 0 <= i < j < |list| ==> list[i].createdAt >= list[j].createdAt
    requires k < |FirstPerBooking(list, seen)|
    requires m in list && m.bookingId == FirstPerBooking(list, seen)[k].bookingId
    ensures FirstPerBooking(list, seen)[k].createdAt >= m.createdAt
    decreases |list|
  {
    var r := FirstPerBooking(list, seen);
    if list[0].bookingId in seen {
      assert m != list[0];
      FirstPerBookingNewest(list[1..], seen, k, m);
    } else if k == 0 {
      assert r[0] == list[0];
    } else {
      var rest := FirstPerBooking(list[1..], seen + {list[0].bookingId});
      assert r[k] == rest[k - 1];
      assert m != list[0];
      assert m in list[1..];
      FirstPerBookingNewest(list[1..], seen + {list[0].bookingId}, k - 1, m);
    }
  }

  /** A user as `findById(...).select("name avatar role")` returns it; the avatar URL is not part of this model. */
  datatype Contact = Contact(id: UserModel.Id, name: string, role: UserModel.Role)

  datatype InboxEntry = InboxEntry(bookingId: Id, lastMessage: string, lastMessageTime: int, unreadCount: nat,
                                   otherUser: Option<Contact>)

  /** The other side of a message, seen from the caller. */
  function OtherParty(m: Message, caller: Id): (other: Id)
    ensures m.senderId == caller ==> other == m.receiverId
    ensures m.senderId != caller ==> other == m.senderId
  {
    if m.senderId == caller then m.receiverId else m.senderId
  }

  function ContactOf(users: seq<UserModel.User>, id: Id): (c: Option<Contact>)
    ensures c.None? <==> UserModel.FindById(users, id).None?
    ensures c.Some? ==> c.value.id == id
  {
    match UserModel.FindById(users, id)
    case None => None
    case Some(i) => Some(Contact(users[i].id, users[i].name, users[i].role))
  }

  /** The filter `{ bookingId, receiverId: caller, read: false }`. */
  function Unread(bookingId: Id, caller: Id): Message -> bool
  {
    (m: Message) => UnreadFor(m, bookingId, caller)
  }

  /** `countDocuments({ bookingId, receiverId: caller, read: false })` over all messages: as many as
      the query `find` would return. */
  function UnreadCount(messages: seq<Message>, bookingId: Id, caller: Id): (n: nat)
    ensures n == |Seqs.Filter(messages, Unread(bookingId, caller))|
    ensures n == 0 <==> forall i :: 0 <= i < |messages| ==> !UnreadFor(messages[i], bookingId, caller)
  {
    Seqs.CountIsFilterLength(messages, Unread(bookingId, caller));
    Seqs.Count(messages, Unread(bookingId, caller))
  }

  /** The filter `{ $or: [{ senderId: caller }, { receiverId: caller }] }`. */
  function Mine(caller: Id): Message -> bool
  {
    (m: Message) => Involves(m, caller)
  }

  /** The caller's messages, newest first: a reordering of exactly the messages the caller sent or
      received, each kept as often as it is stored. */
  function Timeline(messages: seq<Message>, caller: Id): (r: seq<Message>)
    ensures multiset(r) == multiset(Seqs.Filter(messages, Mine(caller)))
    ensures forall m :: m in r <==> m in messages && Involves(m, caller)
    ensures Descending(r)
  {
    var mine := Seqs.Filter(messages, Mine(caller));
    Sorting.SortSameElements(NewestFirst(), mine);
    Sorting.Sort(NewestFirst(), mine)
  }

  function EntryOf(messages: seq<Message>, users: seq<UserModel.User>, caller: Id, m: Message): InboxEntry
  {
    InboxEntry(m.bookingId, m.text, m.createdAt, UnreadCount(messages, m.bookingId, caller),
               ContactOf(users, OtherParty(m, caller)))
  }

  /** The message that opens each of the caller's conversations in the newest-first timeline: one
      per booking, most recently active first. */
  function Openings(messages: seq<Message>, caller: Id): (o: seq<Message>)
    ensures forall k, l :: 0 <= k < l < |o| ==> o[k].bookingId != o[l].bookingId
    ensures forall k :: 0 <= k < |o| ==> o[k] in messages && Involves(o[k], caller)
    ensures Descending(o)
  {
    var list := Timeline(messages, caller);
    FirstPerBookingNewestFirst(list, {});
    var o := FirstPerBooking(list, {});
    assert forall k :: 0 <= k < |o| ==> o[k] in list;
    o
  }

  /** One inbox entry per opening message, in the same order. */
  function Summaries(messages: seq<Message>, users: seq<UserModel.User>, caller: Id, opening: seq<Message>): (r: seq<InboxEntry>)
    ensures |r| == |opening|
    ensures forall k :: 0 <= k < |r| ==> && r[k] == EntryOf(messages, users, caller, opening[k])
                                         && r[k].bookingId == opening[k].bookingId
                                         && r[k].lastMessageTime == opening[k].createdAt
  {
    seq(|opening|, k requires 0 <= k < |opening| => EntryOf(messages, users, caller, opening[k]))
  }

  /** `getInbox`: one entry per booking the caller has messages in, in the order the bookings first
      appear in the newest-first timeline, so the most recently active conversation comes first. */
  function Inbox(messages: seq<Message>, users: seq<UserModel.User>, caller: Id): (r: seq<InboxEntry>)
    ensures forall k, l :: 0 <= k < l < |r| ==> r[k].bookingId != r[l].bookingId
    ensures forall k :: 0 <= k < |r| ==> exists m :: m in messages && Involves(m, caller) && r[k] == EntryOf(messages, users, caller, m)
    ensures forall k, l :: 0 <= k < l < |r| ==> r[k].lastMessageTime >= r[l].lastMessageTime
  {
    var opening := Openings(messages, caller);
    var r := Summaries(messages, users, caller, opening);
    assert forall k :: 0 <= k < |r| ==> opening[k] in messages && Involves(opening[k], caller)
                                        && r[k] == EntryOf(messages, users, caller, opening[k]);
    r
  }

  /** Every booking the caller has a message in appears in the inbox, and its entry shows the
      newest such message, the number of messages there still unread by the caller, and the other
      party of that newest message. */
  lemma InboxSummarises(messages: seq<Message>, users: seq<UserModel.User>, caller: Id, m: Message)
    requires m in messages && Involves(m, caller)
    ensures exists k :: 0 <= k < |Inbox(messages, users, caller)|
                        && var e := Inbox(messages, users, caller)[k];
                        && e.bookingId == m.bookingId
                        && e.lastMessageTime >= m.createdAt
                        && e.unreadCount == UnreadCount(messages, m.bookingId, caller)
  {
    var list := Timeline(messages, caller);
    var opening := Openings(messages, caller);
    assert opening == FirstPerBooking(list, {});
    assert m in list;
    FirstPerBookingComplete(list, {}, m);
    var k :| 0 <= k < |opening| && opening[k].bookingId == m.bookingId;
    FirstPerBookingNewest(list, {}, k, m);
    assert Inbox(messages, users, caller)[k] == EntryOf(messages, users, caller, opening[k]);
  }
}
