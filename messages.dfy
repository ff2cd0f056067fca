/** The messages routes: the conversation list, a direct thread (fetched, reversed and then
    marked read), a community's history, sending, and marking one message read. */
module Messages {
  import opened Common
  import opened Seqs
  import opened Paging
  import opened Sorting
  import opened Db

  /** `m` is a direct message between `me` and `u`, in either direction. */
  predicate Exchanged(m: Message, me: UserId, u: UserId) {
    (m.senderId == me && m.receiverId == Some(u)) || (m.senderId == u && m.receiverId == Some(me))
  }

  // ---------------------------------------------------------------------------------------
  // GET /conversations

  /** The receivers of the caller's messages that have a receiver, in table order. */
  function SentTo(msgs: seq<Message>, me: UserId): (r: seq<UserId>)
    ensures forall u :: u in r <==> exists i :: 0 <= i < |msgs| && msgs[i].senderId == me && msgs[i].receiverId == Some(u)
  {
    if msgs == [] then []
    else
      var init, last := msgs[..|msgs| - 1], msgs[|msgs| - 1];
      assert forall i :: 0 <= i < |init| ==> init[i] == msgs[i];
      SentTo(init, me) + (if last.senderId == me && last.receiverId.Some? then [last.receiverId.value] else [])
  }

  /** The senders of the messages addressed to the caller, in table order. */
  function ReceivedFrom(msgs: seq<Message>, me: UserId): (r: seq<UserId>)
    ensures forall u :: u in r <==> exists i :: 0 <= i < |msgs| && msgs[i].senderId == u && msgs[i].receiverId == Some(me)
  {
    if msgs == [] then []
    else
      var init, last := msgs[..|msgs| - 1], msgs[|msgs| - 1];
      assert forall i :: 0 <= i < |init| ==> init[i] == msgs[i];
      ReceivedFrom(init, me) + (if last.receiverId == Some(me) then [last.senderId] else [])
  }

  /** `Array.from(userIds)`: the conversation partners in the order the set first saw them. */
  function Partners(msgs: seq<Message>, me: UserId): seq<UserId> {
    Distinct(SentTo(msgs, me) + ReceivedFrom(msgs, me))
  }

  /** Each partner once, and exactly the users the caller has exchanged a direct message with. */
  lemma PartnersExactly(msgs: seq<Message>, me: UserId)
    ensures NoDup(Partners(msgs, me))
    ensures forall u :: u in Partners(msgs, me) <==> exists i :: 0 <= i < |msgs| && Exchanged(msgs[i], me, u)
  {
    var all := SentTo(msgs, me) + ReceivedFrom(msgs, me);
    assert forall u :: u in all <==> u in SentTo(msgs, me) || u in ReceivedFrom(msgs, me);
    assert forall u :: u in Partners(msgs, me) <==> u in all by {
      forall u ensures u in Partners(msgs, me) <==> u in all {
        if u in all {
          var k :| 0 <= k < |all| && all[k] == u;
        }
      }
    }
  }

  /** The two `forEach` loops that fill the `userIds` set. */
  method CollectPartners(msgs: seq<Message>, me: UserId) returns (ids: seq<UserId>)
    ensures ids == Partners(msgs, me)
  {
    var sent := SentTo(msgs, me);
    var received := ReceivedFrom(msgs, me);
    ids := AddAll([], [], sent);
    assert sent == [] + sent;
    ids := AddAll(sent, ids, received);
  }

  /** One `forEach(m => userIds.add(...))`: adds the ids of `xs`, in order, to a set already
      filled from `before`. */
  method AddAll(before: seq<UserId>, start: seq<UserId>, xs: seq<UserId>) returns (ids: seq<UserId>)
    requires start == Distinct(before)
    ensures ids == Distinct(before + xs)
  {
    ids := start;
    assert before + xs[..0] == before;
    for j := 0 to |xs|
      invariant ids == Distinct(before + xs[..j])
    {
      AddStep(before, xs, j, ids);
      ids := if xs[j] in ids then ids else ids + [xs[j]];
    }
    assert xs[..|xs|] == xs;
  }

  /** One iteration of `AddAll`: adding `xs[j]` to the ids of `before + xs[..j]`. */
  lemma AddStep(before: seq<UserId>, xs: seq<UserId>, j: nat, ids: seq<UserId>)
    requires j < |xs| && ids == Distinct(before + xs[..j])
    ensures (if xs[j] in ids then ids else ids + [xs[j]]) == Distinct(before + xs[..j + 1])
  {
    assert before + xs[..j + 1] == (before + xs[..j]) + [xs[j]];
    DistinctStep(before + xs[..j], xs[j]);
  }

  function ByTime(ms: seq<Message>): (r: seq<Keyed<Message>>)
    ensures |r| == |ms| && forall i :: 0 <= i < |ms| ==> r[i] == Keyed(ms[i], ms[i].createdAt, 0)
  {
    seq(|ms|, i requires 0 <= i < |ms| => Keyed(ms[i], ms[i].createdAt, 0))
  }

  /** The rows of `ms`, newest first; rows with equal timestamps keep table order. */
  function NewestFirst(ms: seq<Message>): (r: seq<Message>)
    ensures |r| == |ms|
  {
    Items(SortDesc(ByTime(ms)))
  }

  lemma NewestFirstFacts(ms: seq<Message>)
    ensures forall i :: 0 <= i < |NewestFirst(ms)| ==> NewestFirst(ms)[i] in ms
    ensures forall i, j :: 0 <= i < j < |NewestFirst(ms)| ==> NewestFirst(ms)[i].createdAt >= NewestFirst(ms)[j].createdAt
  {
    var s := ByTime(ms);
    var P := (k: Keyed<Message>) => k.item in ms && k.major == k.item.createdAt;
    SortDescKeeps(s, P);
    var sorted := SortDesc(s);
    assert forall i :: 0 <= i < |sorted| ==> NewestFirst(ms)[i] == sorted[i].item && P(sorted[i]);
  }

  /** The messages the caller and `p` exchanged, in table order. */
  function Between(msgs: seq<Message>, me: UserId, p: UserId): seq<Message> {
    Filter(msgs, (m: Message) => Exchanged(m, me, p))
  }

  /** The newest message between the caller and `p`, as `.order(created_at desc).limit(1)`. */
  function Latest(msgs: seq<Message>, me: UserId, p: UserId): Option<Message> {
    var newest := NewestFirst(Between(msgs, me, p));
    if newest == [] then None else Some(newest[0])
  }

  /** The head of `NewestFirst(ms)` is a row of `ms` that no row of `ms` is newer than. */
  lemma NewestHead(ms: seq<Message>)
    ensures NewestFirst(ms) != [] <==> ms != []
    ensures ms != [] ==> NewestFirst(ms)[0] in ms
    ensures ms != [] ==> forall m :: m in ms ==> m.createdAt <= NewestFirst(ms)[0].createdAt
  {
    var newest := NewestFirst(ms);
    NewestFirstFacts(ms);
    forall m | m in ms
      ensures m.createdAt <= newest[0].createdAt
    {
      NewestFirstHas(ms, m);
      var k :| 0 <= k < |newest| && newest[k] == m;
      assert k == 0 || newest[0].createdAt >= newest[k].createdAt;
    }
  }

  /** There is a last message exactly when the two have exchanged one, and it is one of
      theirs that no other of theirs is newer than. */
  lemma LatestFacts(msgs: seq<Message>, me: UserId, p: UserId)
    ensures Latest(msgs, me, p).Some? <==> exists i :: 0 <= i < |msgs| && Exchanged(msgs[i], me, p)
    ensures Latest(msgs, me, p).Some? ==>
              && Latest(msgs, me, p).value in msgs && Exchanged(Latest(msgs, me, p).value, me, p)
              && forall j :: 0 <= j < |msgs| && Exchanged(msgs[j], me, p) ==> msgs[j].createdAt <= Latest(msgs, me, p).value.createdAt
  {
    var sel := Between(msgs, me, p);
    NewestHead(sel);
    if exists i :: 0 <= i < |msgs| && Exchanged(msgs[i], me, p) {
      var i :| 0 <= i < |msgs| && Exchanged(msgs[i], me, p);
      assert msgs[i] in sel;
    }
    if sel != [] {
      var head := NewestFirst(sel)[0];
      assert Latest(msgs, me, p) == Some(head);
      var k :| 0 <= k < |sel| && sel[k] == head;
      assert Exchanged(head, me, p);
      forall j | 0 <= j < |msgs| && Exchanged(msgs[j], me, p)
        ensures msgs[j].createdAt <= head.createdAt
      {
        assert msgs[j] in sel;
      }
    }
  }

  /** Every row of `ms` is among the rows `NewestFirst` returns. */
  lemma NewestFirstHas(ms: seq<Message>, m: Message)
    requires m in ms
    ensures m in NewestFirst(ms)
  {
    var s := ByTime(ms);
    var i :| 0 <= i < |ms| && ms[i] == m;
    SortDescMembers(s, s[i]);
    var r := SortDesc(s);
    var j :| 0 <= j < |r| && r[j] == s[i];
    assert NewestFirst(ms)[j] == m;
  }

  /** Number of unread messages `p` sent to the caller. */
  function Unread(msgs: seq<Message>, me: UserId, p: UserId): nat {
    CountIf(msgs, (m: Message) => m.senderId == p && m.receiverId == Some(me) && !m.isRead)
  }

  datatype Preview = Preview(content: string, createdAt: int, isFromMe: bool)
  datatype Conversation = Conversation(partnerId: UserId, partner: Option<User>, lastMessage: Option<Preview>, unreadCount: nat)

  function ConversationWith(msgs: seq<Message>, users: seq<User>, me: UserId, p: UserId): (c: Conversation)
    ensures c.partnerId == p && c.partner == UserById(users, p) && c.unreadCount == Unread(msgs, me, p)
    ensures c.lastMessage.Some? <==> Latest(msgs, me, p).Some?
    ensures c.lastMessage.Some? ==>
              var m := Latest(msgs, me, p).value;
              c.lastMessage.value == Preview(m.content, m.createdAt, m.senderId == me)
  {
    var last := Latest(msgs, me, p);
    Conversation(p, UserById(users, p),
                 if last.Some? then Some(Preview(last.value.content, last.value.createdAt, last.value.senderId == me)) else None,
                 Unread(msgs, me, p))
  }

  /** The sort key: the last message's time, or 0 (`new Date(0)`) when there is none. */
  function LastTime(c: Conversation): int {
    if c.lastMessage.Some? then c.lastMessage.value.createdAt else 0
  }

  function ByLastTime(cs: seq<Conversation>): (r: seq<Keyed<Conversation>>)
    ensures |r| == |cs| && forall i :: 0 <= i < |cs| ==> r[i] == Keyed(cs[i], LastTime(cs[i]), 0)
  {
    seq(|cs|, i requires 0 <= i < |cs| => Keyed(cs[i], LastTime(cs[i]), 0))
  }

  function ConversationsWith(msgs: seq<Message>, users: seq<User>, me: UserId, ps: seq<UserId>): (r: seq<Conversation>)
    ensures |r| == |ps| && forall i :: 0 <= i < |ps| ==> r[i] == ConversationWith(msgs, users, me, ps[i])
  {
    seq(|ps|, i requires 0 <= i < |ps| => ConversationWith(msgs, users, me, ps[i]))
  }

  /** `cs` by last-message time, newest first; the sort is stable. */
  function LatestFirst(cs: seq<Conversation>): (r: seq<Conversation>)
    ensures |r| == |cs|
  {
    Items(SortDesc(ByLastTime(cs)))
  }

  predicate KeyedByLastTime(k: Keyed<Conversation>, cs: seq<Conversation>) {
    k.item in cs && k.major == LastTime(k.item)
  }

  /** Ordering by last-message time keeps only conversations of `cs`, newest first. */
  lemma LatestFirstFacts(cs: seq<Conversation>)
    ensures forall i :: 0 <= i < |LatestFirst(cs)| ==> LatestFirst(cs)[i] in cs
    ensures forall i, j :: 0 <= i < j < |LatestFirst(cs)| ==> LastTime(LatestFirst(cs)[i]) >= LastTime(LatestFirst(cs)[j])
  {
    var s := ByLastTime(cs);
    var sorted := SortDesc(s);
    var r := LatestFirst(cs);
    forall k | 0 <= k < |s| ensures KeyedByLastTime(s[k], cs) {
      assert s[k].item == cs[k];
    }
    SortDescKeeps(s, (k: Keyed<Conversation>) => KeyedByLastTime(k, cs));
    forall i | 0 <= i < |r| ensures r[i] in cs {
      assert r[i] == sorted[i].item && KeyedByLastTime(sorted[i], cs);
    }
    forall i, j | 0 <= i < j < |r| ensures LastTime(r[i]) >= LastTime(r[j]) {
      assert r[i] == sorted[i].item && KeyedByLastTime(sorted[i], cs);
      assert r[j] == sorted[j].item && KeyedByLastTime(sorted[j], cs);
      assert Ahead(sorted[i], sorted[j]);
    }
  }

  /** `GET /conversations`. */
  function Conversations(msgs: seq<Message>, users: seq<User>, me: UserId): (r: seq<Conversation>)
    ensures |r| == |Partners(msgs, me)|
  {
    var ps := Partners(msgs, me);
    if |ps| == 0 then [] else LatestFirst(ConversationsWith(msgs, users, me, ps))
  }

  /** Every conversation is with a partner and carries that partner's last message and unread
      count, and the list is ordered by last-message time, newest first. */
  lemma ConversationsFacts(msgs: seq<Message>, users: seq<User>, me: UserId)
    ensures var r := Conversations(msgs, users, me);
            && (forall i :: 0 <= i < |r| ==>
                  r[i].partnerId in Partners(msgs, me) && r[i] == ConversationWith(msgs, users, me, r[i].partnerId))
            && (forall i, j :: 0 <= i < j < |r| ==> LastTime(r[i]) >= LastTime(r[j]))
  {
    var ps := Partners(msgs, me);
    if |ps| > 0 {
      var cs := ConversationsWith(msgs, users, me, ps);
      LatestFirstFacts(cs);
      var r := LatestFirst(cs);
      forall i | 0 <= i < |r|
        ensures r[i].partnerId in ps && r[i] == ConversationWith(msgs, users, me, r[i].partnerId)
      {
        ConversationOf(msgs, users, me, ps, r[i]);
      }
    }
  }

  /** A sort entry keyed by its conversation's last-message time. */
  predicate KeyedAsConversation(k: Keyed<Conversation>) {
    k == Keyed(k.item, LastTime(k.item), 0)
  }

  /** The conversation sort drops and repeats nothing: distinct conversations stay distinct,
      and each of them is listed. */
  lemma LatestFirstPermutes(cs: seq<Conversation>)
    requires NoDup(cs)
    ensures NoDup(LatestFirst(cs))
    ensures forall c :: c in cs ==> c in LatestFirst(cs)
  {
    var s := ByLastTime(cs);
    var sorted := SortDesc(s);
    var r := LatestFirst(cs);
    forall i, j | 0 <= i < j < |s| ensures s[i] != s[j] {
      assert s[i].item == cs[i] && s[j].item == cs[j];
    }
    PermutationNoDup(s, sorted);
    SortDescKeeps(s, KeyedAsConversation);
    forall i, j | 0 <= i < j < |r| ensures r[i] != r[j] {
      assert sorted[i] != sorted[j];
      assert KeyedAsConversation(sorted[i]) && KeyedAsConversation(sorted[j]);
    }
    forall c | c in cs ensures c in r {
      var k :| 0 <= k < |cs| && cs[k] == c;
      assert s[k] in multiset(sorted);
      var i :| 0 <= i < |sorted| && sorted[i] == s[k];
      assert r[i] == c;
    }
  }

  /** One conversation per partner: no partner appears twice, and every partner appears. */
  lemma ConversationsPerPartner(msgs: seq<Message>, users: seq<User>, me: UserId)
    ensures var r := Conversations(msgs, users, me);
            && (forall i, j :: 0 <= i < j < |r| ==> r[i].partnerId != r[j].partnerId)
            && (forall p :: p in Partners(msgs, me) ==> exists i :: 0 <= i < |r| && r[i].partnerId == p)
  {
    var ps := Partners(msgs, me);
    PartnersExactly(msgs, me);
    ConversationsFacts(msgs, users, me);
    if |ps| > 0 {
      var cs := ConversationsWith(msgs, users, me, ps);
      var r := Conversations(msgs, users, me);
      assert r == LatestFirst(cs);
      forall i, j | 0 <= i < j < |cs| ensures cs[i] != cs[j] {
        assert cs[i].partnerId == ps[i] && cs[j].partnerId == ps[j];
      }
      LatestFirstPermutes(cs);
      forall i, j | 0 <= i < j < |r| ensures r[i].partnerId != r[j].partnerId {
        assert r[i] != r[j];
      }
      forall p | p in ps ensures exists i :: 0 <= i < |r| && r[i].partnerId == p {
        var k :| 0 <= k < |ps| && ps[k] == p;
        assert cs[k] in r;
      }
    }
  }

  /** Each conversation built for a list of partners is the one with its own partner. */
  lemma ConversationOf(msgs: seq<Message>, users: seq<User>, me: UserId, ps: seq<UserId>, c: Conversation)
    requires c in ConversationsWith(msgs, users, me, ps)
    ensures c.partnerId in ps && c == ConversationWith(msgs, users, me, c.partnerId)
  {
    var cs := ConversationsWith(msgs, users, me, ps);
    var k :| 0 <= k < |cs| && cs[k] == c;
    assert cs[k] == ConversationWith(msgs, users, me, ps[k]);
  }

  // ---------------------------------------------------------------------------------------
  // GET /user/:userId and GET /community/:communityId

  /** A page of `sel` counted from the newest message, returned oldest first (`reverse()`). */
  function OldestFirstPage(sel: seq<Message>, page: nat, limit: nat): (r: seq<Message>)
    requires page >= 1 && limit >= 1
    ensures |r| <= limit
    ensures |r| == if Offset(page, limit) < |sel| then Min(limit, |sel| - Offset(page, limit)) else 0
    ensures ReversedWindow(r, NewestFirst(sel), Offset(page, limit))
  {
    ReversedPage(NewestFirst(sel), page, limit)
  }

  /** Every message of `sel` is on some page. */
  lemma OldestFirstPageCovers(sel: seq<Message>, limit: nat, m: Message)
    requires limit >= 1 && m in sel
    ensures exists page: nat :: page >= 1 && m in OldestFirstPage(sel, page, limit)
  {
    var newest := NewestFirst(sel);
    NewestFirstHas(sel, m);
    ReversedPageCovers(newest, limit, m);
    var page: nat :| page >= 1 && m in ReversedPage(newest, page, limit);
    assert OldestFirstPage(sel, page, limit) == ReversedPage(newest, page, limit);
  }

  lemma OldestFirstPageFacts(sel: seq<Message>, page: nat, limit: nat)
    requires page >= 1 && limit >= 1
    ensures var r := OldestFirstPage(sel, page, limit);
            && (forall i :: 0 <= i < |r| ==> r[i] in sel)
            && (forall i, j :: 0 <= i < j < |r| ==> r[i].createdAt <= r[j].createdAt)
  {
    var newest := NewestFirst(sel);
    NewestFirstFacts(sel);
    var p := PageRows(newest, page, limit);
    var off := Offset(page, limit);
    assert forall i :: 0 <= i < |p| ==> p[i] == newest[off + i];
  }

  datatype ThreadItem = ThreadItem(id: MessageId, content: string, messageType: string, isFromMe: bool, isRead: bool, createdAt: int)

  function ThreadItems(ms: seq<Message>, me: UserId): (r: seq<ThreadItem>)
    ensures |r| == |ms|
    ensures forall i :: 0 <= i < |ms| ==>
              r[i] == ThreadItem(ms[i].id, ms[i].content, ms[i].messageType, ms[i].senderId == me, ms[i].isRead, ms[i].createdAt)
  {
    seq(|ms|, i requires 0 <= i < |ms| =>
      ThreadItem(ms[i].id, ms[i].content, ms[i].messageType, ms[i].senderId == me, ms[i].isRead, ms[i].createdAt))
  }

  datatype ThreadReply = ThreadReply(messages: seq<ThreadItem>, total: nat, page: nat, totalPages: nat)

  /** The direct messages between the caller and `other` outside any community. */
  function ThreadRows(msgs: seq<Message>, me: UserId, other: UserId): (r: seq<Message>)
    ensures forall i :: 0 <= i < |r| ==> r[i] in msgs && Exchanged(r[i], me, other) && r[i].communityId.None?
    ensures forall j :: 0 <= j < |msgs| && Exchanged(msgs[j], me, other) && msgs[j].communityId.None? ==> msgs[j] in r
  {
    Filter(msgs, (m: Message) => Exchanged(m, me, other) && m.communityId.None?)
  }

  /** The reply of `GET /user/:userId`, computed on the rows as they were before the thread
      is marked read. */
  function Thread(msgs: seq<Message>, me: UserId, other: UserId, page: nat, limit: nat): (r: ThreadReply)
    requires page >= 1 && limit >= 1
    ensures r.total == |ThreadRows(msgs, me, other)| && r.page == page && r.totalPages == TotalPages(r.total, limit)
    ensures |r.messages| <= limit
    ensures r.messages == ThreadItems(OldestFirstPage(ThreadRows(msgs, me, other), page, limit), me)
  {
    var sel := ThreadRows(msgs, me, other);
    ThreadReply(ThreadItems(OldestFirstPage(sel, page, limit), me), |sel|, page, TotalPages(|sel|, limit))
  }

  /** The thread is returned oldest first, every item is a message of the thread, and
      `isFromMe` holds exactly for the caller's own messages. */
  lemma ThreadFacts(msgs: seq<Message>, me: UserId, other: UserId, page: nat, limit: nat)
    requires page >= 1 && limit >= 1
    ensures var ms := Thread(msgs, me, other, page, limit).messages;
            && (forall i, j :: 0 <= i < j < |ms| ==> ms[i].createdAt <= ms[j].createdAt)
            && (forall i :: 0 <= i < |ms| ==>
                  exists m :: m in msgs && Exchanged(m, me, other) && m.id == ms[i].id
                              && (ms[i].isFromMe <==> m.senderId == me) && ms[i].isRead == m.isRead)
  {
    var sel := ThreadRows(msgs, me, other);
    var page' := OldestFirstPage(sel, page, limit);
    OldestFirstPageFacts(sel, page, limit);
    var ms := Thread(msgs, me, other, page, limit).messages;
    forall i | 0 <= i < |ms|
      ensures exists m :: m in msgs && Exchanged(m, me, other) && m.id == ms[i].id
                          && (ms[i].isFromMe <==> m.senderId == me) && ms[i].isRead == m.isRead
    {
      assert page'[i] in sel;
    }
  }

  /** Every message of the thread appears, as its item, on some page. */
  lemma ThreadCovers(msgs: seq<Message>, me: UserId, other: UserId, limit: nat, m: Message)
    requires limit >= 1
    requires m in msgs && Exchanged(m, me, other) && m.communityId.None?
    ensures exists page: nat :: page >= 1 &&
              ThreadItem(m.id, m.content, m.messageType, m.senderId == me, m.isRead, m.createdAt)
                in Thread(msgs, me, other, page, limit).messages
  {
    var sel := ThreadRows(msgs, me, other);
    OldestFirstPageCovers(sel, limit, m);
    var page: nat :| page >= 1 && m in OldestFirstPage(sel, page, limit);
    var o := OldestFirstPage(sel, page, limit);
    var k :| 0 <= k < |o| && o[k] == m;
    assert Thread(msgs, me, other, page, limit).messages[k]
        == ThreadItem(m.id, m.content, m.messageType, m.senderId == me, m.isRead, m.createdAt);
  }

  /** The update that follows the fetch: every unread message from `other` to the caller
      becomes read. */
  function ReadFrom(msgs: seq<Message>, other: UserId, me: UserId): (r: seq<Message>)
    ensures |r| == |msgs|
    ensures forall i :: 0 <= i < |msgs| ==>
              r[i] == if msgs[i].senderId == other && msgs[i].receiverId == Some(me) then msgs[i].(isRead := true) else msgs[i]
  {
    seq(|msgs|, i requires 0 <= i < |msgs| =>
      if msgs[i].senderId == other && msgs[i].receiverId == Some(me) then msgs[i].(isRead := true) else msgs[i])
  }

  /** After opening a thread nothing from the other user to the caller is unread, and no
      message to or from anybody else changed. */
  lemma ReadFromFacts(msgs: seq<Message>, other: UserId, me: UserId)
    ensures Unread(ReadFrom(msgs, other, me), me, other) == 0
    ensures forall i :: 0 <= i < |msgs| && !(msgs[i].senderId == other && msgs[i].receiverId == Some(me)) ==>
              ReadFrom(msgs, other, me)[i] == msgs[i]
  {
    FilterNone(ReadFrom(msgs, other, me), (m: Message) => m.senderId == other && m.receiverId == Some(me) && !m.isRead);
  }

  /** `GET /user/:userId`: the reply reflects the rows before the update, so the `isRead` it
      reports for the other user's messages are the values they had when the thread was opened. */
  method OpenThread(db: Database, me: UserId, other: UserId, page: nat, limit: nat) returns (r: ThreadReply)
    requires page >= 1 && limit >= 1
    modifies db`messages
    ensures r == Thread(old(db.messages), me, other, page, limit)
    ensures db.messages == ReadFrom(old(db.messages), other, me)
  {
    r := Thread(db.messages, me, other, page, limit);
    db.messages := ReadFrom(db.messages, other, me);
  }

  datatype HistoryItem = HistoryItem(id: MessageId, content: string, messageType: string, senderId: UserId, isFromMe: bool, createdAt: int)

  function HistoryItems(ms: seq<Message>, me: UserId): (r: seq<HistoryItem>)
    ensures |r| == |ms|
    ensures forall i :: 0 <= i < |ms| ==>
              r[i] == HistoryItem(ms[i].id, ms[i].content, ms[i].messageType, ms[i].senderId, ms[i].senderId == me, ms[i].createdAt)
  {
    seq(|ms|, i requires 0 <= i < |ms| =>
      HistoryItem(ms[i].id, ms[i].content, ms[i].messageType, ms[i].senderId, ms[i].senderId == me, ms[i].createdAt))
  }

  datatype HistoryReply =
    | History(messages: seq<HistoryItem>, total: nat, page: nat, totalPages: nat)
    | HistoryForbidden(status: nat, error: string)

  /** The messages posted in community `c`, in table order. */
  function CommunityRows(msgs: seq<Message>, c: CommunityId): (r: seq<Message>)
    ensures forall m :: m in r <==> m in msgs && m.communityId == Some(c)
  {
    Filter(msgs, (m: Message) => m.communityId == Some(c))
  }

  /** `GET /community/:communityId`: members only (403); then a page of the community's
      messages, oldest first. */
  function CommunityHistory(members: map<(CommunityId, UserId), string>, msgs: seq<Message>, me: UserId,
                            c: CommunityId, page: nat, limit: nat): (r: HistoryReply)
    requires page >= 1 && limit >= 1
    ensures r.HistoryForbidden? <==> (c, me) !in members
    ensures r.HistoryForbidden? ==> r == HistoryForbidden(403, "You must be a member to view messages")
    ensures r.History? ==>
              && |r.messages| <= limit
              && r.total == |CommunityRows(msgs, c)|
              && r.totalPages == TotalPages(r.total, limit)
              && r.messages == HistoryItems(OldestFirstPage(CommunityRows(msgs, c), page, limit), me)
              && forall i, j :: 0 <= i < j < |r.messages| ==> r.messages[i].createdAt <= r.messages[j].createdAt
  {
    if Membership(members, c, me).None? then HistoryForbidden(403, "You must be a member to view messages")
    else
      var sel := CommunityRows(msgs, c);
      OldestFirstPageFacts(sel, page, limit);
      History(HistoryItems(OldestFirstPage(sel, page, limit), me), |sel|, page, TotalPages(|sel|, limit))
  }

  /** For a member, every message of the community appears, as its item, on some page. */
  lemma HistoryCovers(members: map<(CommunityId, UserId), string>, msgs: seq<Message>, me: UserId,
                      c: CommunityId, limit: nat, m: Message)
    requires limit >= 1 && (c, me) in members
    requires m in msgs && m.communityId == Some(c)
    ensures exists page: nat :: page >= 1 &&
              HistoryItem(m.id, m.content, m.messageType, m.senderId, m.senderId == me, m.createdAt)
                in CommunityHistory(members, msgs, me, c, page, limit).messages
  {
    var sel := CommunityRows(msgs, c);
    OldestFirstPageCovers(sel, limit, m);
    var page: nat :| page >= 1 && m in OldestFirstPage(sel, page, limit);
    var o := OldestFirstPage(sel, page, limit);
    var k :| 0 <= k < |o| && o[k] == m;
    assert CommunityHistory(members, msgs, me, c, page, limit).messages[k]
        == HistoryItem(m.id, m.content, m.messageType, m.senderId, m.senderId == me, m.createdAt);
  }

  // ---------------------------------------------------------------------------------------
  // POST /send, PUT /read/:messageId

  /** `POST /send`: a receiver or a community is required (400), and sending to a community
      requires membership (403); then the message is stored with id `newId` at time `now`.
      A missing message type is 'text'. */
  method Send(db: Database, me: UserId, receiverId: Option<UserId>, communityId: Option<CommunityId>,
              content: string, messageType: Option<string>, newId: MessageId, now: int)
    returns (r: Reply)
    modifies db`messages
    ensures !Present(receiverId) && !Present(communityId) ==>
              r == Fail(400, "Either receiverId or communityId is required") && db.messages == old(db.messages)
    ensures (Present(receiverId) || Present(communityId)) && Present(communityId) && (communityId.value, me) !in db.members ==>
              r == Fail(403, "You must be a member to send messages") && db.messages == old(db.messages)
    ensures r.Ok? <==> (Present(receiverId) || Present(communityId)) && (Present(communityId) ==> (communityId.value, me) in db.members)
    ensures r.Ok? ==>
              && r == Ok("Message sent")
              && db.messages == old(db.messages) +
                   [Message(newId, me, OrNull(receiverId), OrNull(communityId), content,
                            if messageType.Some? then messageType.value else "text", false, now)]
  {
    if !Present(receiverId) && !Present(communityId) {
      return Fail(400, "Either receiverId or communityId is required");
    }
    if Present(communityId) && Membership(db.members, communityId.value, me).None? {
      return Fail(403, "You must be a member to send messages");
    }
    db.messages := db.messages +
      [Message(newId, me, OrNull(receiverId), OrNull(communityId), content,
               if messageType.Some? then messageType.value else "text", false, now)];
    r := Ok("Message sent");
  }

  /** The update of `PUT /read/:messageId`: the message with that id is marked read only when
      the caller is its receiver. */
  function ReadOne(msgs: seq<Message>, id: MessageId, me: UserId): (r: seq<Message>)
    ensures |r| == |msgs|
    ensures forall i :: 0 <= i < |msgs| ==> r[i] == msgs[i] || (r[i] == msgs[i].(isRead := true) && msgs[i].id == id)
    ensures forall i :: 0 <= i < |msgs| && msgs[i].receiverId != Some(me) ==> r[i] == msgs[i]
    ensures forall i :: 0 <= i < |msgs| && msgs[i].receiverId == Some(me) && msgs[i].id == id ==> r[i].isRead
  {
    seq(|msgs|, i requires 0 <= i < |msgs| =>
      if msgs[i].id == id && msgs[i].receiverId == Some(me) then msgs[i].(isRead := true) else msgs[i])
  }

  method MarkRead(db: Database, me: UserId, id: MessageId) returns (r: Reply)
    modifies db`messages
    ensures r == Ok("Message marked as read")
    ensures db.messages == ReadOne(old(db.messages), id, me)
  {
    db.messages := ReadOne(db.messages, id, me);
    r := Ok("Message marked as read");
  }
}
