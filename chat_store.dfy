/** The client's chat store: the open thread's messages, the online-user set, who is
    typing, the unread counter and the conversation list. Each action replaces the fields it
    names and leaves the others alone. */
module Chat {
  import opened Common

  datatype ChatMessage = ChatMessage(id: string, senderId: UserId, content: string, createdAt: int)

  /** An entry of the conversation list. */
  datatype Entry = Entry(partnerId: UserId, lastMessage: Option<ChatMessage>, unreadCount: int)

  /** An element of the list `setOnlineUsers` receives. */
  datatype OnlineEntry = OnlineEntry(id: UserId, name: string)

  /** The `map` of `updateConversation`: the entries of `partner` get the new last message and
      one more unread message. */
  function Bumped(convs: seq<Entry>, partner: UserId, m: ChatMessage): (r: seq<Entry>)
    ensures |r| == |convs|
    ensures forall i :: 0 <= i < |convs| && convs[i].partnerId == partner ==>
              r[i] == Entry(partner, Some(m), convs[i].unreadCount + 1)
    ensures forall i :: 0 <= i < |convs| && convs[i].partnerId != partner ==> r[i] == convs[i]
  {
    if convs == [] then []
    else
      var c := convs[0];
      [if c.partnerId == partner then c.(lastMessage := Some(m), unreadCount := c.unreadCount + 1) else c]
        + Bumped(convs[1..], partner, m)
  }

  /** The `map` of `markConversationRead`. */
  function ReadFor(convs: seq<Entry>, partner: UserId): (r: seq<Entry>)
    ensures |r| == |convs|
    ensures forall i :: 0 <= i < |convs| && convs[i].partnerId == partner ==> r[i] == convs[i].(unreadCount := 0)
    ensures forall i :: 0 <= i < |convs| && convs[i].partnerId != partner ==> r[i] == convs[i]
  {
    if convs == [] then []
    else
      var c := convs[0];
      [if c.partnerId == partner then c.(unreadCount := 0) else c] + ReadFor(convs[1..], partner)
  }

  /** The unread messages over all conversations. */
  function TotalUnread(convs: seq<Entry>): int {
    if convs == [] then 0 else convs[0].unreadCount + TotalUnread(convs[1..])
  }

  /** Number of entries for `partner`. */
  function EntriesOf(convs: seq<Entry>, partner: UserId): nat {
    if convs == [] then 0 else (if convs[0].partnerId == partner then 1 else 0) + EntriesOf(convs[1..], partner)
  }

  /** The unread messages in the entries for `partner`. */
  function UnreadOf(convs: seq<Entry>, partner: UserId): int {
    if convs == [] then 0
    else (if convs[0].partnerId == partner then convs[0].unreadCount else 0) + UnreadOf(convs[1..], partner)
  }

  /** An incoming message adds one unread message per entry of its partner and none elsewhere. */
  lemma {:induction false} BumpedTotal(convs: seq<Entry>, partner: UserId, m: ChatMessage)
    ensures TotalUnread(Bumped(convs, partner, m)) == TotalUnread(convs) + EntriesOf(convs, partner)
    ensures UnreadOf(Bumped(convs, partner, m), partner) == UnreadOf(convs, partner) + EntriesOf(convs, partner)
  {
    if convs != [] {
      BumpedTotal(convs[1..], partner, m);
    }
  }

  /** Marking a conversation read removes exactly its partner's unread messages from the
      total, and leaves none for that partner. */
  lemma {:induction false} ReadForTotal(convs: seq<Entry>, partner: UserId)
    ensures TotalUnread(ReadFor(convs, partner)) == TotalUnread(convs) - UnreadOf(convs, partner)
    ensures UnreadOf(ReadFor(convs, partner), partner) == 0
  {
    if convs != [] {
      ReadForTotal(convs[1..], partner);
    }
  }

  /** The ids of a list, as `new Set(users.map(u => u.id))` collects them. */
  function IdsOf(users: seq<OnlineEntry>): (s: set<UserId>)
    ensures forall u :: u in s <==> exists i :: 0 <= i < |users| && users[i].id == u
  {
    set i | 0 <= i < |users| :: users[i].id
  }

  class ChatStore {
    var conversations: seq<Entry>
    var currentChat: Option<UserId>
    var messages: seq<ChatMessage>
    var onlineUsers: set<UserId>
    /** user id -> the time the user was last reported typing. */
    var typingUsers: map<UserId, int>
    var unreadCount: int

    constructor ()
      ensures conversations == [] && currentChat == None && messages == []
      ensures onlineUsers == {} && typingUsers == map[] && unreadCount == 0
    {
      conversations, currentChat, messages := [], None, [];
      onlineUsers, typingUsers, unreadCount := {}, map[], 0;
    }

    method SetConversations(convs: seq<Entry>)
      modifies this`conversations
      ensures conversations == convs
    {
      conversations := convs;
    }

    /** Opening a chat empties the message list. */
    method SetCurrentChat(chat: Option<UserId>)
      modifies this`currentChat, this`messages
      ensures currentChat == chat && messages == []
    {
      currentChat, messages := chat, [];
    }

    method SetMessages(ms: seq<ChatMessage>)
      modifies this`messages
      ensures messages == ms
    {
      messages := ms;
    }

    /** The message goes to the end; the earlier ones stay as they were. */
    method AddMessage(m: ChatMessage)
      modifies this`messages
      ensures |messages| == |old(messages)| + 1 && messages[|messages| - 1] == m
      ensures messages[..|old(messages)|] == old(messages)
    {
      messages := messages + [m];
    }

    method UpdateConversation(partner: UserId, m: ChatMessage)
      modifies this`conversations
      ensures conversations == Bumped(old(conversations), partner, m)
      ensures TotalUnread(conversations) == TotalUnread(old(conversations)) + EntriesOf(old(conversations), partner)
    {
      BumpedTotal(conversations, partner, m);
      conversations := Bumped(conversations, partner, m);
    }

    /** The online set becomes exactly the ids of the list. */
    method SetOnlineUsers(users: seq<OnlineEntry>)
      modifies this`onlineUsers
      ensures forall u :: u in onlineUsers <==> exists i :: 0 <= i < |users| && users[i].id == u
    {
      onlineUsers := IdsOf(users);
    }

    /** Adds one id; adding an id already present changes nothing. */
    method AddOnlineUser(u: UserId)
      modifies this`onlineUsers
      ensures onlineUsers == old(onlineUsers) + {u}
      ensures u in old(onlineUsers) ==> onlineUsers == old(onlineUsers)
      ensures IsUserOnline(u)
    {
      onlineUsers := onlineUsers + {u};
    }

    /** Removes one id and no other. */
    method RemoveOnlineUser(u: UserId)
      modifies this`onlineUsers
      ensures onlineUsers == old(onlineUsers) - {u}
      ensures !IsUserOnline(u)
    {
      onlineUsers := onlineUsers - {u};
    }

    /** `setTyping(u, true)` records `u` with the current time, `setTyping(u, false)` forgets
        `u`; the other entries stay. */
    method SetTyping(u: UserId, isTyping: bool, now: int)
      modifies this`typingUsers
      ensures isTyping ==> typingUsers == old(typingUsers)[u := now]
      ensures !isTyping ==> typingUsers == old(typingUsers) - {u}
      ensures forall v :: v != u ==> (v in typingUsers <==> v in old(typingUsers))
      ensures forall v :: v != u && v in typingUsers ==> typingUsers[v] == old(typingUsers)[v]
    {
      if isTyping {
        typingUsers := typingUsers[u := now];
      } else {
        typingUsers := typingUsers - {u};
      }
    }

    method SetUnreadCount(count: int)
      modifies this`unreadCount
      ensures unreadCount == count
    {
      unreadCount := count;
    }

    /** `Math.max(0, unreadCount - 1)`: one less, but never below zero. */
    method DecrementUnread()
      modifies this`unreadCount
      ensures unreadCount >= 0
      ensures old(unreadCount) >= 1 ==> unreadCount == old(unreadCount) - 1
      ensures old(unreadCount) < 1 ==> unreadCount == 0
    {
      unreadCount := if unreadCount - 1 > 0 then unreadCount - 1 else 0;
    }

    method MarkConversationRead(partner: UserId)
      modifies this`conversations
      ensures conversations == ReadFor(old(conversations), partner)
      ensures UnreadOf(conversations, partner) == 0
      ensures TotalUnread(conversations) == TotalUnread(old(conversations)) - UnreadOf(old(conversations), partner)
    {
      ReadForTotal(conversations, partner);
      conversations := ReadFor(conversations, partner);
    }

    predicate IsUserOnline(u: UserId)
      reads this
    {
      u in onlineUsers
    }
  }
}
