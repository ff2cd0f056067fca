/** The Socket.IO server: the handshake, the process-wide registry of online users
    (`activeUsers`, `userSockets`), room membership, and the events each handler emits.
    Emitted events are appended to an outbox together with the set of sockets they reach.
    Handlers run one at a time; the message and notification rows they write live in the
    database, and an insert's failure is a parameter. */
module Hub {
  import opened Common
  import opened Text
  import opened Db
  import Middleware
  import Messages

  type SocketId = string

  /** `socket.user`: the columns the handshake selects. */
  datatype SocketUser = SocketUser(id: UserId, name: string, profilePicture: string)

  /** A value of `activeUsers`. */
  datatype Presence = Presence(id: UserId, name: string, profilePicture: string, socketId: SocketId)

  /** The `messageData` object built after a message insert. */
  datatype MessageData = MessageData(id: MessageId, content: string, messageType: string, sender: SocketUser,
                                     createdAt: int, isRead: bool)

  datatype HubEvent =
    | UserOnline(userId: UserId, user: SocketUser)
    | OnlineUsers(users: set<Presence>)
    | MessageError(error: string)
    | MessageSent(data: MessageData)
    | NewMessage(data: MessageData, isFromMe: bool)
    | NewNotification(kind: string, sender: SocketUser, preview: string)
    | CommunityMessage(communityId: CommunityId, data: MessageData)
    | UserTyping(room: Option<CommunityId>, userId: UserId, user: SocketUser, isTyping: bool)
    | MessageRead(messageId: MessageId)
    | UserOffline(userId: UserId)

  /** One emitted event and the sockets it reaches. */
  datatype Delivery = Delivery(to: set<SocketId>, event: HubEvent)

  datatype Handshake = Admitted(user: SocketUser) | Refused(reason: string)

  /** The `io.use` handshake with `verify` standing for `jwt.verify`: a missing token, a token
      the oracle refuses, and a decoded id that names no single user are each refused with
      their own reason; otherwise the socket carries the user's id, name and picture. */
  function Authorize(users: seq<User>, token: Option<string>, verify: string -> Middleware.JwtOutcome): (h: Handshake)
    ensures !Present(token) ==> h == Refused("Authentication required")
    ensures Present(token) && !verify(token.value).Decoded? ==> h == Refused("Invalid token")
    ensures Present(token) && verify(token.value).Decoded? && UserById(users, verify(token.value).userId).None? ==>
              h == Refused("User not found")
    ensures h.Admitted? <==>
              Present(token) && verify(token.value).Decoded? && UserById(users, verify(token.value).userId).Some?
    ensures h.Admitted? ==>
              var u := UserById(users, verify(token.value).userId).value;
              h.user == SocketUser(u.id, u.name, u.profilePicture) && h.user.id == verify(token.value).userId
  {
    if !Present(token) then Refused("Authentication required")
    else
      match verify(token.value)
      case Decoded(id) =>
        (match UserById(users, id)
         case None => Refused("User not found")
         case Some(u) => Admitted(SocketUser(u.id, u.name, u.profilePicture)))
      case _ => Refused("Invalid token")
  }

  /** The room `community_<id>`. */
  function CommunityRoom(c: CommunityId): string {
    "community_" + c
  }

  const SendFailure := MessageError("Failed to send message")

  /** The messages row `send_message` inserts; `messageType` defaults to "text" when absent. */
  function MessageRow(id: MessageId, sender: UserId, receiverId: Option<UserId>, communityId: Option<CommunityId>,
                      content: string, messageType: Option<string>, now: int): Message
  {
    Message(id, sender, OrNull(receiverId), OrNull(communityId), content,
            if messageType.Some? then messageType.value else "text", false, now)
  }

  /** The notification row a direct message leaves for its receiver. */
  function MessageNotification(receiver: UserId, sender: SocketUser, id: MessageId): Notification {
    Notification(receiver, sender.id, "new_message", "New Message", sender.name + " sent you a message",
                 "/chat/" + sender.id, Some(id), false)
  }

  /** The events a direct message to `receiverId` sends: `message_sent` to the sender's
      socket, then, when the receiver has a registered socket, `new_message` and
      `new_notification` (a 50-character preview) to that socket only. */
  function DirectDeliveries(userSockets: map<UserId, SocketId>, socket: SocketId, receiverId: Option<UserId>,
                            data: MessageData): (r: seq<Delivery>)
    ensures |r| == if !Present(receiverId) then 0 else if receiverId.value in userSockets then 3 else 1
    ensures r != [] ==> r[0] == Delivery({socket}, MessageSent(data))
    ensures |r| == 3 ==> r[1].to == r[2].to == {userSockets[receiverId.value]}
    ensures |r| == 3 ==> r[1].event == NewMessage(data, false)
    ensures |r| == 3 ==> r[2].event == NewNotification("new_message", data.sender, Prefix(data.content, 50))
  {
    if !Present(receiverId) then []
    else
      var sent := [Delivery({socket}, MessageSent(data))];
      if receiverId.value in userSockets then
        var target := {userSockets[receiverId.value]};
        sent + [Delivery(target, NewMessage(data, false)),
                Delivery(target, NewNotification("new_message", data.sender, Prefix(data.content, 50)))]
      else sent
  }

  /** The event a message to community `communityId` sends to the sockets of its room. */
  function RoomDeliveries(communityId: Option<CommunityId>, room: set<SocketId>, data: MessageData): (r: seq<Delivery>)
    ensures r != [] <==> Present(communityId)
    ensures forall k :: 0 <= k < |r| ==> r[k] == Delivery(room, CommunityMessage(communityId.value, data))
  {
    if Present(communityId) then [Delivery(room, CommunityMessage(communityId.value, data))] else []
  }

  /** Every delivery of `ds` goes to sockets of `connected` only. */
  predicate Reaches(ds: seq<Delivery>, connected: set<SocketId>) {
    forall k :: 0 <= k < |ds| ==> ds[k].to <= connected
  }

  lemma ReachesAppend(a: seq<Delivery>, b: seq<Delivery>, connected: set<SocketId>)
    requires Reaches(a, connected) && Reaches(b, connected)
    ensures Reaches(a + b, connected)
  {
    forall k | 0 <= k < |a + b| ensures (a + b)[k].to <= connected {
      if k >= |a| {
        assert (a + b)[k] == b[k - |a|];
      }
    }
  }

  /** The registry invariant over plain values: the two maps have the same keys and agree,
      every registered socket is connected and belongs to the user it is registered for, and
      rooms hold connected sockets only. */
  ghost predicate Registry(activeUsers: map<UserId, Presence>, userSockets: map<UserId, SocketId>,
                           sockets: map<SocketId, SocketUser>, rooms: set<(string, SocketId)>)
  {
    && activeUsers.Keys == userSockets.Keys
    && (forall u :: u in userSockets ==>
          && activeUsers[u] == Presence(u, activeUsers[u].name, activeUsers[u].profilePicture, userSockets[u])
          && userSockets[u] in sockets && sockets[userSockets[u]].id == u)
    && (forall p :: p in rooms ==> p.1 in sockets)
  }

  /** Registering a new socket for its user keeps the invariant. */
  lemma RegisterKeeps(activeUsers: map<UserId, Presence>, userSockets: map<UserId, SocketId>,
                      sockets: map<SocketId, SocketUser>, rooms: set<(string, SocketId)>,
                      socket: SocketId, u: SocketUser)
    requires Registry(activeUsers, userSockets, sockets, rooms) && socket !in sockets
    ensures Registry(activeUsers[u.id := Presence(u.id, u.name, u.profilePicture, socket)], userSockets[u.id := socket],
                     sockets[socket := u], rooms + {(u.id, socket)})
  {
  }

  /** Dropping a socket and every registry entry of its user keeps the invariant. */
  lemma UnregisterKeeps(activeUsers: map<UserId, Presence>, userSockets: map<UserId, SocketId>,
                        sockets: map<SocketId, SocketUser>, rooms: set<(string, SocketId)>, socket: SocketId)
    requires Registry(activeUsers, userSockets, sockets, rooms) && socket in sockets
    ensures var u := sockets[socket].id;
            Registry(activeUsers - {u}, userSockets - {u}, sockets - {socket}, set p | p in rooms && p.1 != socket)
  {
  }

  class PresenceHub {
    /** user id -> the presence record of the user's latest connection. */
    var activeUsers: map<UserId, Presence>
    /** user id -> the socket of the user's latest connection. */
    var userSockets: map<UserId, SocketId>
    /** The connected sockets, each with the user its handshake authenticated. */
    var sockets: map<SocketId, SocketUser>
    /** (room, socket) for every room a connected socket has joined. */
    var rooms: set<(string, SocketId)>
    /** Every event emitted so far, in order. */
    var outbox: seq<Delivery>

    /** The registry invariant on the hub's fields. */
    ghost predicate Valid()
      reads this
    {
      Registry(activeUsers, userSockets, sockets, rooms)
    }

    /** The sockets in `room`. */
    function Members(room: string): (r: set<SocketId>)
      reads this
      ensures Valid() ==> r <= sockets.Keys
      ensures forall s :: s in r <==> (room, s) in rooms
    {
      set p | p in rooms && p.0 == room :: p.1
    }

    /** The sockets in the room of community `c`; none when there is no community. */
    function RoomOf(c: Option<CommunityId>): (r: set<SocketId>)
      reads this
      ensures Valid() ==> r <= sockets.Keys
      ensures Present(c) ==> r == Members(CommunityRoom(c.value))
    {
      if Present(c) then Members(CommunityRoom(c.value)) else {}
    }

    constructor ()
      ensures Valid()
      ensures activeUsers == map[] && userSockets == map[] && sockets == map[] && rooms == {} && outbox == []
    {
      activeUsers, userSockets, sockets, rooms, outbox := map[], map[], map[], {}, [];
    }

    /** A new socket: the handshake, then the `connection` handler. A refused handshake
        changes nothing. An accepted one registers the socket for its user, replacing any
        earlier entry of that user (the latest connection wins), marks the user online, sends
        `user_online` to every connected socket, the new one included, and then sends the new
        socket the registry, which already lists it; the socket also joins its user's room. */
    method Connect(db: Database, socket: SocketId, token: Option<string>, verify: string -> Middleware.JwtOutcome, now: int)
      returns (h: Handshake)
      requires Valid() && socket !in sockets
      modifies this, db`users
      ensures Valid()
      ensures h == Authorize(old(db.users), token, verify)
      ensures h.Refused? ==> unchanged(this) && db.users == old(db.users)
      ensures h.Admitted? ==>
                var u := h.user;
                var me := Presence(u.id, u.name, u.profilePicture, socket);
                && activeUsers == old(activeUsers)[u.id := me]
                && userSockets == old(userSockets)[u.id := socket]
                && sockets == old(sockets)[socket := u]
                && rooms == old(rooms) + {(u.id, socket)}
                && outbox == old(outbox) + [Delivery(sockets.Keys, UserOnline(u.id, u)), Delivery({socket}, OnlineUsers(activeUsers.Values))]
                && socket in sockets.Keys && me in activeUsers.Values
                && db.users == UpdateUser(old(db.users), u.id, Online(now))
    {
      h := Authorize(db.users, token, verify);
      if h.Refused? {
        return;
      }
      var u := h.user;
      var me := Presence(u.id, u.name, u.profilePicture, socket);
      RegisterKeeps(activeUsers, userSockets, sockets, rooms, socket, u);
      var active, connected := activeUsers[u.id := me], sockets[socket := u];
      assert active[u.id] == me;
      var online := [Delivery(connected.Keys, UserOnline(u.id, u)), Delivery({socket}, OnlineUsers(active.Values))];
      activeUsers, userSockets, sockets, rooms, outbox :=
        active, userSockets[u.id := socket], connected, rooms + {(u.id, socket)}, outbox + online;
      db.users := UpdateUser(db.users, u.id, Online(now));
    }

    /** `join_community`: no membership check. */
    method JoinCommunity(socket: SocketId, c: CommunityId)
      requires Valid() && socket in sockets
      modifies this`rooms
      ensures Valid()
      ensures rooms == old(rooms) + {(CommunityRoom(c), socket)}
    {
      rooms := rooms + {(CommunityRoom(c), socket)};
    }

    /** `leave_community`. */
    method LeaveCommunity(socket: SocketId, c: CommunityId)
      requires Valid() && socket in sockets
      modifies this`rooms
      ensures Valid()
      ensures rooms == old(rooms) - {(CommunityRoom(c), socket)}
    {
      rooms := rooms - {(CommunityRoom(c), socket)};
    }

    /** `send_message`. A failed insert sends `message_error` to the sender and nothing else.
        Otherwise, for a receiver: the sender gets `message_sent`; `new_message` and
        `new_notification` reach the receiver's registered socket, and are dropped when it has
        none; the notification row is stored either way; the preview is the first 50
        characters. For a community: `community_message` reaches every socket in its room,
        the sender's included when it joined. With both set, both happen. */
    method SendMessage(db: Database, socket: SocketId, receiverId: Option<UserId>, communityId: Option<CommunityId>,
                       content: string, messageType: Option<string>, newId: MessageId, now: int, insertOk: bool)
      requires Valid() && socket in sockets
      modifies this`outbox, db`messages, db`notifications
      ensures Valid()
      ensures |outbox| >= |old(outbox)| && Reaches(outbox[|old(outbox)|..], sockets.Keys)
      ensures !insertOk ==>
                && outbox == old(outbox) + [Delivery({socket}, SendFailure)]
                && db.messages == old(db.messages) && db.notifications == old(db.notifications)
      ensures insertOk ==>
                var u := sockets[socket];
                var data := MessageData(newId, content, if messageType.Some? then messageType.value else "text", u, now, false);
                && db.messages == old(db.messages) + [MessageRow(newId, u.id, receiverId, communityId, content, messageType, now)]
                && db.notifications == old(db.notifications) + (if Present(receiverId) then [MessageNotification(receiverId.value, u, newId)] else [])
                && outbox == old(outbox) + DirectDeliveries(userSockets, socket, receiverId, data)
                                         + RoomDeliveries(communityId, old(RoomOf(communityId)), data)
    {
      var u := sockets[socket];
      if !insertOk {
        outbox := outbox + [Delivery({socket}, SendFailure)];
        return;
      }
      var data := MessageData(newId, content, if messageType.Some? then messageType.value else "text", u, now, false);
      // The notification row is stored before `new_notification` is emitted.
      var notes: seq<Notification> := if Present(receiverId) then [MessageNotification(receiverId.value, u, newId)] else [];
      var direct := DirectDeliveries(userSockets, socket, receiverId, data);
      var community := RoomDeliveries(communityId, RoomOf(communityId), data);
      assert Reaches(direct, sockets.Keys);
      assert Reaches(community, sockets.Keys);
      ReachesAppend(direct, community, sockets.Keys);
      assert (outbox + direct + community)[|outbox|..] == direct + community;
      db.messages := db.messages + [MessageRow(newId, u.id, receiverId, communityId, content, messageType, now)];
      db.notifications := db.notifications + notes;
      outbox := outbox + direct + community;
    }

    /** `typing`: to the receiver's registered socket only, and to the community's room
        without the typing socket itself. */
    method Typing(socket: SocketId, receiverId: Option<UserId>, communityId: Option<CommunityId>, isTyping: bool)
      requires Valid() && socket in sockets
      modifies this`outbox
      ensures Valid()
      ensures |outbox| >= |old(outbox)| && Reaches(outbox[|old(outbox)|..], sockets.Keys)
      ensures var u := sockets[socket];
              outbox == old(outbox)
                + (if Present(receiverId) && receiverId.value in userSockets
                   then [Delivery({userSockets[receiverId.value]}, UserTyping(None, u.id, u, isTyping))] else [])
                + (if Present(communityId)
                   then [Delivery(Members(CommunityRoom(communityId.value)) - {socket}, UserTyping(communityId, u.id, u, isTyping))] else [])
      ensures Present(communityId) ==> socket !in outbox[|outbox| - 1].to
    {
      var u := sockets[socket];
      if Present(receiverId) && receiverId.value in userSockets {
        outbox := outbox + [Delivery({userSockets[receiverId.value]}, UserTyping(None, u.id, u, isTyping))];
      }
      if Present(communityId) {
        outbox := outbox + [Delivery(Members(CommunityRoom(communityId.value)) - {socket}, UserTyping(communityId, u.id, u, isTyping))];
      }
    }

    /** `mark_read`: only a row whose receiver is the reader is marked, but `message_read`
        goes to the sender's registered socket whenever the message exists, whoever reads it. */
    method MarkRead(db: Database, socket: SocketId, messageId: MessageId)
      requires Valid() && socket in sockets
      modifies this`outbox, db`messages
      ensures Valid()
      ensures db.messages == Messages.ReadOne(old(db.messages), messageId, sockets[socket].id)
      ensures var found := Single(db.messages, (m: Message) => m.id == messageId);
              outbox == old(outbox)
                + (if found.Some? && found.value.senderId in userSockets
                   then [Delivery({userSockets[found.value.senderId]}, MessageRead(messageId))] else [])
      ensures |outbox| >= |old(outbox)| && Reaches(outbox[|old(outbox)|..], sockets.Keys)
    {
      db.messages := Messages.ReadOne(db.messages, messageId, sockets[socket].id);
      var found := Single(db.messages, (m: Message) => m.id == messageId);
      if found.Some? && found.value.senderId in userSockets {
        outbox := outbox + [Delivery({userSockets[found.value.senderId]}, MessageRead(messageId))];
      }
    }

    /** `disconnect`: the socket leaves its rooms and the registry entries of its USER are
        deleted, whichever socket they point to, so a stale socket's disconnect also removes
        the entry of that user's newer connection. `user_offline` goes to every socket still
        connected, unconditionally. */
    method Disconnect(db: Database, socket: SocketId, now: int)
      requires Valid() && socket in sockets
      modifies this, db`users
      ensures Valid()
      ensures var u := old(sockets[socket]).id;
              && activeUsers == old(activeUsers) - {u}
              && userSockets == old(userSockets) - {u}
              && sockets == old(sockets) - {socket}
              && rooms == set p | p in old(rooms) && p.1 != socket
              && outbox == old(outbox) + [Delivery(sockets.Keys, UserOffline(u))]
              && db.users == UpdateUser(old(db.users), u, Offline(now))
    {
      var u := sockets[socket].id;
      UnregisterKeeps(activeUsers, userSockets, sockets, rooms, socket);
      sockets := sockets - {socket};
      rooms := set p | p in rooms && p.1 != socket;
      activeUsers := activeUsers - {u};
      userSockets := userSockets - {u};
      db.users := UpdateUser(db.users, u, Offline(now));
      outbox := outbox + [Delivery(sockets.Keys, UserOffline(u))];
    }
  }

  /** Two connections of one user, then the older one closes: the newer socket is still
      connected, but the user has vanished from the registry, so direct messages and typing
      events to the user are dropped from then on. */
  method StaleDisconnect() returns (hub: PresenceHub, db: Database)
    ensures hub.Valid()
    ensures "s2" in hub.sockets && hub.sockets["s2"].id == "u"
    ensures "u" !in hub.userSockets && "u" !in hub.activeUsers
  {
    db := new Database();
    db.users := [User("u", "u@example.org", "U", None, None, None, None, None, "", "student",
                      false, false, None, None, None, None, false, 0, None)];
    hub := new PresenceHub();
    var verify := (t: string) => Middleware.Decoded("u");
    UserByIdAt(db.users, 0);
    var h1 := hub.Connect(db, "s1", Some("t"), verify, 1);
    assert h1.Admitted? && h1.user.id == "u";
    assert |db.users| == 1 && db.users[0].id == "u";
    UserByIdAt(db.users, 0);
    var h2 := hub.Connect(db, "s2", Some("t"), verify, 2);
    assert h2.Admitted? && h2.user.id == "u";
    assert hub.userSockets["u"] == "s2" && "s1" in hub.sockets;
    hub.Disconnect(db, "s1", 3);
  }
}
