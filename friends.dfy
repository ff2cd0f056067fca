/** The friends routes. A friendship row is keyed by (requester, addressee); the handlers look
    a pair up in either direction. */
module Friends {
  import opened Common
  import opened Seqs
  import opened Db

  type Friendships = map<(UserId, UserId), Friendship>

  /** The row the `or(and(user_id = a, friend_id = b), and(user_id = b, friend_id = a))` query
      returns through `.single()`: its key, when exactly one row lies between the two users. */
  function Between(f: Friendships, a: UserId, b: UserId): (r: Option<(UserId, UserId)>)
    ensures r.Some? ==> r.value in f && (r.value == (a, b) || r.value == (b, a))
    ensures r.None? <==> ((a, b) !in f && (b, a) !in f) || (a != b && (a, b) in f && (b, a) in f)
  {
    if (a, b) in f && (b, a) in f && a != b then None
    else if (a, b) in f then Some((a, b))
    else if (b, a) in f then Some((b, a))
    else None
  }

  /** The invariant the handlers keep: at most one row between two users, and every status is
      one the handlers write or reject on. */
  ghost predicate Wellformed(f: Friendships) {
    && (forall a, b :: (a, b) in f && (b, a) in f ==> a == b)
    && (forall k :: k in f ==> f[k].status in {Pending, Accepted, Blocked})
  }

  // ---------------------------------------------------------------------------------------
  // GET /

  /** The id on the far side of each accepted row the caller is on. */
  function FriendIds(f: Friendships, me: UserId): (r: set<UserId>)
    ensures forall u :: u in r <==>
              ((me, u) in f && f[(me, u)].status == Accepted) || ((u, me) in f && f[(u, me)].status == Accepted)
  {
    var r := set k | k in f && f[k].status == Accepted && (k.0 == me || k.1 == me) :: if k.0 == me then k.1 else k.0;
    assert forall u :: (me, u) in f && f[(me, u)].status == Accepted ==> u in r by {
      forall u | (me, u) in f && f[(me, u)].status == Accepted ensures u in r {
        var k := (me, u);
        assert (if k.0 == me then k.1 else k.0) == u;
      }
    }
    assert forall u :: (u, me) in f && f[(u, me)].status == Accepted ==> u in r by {
      forall u | (u, me) in f && f[(u, me)].status == Accepted ensures u in r {
        var k := (u, me);
        if u != me {
          assert (if k.0 == me then k.1 else k.0) == u;
        }
      }
    }
    r
  }

  /** Friendship is symmetric. */
  lemma FriendsSymmetric(f: Friendships, a: UserId, b: UserId)
    ensures a in FriendIds(f, b) <==> b in FriendIds(f, a)
  {
  }

  /** `GET /`: the rows of `users` whose id is a friend's, in table order. */
  function FriendList(f: Friendships, users: seq<User>, me: UserId): (r: seq<User>)
    ensures forall i :: 0 <= i < |r| ==> r[i] in users && r[i].id in FriendIds(f, me)
    ensures forall j :: 0 <= j < |users| && users[j].id in FriendIds(f, me) ==> users[j] in r
  {
    var ids := FriendIds(f, me);
    if ids == {} then [] else Filter(users, (u: User) => u.id in ids)
  }

  // ---------------------------------------------------------------------------------------
  // GET /status/:userId

  /** The status reported between the caller and `other`. */
  function Status(f: Friendships, me: UserId, other: UserId): (s: string)
    ensures Between(f, me, other).None? ==> s == "none"
    ensures Between(f, me, other).Some? && f[Between(f, me, other).value].status != Pending ==>
              s == StatusName(f[Between(f, me, other).value].status)
    ensures Between(f, me, other).Some? && f[Between(f, me, other).value].status == Pending ==>
              s == "pending_sent" || s == "pending_received"
  {
    match Between(f, me, other)
    case None => "none"
    case Some(k) =>
      if f[k].status == Pending then (if k.0 == me then "pending_sent" else "pending_received")
      else StatusName(f[k].status)
  }

  /** In a well-formed table: "none" exactly when no row joins the two; "pending_sent" exactly
      when the caller's own request is pending; "pending_received" exactly when the other
      user's request to the caller is pending; "accepted" exactly when they are friends. */
  lemma StatusFacts(f: Friendships, me: UserId, other: UserId)
    requires Wellformed(f)
    ensures Status(f, me, other) == "none" <==> (me, other) !in f && (other, me) !in f
    ensures Status(f, me, other) == "pending_sent" <==> (me, other) in f && f[(me, other)].status == Pending
    ensures Status(f, me, other) == "pending_received" <==>
              me != other && (other, me) in f && f[(other, me)].status == Pending
    ensures Status(f, me, other) == "accepted" <==> other in FriendIds(f, me)
  {
    assert (me, other) in f && (other, me) in f ==> me == other;
  }

  // ---------------------------------------------------------------------------------------
  // POST /request/:userId

  /** `POST /request/:userId`. The checks run in order: oneself (400), unknown user (404), a
      row in either direction that is accepted, pending or blocked (400 each); then a pending
      row from the caller is inserted (500 if one with that key exists) and the addressee is
      notified, with the new row's id `newId`. */
  method Request(db: Database, me: UserId, myName: string, target: UserId, newId: string) returns (r: Reply)
    modifies db`friendships, db`notifications
    ensures target == me ==> r == Fail(400, "Cannot send friend request to yourself")
    ensures target != me && UserById(db.users, target).None? ==> r == Fail(404, "User not found")
    ensures target != me && UserById(db.users, target).Some? && Between(old(db.friendships), me, target).Some? ==>
              var s := old(db.friendships)[Between(old(db.friendships), me, target).value].status;
              && (s == Accepted ==> r == Fail(400, "Already friends"))
              && (s == Pending ==> r == Fail(400, "Friend request already pending"))
              && (s == Blocked ==> r == Fail(400, "Cannot send request to this user"))
    ensures r.Fail? ==> db.friendships == old(db.friendships) && db.notifications == old(db.notifications)
    ensures r.Ok? ==>
              && r == Ok("Friend request sent successfully")
              && target != me && UserById(db.users, target).Some? && (me, target) !in old(db.friendships)
              && db.friendships == old(db.friendships)[(me, target) := Friendship(newId, Pending)]
              && db.notifications == old(db.notifications) +
                   [Notification(target, me, "friend_request", "New Friend Request",
                                 myName + " sent you a friend request", "/friends", Some(newId), false)]
    ensures Wellformed(old(db.friendships)) ==> Wellformed(db.friendships)
    ensures (&& Wellformed(old(db.friendships)) && target != me && UserById(db.users, target).Some?
             && (me, target) !in old(db.friendships) && (target, me) !in old(db.friendships)) ==> r.Ok?
  {
    if target == me {
      return Fail(400, "Cannot send friend request to yourself");
    }
    if UserById(db.users, target).None? {
      return Fail(404, "User not found");
    }
    var existing := Between(db.friendships, me, target);
    if existing.Some? {
      var s := db.friendships[existing.value].status;
      if s == Accepted {
        return Fail(400, "Already friends");
      }
      if s == Pending {
        return Fail(400, "Friend request already pending");
      }
      if s == Blocked {
        return Fail(400, "Cannot send request to this user");
      }
    }
    if (me, target) in db.friendships {
      return Fail(500, "Failed to send friend request");
    }
    db.friendships := db.friendships[(me, target) := Friendship(newId, Pending)];
    db.notifications := db.notifications +
      [Notification(target, me, "friend_request", "New Friend Request",
                    myName + " sent you a friend request", "/friends", Some(newId), false)];
    r := Ok("Friend request sent successfully");
  }

  // ---------------------------------------------------------------------------------------
  // POST /accept/:userId, POST /decline/:userId, DELETE /:userId

  /** `POST /accept/:userId`: only a pending request from that user to the caller is found;
      it becomes accepted and the requester is notified. Anything else is 404. */
  method Accept(db: Database, me: UserId, myName: string, other: UserId) returns (r: Reply)
    modifies db`friendships, db`notifications
    ensures var k := (other, me);
            !(k in old(db.friendships) && old(db.friendships)[k].status == Pending) ==>
              r == Fail(404, "Friend request not found")
              && db.friendships == old(db.friendships) && db.notifications == old(db.notifications)
    ensures var k := (other, me);
            k in old(db.friendships) && old(db.friendships)[k].status == Pending ==>
              && r == Ok("Friend request accepted")
              && db.friendships == old(db.friendships)[k := old(db.friendships)[k].(status := Accepted)]
              && db.notifications == old(db.notifications) +
                   [Notification(other, me, "friend_accepted", "Friend Request Accepted",
                                 myName + " accepted your friend request", "/friends", None, false)]
              && other in FriendIds(db.friendships, me) && me in FriendIds(db.friendships, other)
    ensures Wellformed(old(db.friendships)) ==> Wellformed(db.friendships)
  {
    var k := (other, me);
    if !(k in db.friendships && db.friendships[k].status == Pending) {
      return Fail(404, "Friend request not found");
    }
    db.friendships := db.friendships[k := db.friendships[k].(status := Accepted)];
    db.notifications := db.notifications +
      [Notification(other, me, "friend_accepted", "Friend Request Accepted",
                    myName + " accepted your friend request", "/friends", None, false)];
    r := Ok("Friend request accepted");
  }

  /** `POST /decline/:userId`: deletes the other user's pending request to the caller and no
      other row; it reports success either way. */
  method Decline(db: Database, me: UserId, other: UserId) returns (r: Reply)
    modifies db`friendships
    ensures r == Ok("Friend request declined")
    ensures var k := (other, me);
            db.friendships == if k in old(db.friendships) && old(db.friendships)[k].status == Pending
                              then old(db.friendships) - {k} else old(db.friendships)
    ensures forall k :: k in old(db.friendships) && k != (other, me) ==> k in db.friendships
    ensures Wellformed(old(db.friendships)) ==> Wellformed(db.friendships)
  {
    var k := (other, me);
    if k in db.friendships && db.friendships[k].status == Pending {
      db.friendships := db.friendships - {k};
    }
    r := Ok("Friend request declined");
  }

  /** `DELETE /:userId`: deletes the rows in both directions, whatever their status. */
  method Remove(db: Database, me: UserId, other: UserId) returns (r: Reply)
    modifies db`friendships
    ensures r == Ok("Friend removed successfully")
    ensures db.friendships == old(db.friendships) - {(me, other), (other, me)}
    ensures other !in FriendIds(db.friendships, me) && Status(db.friendships, me, other) == "none"
    ensures Wellformed(old(db.friendships)) ==> Wellformed(db.friendships)
  {
    db.friendships := db.friendships - {(me, other), (other, me)};
    r := Ok("Friend removed successfully");
  }
}
