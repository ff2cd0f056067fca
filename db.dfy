/** The Supabase tables the backend reads and writes, held in memory. Tables whose rows the
    handlers look up by a key are maps from that key; tables whose row order matters to a
    handler (users, messages, notifications, interest links) are sequences in storage order.
    A link table with a unique pair of ids (community_members, post_likes,
    event_participants, blocked_users, friendships) is keyed by that pair. */
module Db {
  import opened Common
  import opened Seqs

  datatype Privacy = Privacy(showEmail: bool, showAge: bool, showLocation: bool)

  /** A row of `users`. Timestamps are integers (milliseconds). */
  datatype User = User(
    id: UserId,
    email: string,
    name: string,
    passwordHash: Option<string>,
    googleId: Option<string>,
    age: Option<int>,
    bio: Option<string>,
    location: Option<string>,
    profilePicture: string,
    userType: string,
    emailVerified: bool,
    isVerified: bool,
    verificationToken: Option<string>,
    verificationExpires: Option<int>,
    resetToken: Option<string>,
    resetExpires: Option<int>,
    isOnline: bool,
    lastActive: int,
    privacy: Option<Privacy>)

  /** A row of the `interests` catalogue. */
  datatype Interest = Interest(id: InterestId, name: string, category: Option<string>)

  /** A row of `user_interests` (and, with a community id, of `community_interests`). */
  datatype InterestRow = InterestRow(ownerId: string, interestId: InterestId)

  datatype Community = Community(
    id: CommunityId,
    name: string,
    description: string,
    category: string,
    imageUrl: string,
    creatorId: UserId,
    maxMembers: int,
    isPrivate: bool,
    memberCount: int,
    createdAt: int,
    lastActivity: int)

  datatype Message = Message(
    id: MessageId,
    senderId: UserId,
    receiverId: Option<UserId>,
    communityId: Option<CommunityId>,
    content: string,
    messageType: string,
    isRead: bool,
    createdAt: int)

  datatype Notification = Notification(
    recipientId: UserId,
    senderId: UserId,
    kind: string,
    title: string,
    message: string,
    link: string,
    relatedId: Option<string>,
    isRead: bool)

  datatype FriendStatus = Pending | Accepted | Blocked | OtherStatus(name: string)

  /** The text stored in the `status` column. */
  function StatusName(s: FriendStatus): string {
    match s
    case Pending => "pending"
    case Accepted => "accepted"
    case Blocked => "blocked"
    case OtherStatus(n) => n
  }

  /** A row of `friendships`; the map key is (user_id, friend_id), requester first. */
  datatype Friendship = Friendship(id: string, status: FriendStatus)

  datatype Post = Post(
    id: PostId,
    authorId: UserId,
    communityId: CommunityId,
    title: Option<string>,
    content: string,
    images: seq<string>,
    isPinned: bool,
    createdAt: int)

  datatype Comment = Comment(id: CommentId, postId: PostId, userId: UserId, content: string, createdAt: int)

  datatype Event = Event(
    id: EventId,
    title: string,
    description: string,
    organizerId: UserId,
    communityId: CommunityId,
    location: string,
    eventDate: int,
    duration: int,
    maxParticipants: int,
    category: string,
    isOnline: bool,
    meetingLink: Option<string>,
    status: string)

  class Database {
    var users: seq<User>
    var interests: seq<Interest>
    var userInterests: seq<InterestRow>
    var communityInterests: seq<InterestRow>
    var communities: map<CommunityId, Community>
    var members: map<(CommunityId, UserId), string>
    var friendships: map<(UserId, UserId), Friendship>
    var messages: seq<Message>
    var notifications: seq<Notification>
    var posts: map<PostId, Post>
    var likes: set<(PostId, UserId)>
    var comments: map<CommentId, Comment>
    var events: map<EventId, Event>
    var participants: set<(EventId, UserId)>
    var blocks: set<(UserId, UserId)>

    constructor ()
      ensures users == [] && interests == [] && userInterests == [] && communityInterests == [] && messages == [] && notifications == []
      ensures communities == map[] && members == map[] && friendships == map[]
      ensures posts == map[] && likes == {} && comments == map[] && events == map[]
      ensures participants == {} && blocks == {}
    {
      users, interests, userInterests, communityInterests, messages, notifications := [], [], [], [], [], [];
      communities, members, friendships := map[], map[], map[];
      posts, likes, comments, events := map[], {}, map[], map[];
      participants, blocks := {}, {};
    }
  }

  /** `.single()` on a filtered query: the row when exactly one row matches, and nothing
      when none or several do. */
  function Single<T>(rows: seq<T>, p: T -> bool): (r: Option<T>)
    ensures r.Some? <==> |Filter(rows, p)| == 1
    ensures r.Some? ==> r.value in rows && p(r.value)
    ensures r.Some? ==> forall i :: 0 <= i < |rows| && p(rows[i]) ==> rows[i] == r.value
  {
    var hits := Filter(rows, p);
    if |hits| == 1 then Some(hits[0]) else None
  }

  /** A row that is the only one satisfying `p` is what `.single()` returns. */
  lemma {:induction false} SingleFinds<T>(rows: seq<T>, p: T -> bool, i: nat)
    requires i < |rows| && p(rows[i])
    requires forall j :: 0 <= j < |rows| && j != i ==> !p(rows[j])
    ensures Single(rows, p) == Some(rows[i])
  {
    OnlyHit(rows, p, i);
  }

  /** The row `.single()` returns sits at one position only: no other position satisfies `p`. */
  lemma SingleAt<T>(rows: seq<T>, p: T -> bool, i: nat)
    requires Single(rows, p).Some? && i < |rows| && p(rows[i])
    ensures forall j :: 0 <= j < |rows| && j != i ==> !p(rows[j])
  {
    OneHit(rows, p, i);
  }

  lemma {:induction false} OneHit<T>(rows: seq<T>, p: T -> bool, i: nat)
    requires |Filter(rows, p)| == 1 && i < |rows| && p(rows[i])
    ensures forall j :: 0 <= j < |rows| && j != i ==> !p(rows[j])
  {
    var rest := rows[1..];
    if i == 0 {
      assert |Filter(rest, p)| == 0;
      forall j | 1 <= j < |rows| ensures !p(rows[j]) {
        assert rows[j] == rest[j - 1];
      }
    } else {
      assert rows[i] == rest[i - 1];
      assert rows[i] in Filter(rest, p);
      assert !p(rows[0]);
      OneHit(rest, p, i - 1);
      forall j | 1 <= j < |rows| ensures j != i ==> !p(rows[j]) {
        assert rows[j] == rest[j - 1];
      }
    }
  }

  lemma {:induction false} OnlyHit<T>(rows: seq<T>, p: T -> bool, i: nat)
    requires i < |rows| && p(rows[i])
    requires forall j :: 0 <= j < |rows| && j != i ==> !p(rows[j])
    ensures Filter(rows, p) == [rows[i]]
  {
    if i == 0 {
      FilterNone(rows[1..], p);
    } else {
      OnlyHit(rows[1..], p, i - 1);
    }
  }

  /** The row of `users` with the given id. */
  function UserById(users: seq<User>, id: UserId): (r: Option<User>)
    ensures r.Some? ==> r.value in users && r.value.id == id
  {
    Single(users, (u: User) => u.id == id)
  }

  /** No two rows of the users table share an id (its primary key). */
  predicate UniqueIds(users: seq<User>) {
    forall i, j :: 0 <= i < j < |users| ==> users[i].id != users[j].id
  }

  /** A user whose id no other row shares is found by that id. */
  lemma UserByIdAt(users: seq<User>, i: nat)
    requires i < |users|
    requires forall j :: 0 <= j < |users| && j != i ==> users[j].id != users[i].id
    ensures UserById(users, users[i].id) == Some(users[i])
  {
    SingleFinds(users, (u: User) => u.id == users[i].id, i);
  }

  /** Rewrites every row of `users` whose id is `id` with `f`, as `.update(...).eq('id', id)` does. */
  function UpdateUser(users: seq<User>, id: UserId, f: User -> User): (r: seq<User>)
    ensures |r| == |users|
    ensures forall i :: 0 <= i < |users| ==> r[i] == if users[i].id == id then f(users[i]) else users[i]
  {
    seq(|users|, i requires 0 <= i < |users| => if users[i].id == id then f(users[i]) else users[i])
  }

  /** The update a login, an authenticated request or a connection makes: active now, online. */
  function Online(now: int): User -> User {
    (v: User) => v.(lastActive := now, isOnline := true)
  }

  /** The update a disconnect makes: active now, offline. */
  function Offline(now: int): User -> User {
    (v: User) => v.(lastActive := now, isOnline := false)
  }

  /** `.select('role').eq('community_id', c).eq('user_id', u).single()`. */
  function Membership(members: map<(CommunityId, UserId), string>, c: CommunityId, u: UserId): (r: Option<string>)
    ensures r.Some? <==> (c, u) in members
    ensures r.Some? ==> r.value == members[(c, u)]
  {
    if (c, u) in members then Some(members[(c, u)]) else None
  }

  /** The `interests` rows `.in('name', names)` returns, in table order. */
  function Named(catalogue: seq<Interest>, names: seq<string>): (r: seq<Interest>)
    ensures forall i :: 0 <= i < |r| ==> r[i] in catalogue && r[i].name in names
    ensures forall j :: 0 <= j < |catalogue| && catalogue[j].name in names ==> catalogue[j] in r
  {
    Filter(catalogue, (x: Interest) => x.name in names)
  }

  function Ids(xs: seq<Interest>): (r: seq<InterestId>)
    ensures |r| == |xs| && forall i :: 0 <= i < |xs| ==> r[i] == xs[i].id
  {
    seq(|xs|, i requires 0 <= i < |xs| => xs[i].id)
  }

  /** The `community_interests` (or `user_interests`) rows linking owner `c` to each interest of `xs`. */
  function Links(c: string, xs: seq<Interest>): (r: seq<InterestRow>)
    ensures |r| == |xs| && forall i :: 0 <= i < |xs| ==> r[i] == InterestRow(c, xs[i].id)
  {
    seq(|xs|, i requires 0 <= i < |xs| => InterestRow(c, xs[i].id))
  }
}
