/** The posts routes: creating a post, the community feed, the like toggle, and deleting posts
    and comments. */
module Posts {
  import opened Common
  import opened Seqs
  import opened Paging
  import opened Sorting
  import opened Db

  // ---------------------------------------------------------------------------------------
  // POST /

  datatype PostReply = PostCreated(post: Post) | PostFailed(status: nat, error: string)

  /** `POST /`: only a member of the community may post (403). The post gets id `newId` and
      time `now`; a missing title is null and missing images are an empty list. An insert whose
      id is taken fails with 500. Afterwards the community's last activity is `now`. */
  method Create(db: Database, me: UserId, communityId: CommunityId, title: Option<string>, content: string,
                images: Option<seq<string>>, newId: PostId, now: int) returns (r: PostReply)
    modifies db`posts, db`communities
    ensures (communityId, me) !in db.members ==>
              r == PostFailed(403, "You must be a member to post in this community")
    ensures (communityId, me) in db.members && newId in old(db.posts) ==>
              r == PostFailed(500, "Failed to create post")
    ensures r.PostFailed? ==> db.posts == old(db.posts) && db.communities == old(db.communities)
    ensures r.PostCreated? ==>
              && (communityId, me) in db.members && newId !in old(db.posts)
              && r.post == Post(newId, me, communityId, OrNull(title), content,
                                if images.Some? then images.value else [], false, now)
              && db.posts == old(db.posts)[newId := r.post]
              && db.communities == if communityId in old(db.communities)
                                   then old(db.communities)[communityId := old(db.communities)[communityId].(lastActivity := now)]
                                   else old(db.communities)
    ensures (communityId, me) in db.members && newId !in old(db.posts) ==> r.PostCreated?
  {
    if Membership(db.members, communityId, me).None? {
      return PostFailed(403, "You must be a member to post in this community");
    }
    if newId in db.posts {
      return PostFailed(500, "Failed to create post");
    }
    var p := Post(newId, me, communityId, OrNull(title), content, if images.Some? then images.value else [], false, now);
    db.posts := db.posts[newId := p];
    if communityId in db.communities {
      db.communities := db.communities[communityId := db.communities[communityId].(lastActivity := now)];
    }
    r := PostCreated(p);
  }

  // ---------------------------------------------------------------------------------------
  // GET /community/:communityId

  /** Pinned posts first, then newest first; posts with equal keys keep table order. */
  function FeedOrder(ps: seq<Post>): (r: seq<Keyed<Post>>)
    ensures |r| == |ps|
    ensures forall i :: 0 <= i < |ps| ==> r[i] == Keyed(ps[i], if ps[i].isPinned then 1 else 0, ps[i].createdAt)
  {
    seq(|ps|, i requires 0 <= i < |ps| => Keyed(ps[i], if ps[i].isPinned then 1 else 0, ps[i].createdAt))
  }

  /** Oldest first: a descending sort on negated times. */
  function CommentOrder(cs: seq<Comment>): (r: seq<Keyed<Comment>>)
    ensures |r| == |cs|
    ensures forall i :: 0 <= i < |cs| ==> r[i] == Keyed(cs[i], -cs[i].createdAt, 0)
  {
    seq(|cs|, i requires 0 <= i < |cs| => Keyed(cs[i], -cs[i].createdAt, 0))
  }

  /** The comments of post `postId`, in table order. */
  function OnPost(comments: seq<Comment>, postId: PostId): (r: seq<Comment>)
    ensures forall c :: c in r <==> c in comments && c.postId == postId
  {
    Filter(comments, (c: Comment) => c.postId == postId)
  }

  /** The first five comments of a post, oldest first (`.order(created_at asc).limit(5)`). */
  function FirstComments(comments: seq<Comment>, postId: PostId): (r: seq<Comment>)
    ensures |r| <= 5
  {
    Items(Take(SortDesc(CommentOrder(OnPost(comments, postId))), 5))
  }

  /** The first comments are five of the post's comments, or all when it has fewer, oldest
      first, and no comment of the post left out is older than one kept. */
  lemma FirstCommentsFacts(comments: seq<Comment>, postId: PostId)
    ensures var r := FirstComments(comments, postId);
            && |r| == (if |OnPost(comments, postId)| < 5 then |OnPost(comments, postId)| else 5)
            && (forall i :: 0 <= i < |r| ==> r[i] in comments && r[i].postId == postId)
            && (forall i, j :: 0 <= i < j < |r| ==> r[i].createdAt <= r[j].createdAt)
            && (forall c, i :: c in comments && c.postId == postId && c !in r && 0 <= i < |r| ==>
                  r[i].createdAt <= c.createdAt)
  {
    FirstCommentsKept(comments, postId);
    var r := FirstComments(comments, postId);
    forall c, i | c in comments && c.postId == postId && c !in r && 0 <= i < |r|
      ensures r[i].createdAt <= c.createdAt
    {
      FirstCommentsLeftOut(comments, postId, c, i);
    }
  }

  /** The first comments are comments of the post, oldest first. */
  lemma FirstCommentsKept(comments: seq<Comment>, postId: PostId)
    ensures var r := FirstComments(comments, postId);
            && |r| == (if |OnPost(comments, postId)| < 5 then |OnPost(comments, postId)| else 5)
            && (forall i :: 0 <= i < |r| ==> r[i] in comments && r[i].postId == postId)
            && (forall i, j :: 0 <= i < j < |r| ==> r[i].createdAt <= r[j].createdAt)
  {
    var on := OnPost(comments, postId);
    var s := CommentOrder(on);
    forall k | 0 <= k < |s| ensures CommentKeyed(s[k], comments, postId) {
      assert s[k].item == on[k] && on[k] in on;
    }
    SortDescKeeps(s, (k: Keyed<Comment>) => CommentKeyed(k, comments, postId));
    var sorted := SortDesc(s);
    var r := FirstComments(comments, postId);
    forall i | 0 <= i < |r| ensures r[i] in comments && r[i].postId == postId {
      assert r[i] == sorted[i].item && CommentKeyed(sorted[i], comments, postId);
    }
    forall i, j | 0 <= i < j < |r| ensures r[i].createdAt <= r[j].createdAt {
      assert r[i] == sorted[i].item && CommentKeyed(sorted[i], comments, postId);
      assert r[j] == sorted[j].item && CommentKeyed(sorted[j], comments, postId);
      assert Ahead(sorted[i], sorted[j]);
    }
  }

  /** An entry of the comment sort: a comment of the post keyed by its negated time. */
  predicate CommentKeyed(k: Keyed<Comment>, comments: seq<Comment>, postId: PostId) {
    k.item in comments && k.item.postId == postId && k.major == -k.item.createdAt
  }

  /** A comment of the post that the first five leave out is no older than any kept. */
  lemma FirstCommentsLeftOut(comments: seq<Comment>, postId: PostId, c: Comment, i: nat)
    requires c in comments && c.postId == postId
    requires c !in FirstComments(comments, postId) && i < |FirstComments(comments, postId)|
    ensures FirstComments(comments, postId)[i].createdAt <= c.createdAt
  {
    var on := OnPost(comments, postId);
    var s := CommentOrder(on);
    var sorted := SortDesc(s);
    assert c in on;
    var j :| 0 <= j < |on| && on[j] == c;
    SortDescTop(s, 5, s[j]);
    assert Ahead(sorted[i], s[j]);
    assert FirstComments(comments, postId)[i] == sorted[i].item;
    assert sorted[i] in s by { SortDescMembers(s, sorted[i]); }
  }

  datatype FeedItem = FeedItem(post: Post, isLiked: bool, isAuthor: bool, comments: seq<Comment>)

  function FeedItems(ps: seq<Post>, likes: set<(PostId, UserId)>, comments: seq<Comment>, me: UserId): (r: seq<FeedItem>)
    ensures |r| == |ps|
    ensures forall i :: 0 <= i < |ps| ==>
              && r[i].post == ps[i]
              && (r[i].isLiked <==> (ps[i].id, me) in likes)
              && (r[i].isAuthor <==> ps[i].authorId == me)
              && r[i].comments == FirstComments(comments, ps[i].id)
  {
    seq(|ps|, i requires 0 <= i < |ps| =>
      FeedItem(ps[i], (ps[i].id, me) in likes, ps[i].authorId == me, FirstComments(comments, ps[i].id)))
  }

  datatype FeedReply =
    | Feed(posts: seq<FeedItem>, total: nat, page: nat, totalPages: nat)
    | FeedForbidden(status: nat, error: string)

  /** The posts of community `c`, in table order. */
  function InCommunity(rows: seq<Post>, c: CommunityId): (r: seq<Post>)
    ensures forall p :: p in r ==> p in rows && p.communityId == c
  {
    Filter(rows, (p: Post) => p.communityId == c)
  }

  /** `sel` in feed order. */
  function PinnedFirst(sel: seq<Post>): (r: seq<Post>)
    ensures |r| == |sel|
  {
    Items(SortDesc(FeedOrder(sel)))
  }

  /** The community's posts in feed order. */
  function FeedRows(rows: seq<Post>, c: CommunityId): seq<Post> {
    PinnedFirst(InCommunity(rows, c))
  }

  /** `a` may stand before `b` in the feed. */
  predicate FeedAhead(a: Post, b: Post) {
    && (b.isPinned ==> a.isPinned)
    && (a.isPinned == b.isPinned ==> a.createdAt >= b.createdAt)
  }

  /** `GET /community/:communityId` over `rows`, the posts table in storage order: refused
      (403) only for a private community the caller has not joined; otherwise one page of the
      community's posts with the caller's flags and the first comments. */
  function List(communities: map<CommunityId, Community>, members: map<(CommunityId, UserId), string>,
                rows: seq<Post>, likes: set<(PostId, UserId)>, comments: seq<Comment>,
                me: UserId, c: CommunityId, page: nat, limit: nat): (r: FeedReply)
    requires page >= 1 && limit >= 1
    ensures r.FeedForbidden? <==> c in communities && communities[c].isPrivate && (c, me) !in members
    ensures r.FeedForbidden? ==> r == FeedForbidden(403, "You must be a member to view posts")
    ensures r.Feed? ==>
              && |r.posts| <= limit
              && r.total == |InCommunity(rows, c)|
              && r.page == page && r.totalPages == TotalPages(r.total, limit)
              && r.posts == FeedItems(PageRows(FeedRows(rows, c), page, limit), likes, comments, me)
  {
    if c in communities && communities[c].isPrivate && Membership(members, c, me).None? then
      FeedForbidden(403, "You must be a member to view posts")
    else
      var sel := InCommunity(rows, c);
      Feed(FeedItems(PageRows(FeedRows(rows, c), page, limit), likes, comments, me), |sel|, page, TotalPages(|sel|, limit))
  }

  predicate PinKeyed(k: Keyed<Post>, sel: seq<Post>) {
    k.item in sel && k.major == (if k.item.isPinned then 1 else 0) && k.minor == k.item.createdAt
  }

  /** Feed order reorders `sel`, keeping every post as often as it occurs, each ahead of
      every later one. */
  lemma PinnedFirstFacts(sel: seq<Post>)
    ensures forall i :: 0 <= i < |PinnedFirst(sel)| ==> PinnedFirst(sel)[i] in sel
    ensures forall i, j :: 0 <= i < j < |PinnedFirst(sel)| ==> FeedAhead(PinnedFirst(sel)[i], PinnedFirst(sel)[j])
    ensures multiset(PinnedFirst(sel)) == multiset(sel)
  {
    var s := FeedOrder(sel);
    SortDescPermutes(s, sel);
    var r := SortDesc(s);
    var o := PinnedFirst(sel);
    forall k | 0 <= k < |s| ensures PinKeyed(s[k], sel) {
      assert s[k].item == sel[k];
    }
    SortDescKeeps(s, (k: Keyed<Post>) => PinKeyed(k, sel));
    forall i | 0 <= i < |o| ensures o[i] in sel {
      assert o[i] == r[i].item && PinKeyed(r[i], sel);
    }
    forall i, j | 0 <= i < j < |o| ensures FeedAhead(o[i], o[j]) {
      assert o[i] == r[i].item && PinKeyed(r[i], sel);
      assert o[j] == r[j].item && PinKeyed(r[j], sel);
      assert Ahead(r[i], r[j]);
    }
  }

  /** A run of consecutive rows of a list in feed order is itself in feed order. */
  lemma WindowFeed(o: seq<Post>, ps: seq<Post>, off: nat)
    requires ps != [] ==> off + |ps| <= |o|
    requires forall i :: 0 <= i < |ps| ==> ps[i] == o[off + i]
    requires forall a, b :: 0 <= a < b < |o| ==> FeedAhead(o[a], o[b])
    ensures forall i, j :: 0 <= i < j < |ps| ==> FeedAhead(ps[i], ps[j])
  {
    forall i, j | 0 <= i < j < |ps| ensures FeedAhead(ps[i], ps[j]) {
      assert ps[i] == o[off + i] && ps[j] == o[off + j];
    }
  }

  /** A page of `sel` in feed order holds posts of `sel`, in feed order. */
  lemma FeedPageFacts(sel: seq<Post>, page: nat, limit: nat)
    requires page >= 1 && limit >= 1
    ensures var ps := PageRows(PinnedFirst(sel), page, limit);
            && (forall i :: 0 <= i < |ps| ==> ps[i] in sel)
            && (forall i, j :: 0 <= i < j < |ps| ==> FeedAhead(ps[i], ps[j]))
  {
    var o := PinnedFirst(sel);
    var ps := PageRows(o, page, limit);
    var off := Offset(page, limit);
    PinnedFirstFacts(sel);
    forall i | 0 <= i < |ps| ensures ps[i] in sel {
      assert ps[i] == o[off + i];
    }
    WindowFeed(o, ps, off);
  }

  /** The feed holds only the community's posts, pinned ones before the others, and among
      posts of equal pinning the newer first. */
  lemma FeedFacts(rows: seq<Post>, c: CommunityId, page: nat, limit: nat)
    requires page >= 1 && limit >= 1
    ensures var ps := PageRows(FeedRows(rows, c), page, limit);
            && (forall i :: 0 <= i < |ps| ==> ps[i] in rows && ps[i].communityId == c)
            && (forall i, j :: 0 <= i < j < |ps| && ps[j].isPinned ==> ps[i].isPinned)
            && (forall i, j :: 0 <= i < j < |ps| && ps[i].isPinned == ps[j].isPinned ==> ps[i].createdAt >= ps[j].createdAt)
  {
    var sel := InCommunity(rows, c);
    FeedPageFacts(sel, page, limit);
    var ps := PageRows(FeedRows(rows, c), page, limit);
    assert ps == PageRows(PinnedFirst(sel), page, limit);
    forall i | 0 <= i < |ps| ensures ps[i] in rows && ps[i].communityId == c {
      assert ps[i] in sel;
    }
  }

  // ---------------------------------------------------------------------------------------
  // POST /:id/like

  /** The like table after the caller's toggle on post `id`, and whether the post is now liked. */
  function Toggle(likes: set<(PostId, UserId)>, id: PostId, me: UserId): (r: (set<(PostId, UserId)>, bool))
    ensures r.1 <==> (id, me) !in likes
    ensures r.1 <==> (id, me) in r.0
    ensures forall k :: k != (id, me) ==> (k in r.0 <==> k in likes)
  {
    if (id, me) in likes then (likes - {(id, me)}, false) else (likes + {(id, me)}, true)
  }

  /** Toggling twice restores the table. */
  lemma ToggleTwice(likes: set<(PostId, UserId)>, id: PostId, me: UserId)
    ensures Toggle(Toggle(likes, id, me).0, id, me).0 == likes
    ensures Toggle(Toggle(likes, id, me).0, id, me).1 == !Toggle(likes, id, me).1
  {
  }

  datatype LikeReply = LikeReply(message: string, liked: bool)

  /** `POST /:id/like`: an existing like is deleted, otherwise one is inserted. The post id is
      not checked. */
  method Like(db: Database, me: UserId, id: PostId) returns (r: LikeReply)
    modifies db`likes
    ensures (db.likes, r.liked) == Toggle(old(db.likes), id, me)
    ensures r.message == if r.liked then "Post liked" else "Post unliked"
  {
    if (id, me) in db.likes {
      db.likes := db.likes - {(id, me)};
      r := LikeReply("Post unliked", false);
    } else {
      db.likes := db.likes + {(id, me)};
      r := LikeReply("Post liked", true);
    }
  }

  // ---------------------------------------------------------------------------------------
  // DELETE /:id, DELETE /comments/:commentId

  /** The author of a post, or an admin of its community, may delete it. */
  predicate CanDelete(members: map<(CommunityId, UserId), string>, p: Post, me: UserId) {
    p.authorId == me || ((p.communityId, me) in members && members[(p.communityId, me)] == "admin")
  }

  /** `DELETE /:id`: 404 for an unknown post, 403 unless the caller may delete it. */
  method DeletePost(db: Database, me: UserId, id: PostId) returns (r: Reply)
    modifies db`posts
    ensures id !in old(db.posts) ==> r == Fail(404, "Post not found")
    ensures id in old(db.posts) && !CanDelete(db.members, old(db.posts)[id], me) ==>
              r == Fail(403, "Not authorized to delete this post")
    ensures r.Fail? ==> db.posts == old(db.posts)
    ensures r.Ok? <==> id in old(db.posts) && CanDelete(db.members, old(db.posts)[id], me)
    ensures r.Ok? ==> r == Ok("Post deleted successfully") && db.posts == old(db.posts) - {id}
  {
    if id !in db.posts {
      return Fail(404, "Post not found");
    }
    var p := db.posts[id];
    var membership := Membership(db.members, p.communityId, me);
    var canDelete := p.authorId == me || (membership.Some? && membership.value == "admin");
    if !canDelete {
      return Fail(403, "Not authorized to delete this post");
    }
    db.posts := db.posts - {id};
    r := Ok("Post deleted successfully");
  }

  /** `DELETE /comments/:commentId`: 404 for an unknown comment; only its author may delete it. */
  method DeleteComment(db: Database, me: UserId, id: CommentId) returns (r: Reply)
    modifies db`comments
    ensures id !in old(db.comments) ==> r == Fail(404, "Comment not found")
    ensures id in old(db.comments) && old(db.comments)[id].userId != me ==>
              r == Fail(403, "Not authorized to delete this comment")
    ensures r.Fail? ==> db.comments == old(db.comments)
    ensures r.Ok? <==> id in old(db.comments) && old(db.comments)[id].userId == me
    ensures r.Ok? ==> r == Ok("Comment deleted successfully") && db.comments == old(db.comments) - {id}
  {
    if id !in db.comments {
      return Fail(404, "Comment not found");
    }
    if db.comments[id].userId != me {
      return Fail(403, "Not authorized to delete this comment");
    }
    db.comments := db.comments - {id};
    r := Ok("Comment deleted successfully");
  }
}
