/** The communities routes: create, the public listing with membership flags, the view of one
    community, join, leave, update and delete. (`/recommendations` is in module Ranking.) */
module Communities {
  import opened Common
  import opened Seqs
  import opened Text
  import opened Paging
  import opened Sorting
  import opened Db
  import opened Ranking

  // ---------------------------------------------------------------------------------------
  // POST /

  const ImagePrefix := "https://api.dicebear.com/7.x/shapes/svg?seed="

  /** `name.replace(/\s+/g, '').toLowerCase()`: the name's non-space characters in order,
      each lower-cased; so no white space and no upper-case letter. */
  function ImageSeed(name: string): (seed: string)
    ensures |seed| <= |name|
    ensures forall i :: 0 <= i < |seed| ==> !IsSpace(seed[i]) && !('A' <= seed[i] <= 'Z')
    ensures var kept := Filter(name, NotSpace);
            |seed| == |kept| && forall i :: 0 <= i < |seed| ==> seed[i] == LowerChar(kept[i])
  {
    var r := RemoveSpaces(name);
    var seed := Lower(r);
    forall i | 0 <= i < |seed| ensures !IsSpace(seed[i]) {
      assert r[i] in r;
      LowerCharKind(r[i]);
    }
    seed
  }

  /** A name already free of white space and upper-case letters is its own seed. */
  lemma ImageSeedPlain(name: string)
    requires forall i :: 0 <= i < |name| ==> !IsSpace(name[i]) && !('A' <= name[i] <= 'Z')
    ensures ImageSeed(name) == name
  {
    RemoveSpacesNone(name);
  }

  lemma {:induction false} InterestsOfAppend(a: seq<InterestRow>, b: seq<InterestRow>, owner: string)
    ensures InterestsOf(a + b, owner) == InterestsOf(a, owner) + InterestsOf(b, owner)
  {
    if b == [] {
      assert a + b == a;
    } else {
      var init := b[..|b| - 1];
      assert (a + b)[..|a + b| - 1] == a + init;
      InterestsOfAppend(a, init, owner);
    }
  }

  /** The links written for a community list exactly the linked interests, in order. */
  lemma {:induction false} InterestsOfLinks(c: CommunityId, xs: seq<Interest>)
    ensures InterestsOf(Links(c, xs), c) == Ids(xs)
  {
    if xs != [] {
      var init := xs[..|xs| - 1];
      assert Links(c, xs)[..|xs| - 1] == Links(c, init);
      InterestsOfLinks(c, init);
      assert Ids(xs) == Ids(init) + [xs[|xs| - 1].id];
    }
  }

  /** A community created with interest names has, as its interests, the catalogue entries
      carrying those names, in catalogue order (the ids its recommendation score counts). */
  lemma CreatedInterests(rows: seq<InterestRow>, c: CommunityId, catalogue: seq<Interest>, names: seq<string>)
    requires forall j :: 0 <= j < |rows| ==> rows[j].ownerId != c
    ensures InterestsOf(rows + Links(c, Named(catalogue, names)), c) == Ids(Named(catalogue, names))
  {
    InterestsOfAppend(rows, Links(c, Named(catalogue, names)), c);
    InterestsOfNone(rows, c);
    InterestsOfLinks(c, Named(catalogue, names));
  }

  datatype CreateReply =
    | Created(community: Community, interests: seq<string>)
    | CreateFailed(status: nat, error: string)

  /** `POST /`: inserts the community (id `newId` and timestamp `now` come from the database)
      and makes the creator its admin, then links the interests named in the request. The
      insert fails, with 500, when the id is taken. */
  method Create(db: Database, me: UserId, newId: CommunityId, now: int,
                name: string, description: string, category: string,
                interests: seq<string>, maxMembers: Option<int>, isPrivate: Option<bool>)
    returns (r: CreateReply)
    modifies db`communities, db`members, db`communityInterests
    ensures newId in old(db.communities) ==>
              && r == CreateFailed(500, "Failed to create community")
              && db.communities == old(db.communities) && db.members == old(db.members)
              && db.communityInterests == old(db.communityInterests)
    ensures newId !in old(db.communities) ==>
              && r.Created? && r.interests == interests
              && r.community.id == newId && r.community.creatorId == me
              && r.community.name == name && r.community.description == description && r.community.category == category
              && r.community.imageUrl == ImagePrefix + ImageSeed(name)
              && r.community.maxMembers == (if maxMembers.Some? && maxMembers.value != 0 then maxMembers.value else 100)
              && r.community.isPrivate == (isPrivate.Some? && isPrivate.value)
              && r.community.memberCount == 1
              && r.community.createdAt == now && r.community.lastActivity == now
              && db.communities == old(db.communities)[newId := r.community]
              && db.members == old(db.members)[(newId, me) := "admin"]
              && db.communityInterests ==
                   old(db.communityInterests) + (if |interests| > 0 then Links(newId, Named(db.interests, interests)) else [])
  {
    if newId in db.communities {
      return CreateFailed(500, "Failed to create community");
    }
    var c := Community(newId, name, description, category, ImagePrefix + ImageSeed(name), me,
                       if maxMembers.Some? && maxMembers.value != 0 then maxMembers.value else 100,
                       isPrivate.Some? && isPrivate.value, 1, now, now);
    db.communities := db.communities[newId := c];
    db.members := db.members[(newId, me) := "admin"];
    var records := Named(db.interests, interests);
    if |interests| > 0 && |records| > 0 {
      db.communityInterests := db.communityInterests + Links(newId, records);
    } else {
      assert |interests| > 0 ==> Links(newId, records) == [];
    }
    r := Created(c, interests);
  }

  // ---------------------------------------------------------------------------------------
  // GET /

  /** The role of each of the caller's memberships, keyed by community: `membershipMap`. */
  function RoleMap(rows: seq<(CommunityId, string)>): map<CommunityId, string> {
    if rows == [] then map[]
    else RoleMap(rows[..|rows| - 1])[rows[|rows| - 1].0 := rows[|rows| - 1].1]
  }

  /** The `forEach` that fills `membershipMap` from the caller's membership rows. */
  method MembershipMap(rows: seq<(CommunityId, string)>) returns (m: map<CommunityId, string>)
    ensures m == RoleMap(rows)
  {
    m := map[];
    for i := 0 to |rows|
      invariant m == RoleMap(rows[..i])
    {
      assert rows[..i + 1][..i] == rows[..i];
      m := m[rows[i].0 := rows[i].1];
    }
    assert rows[..|rows|] == rows;
  }

  /** When the rows are the caller's memberships, the map gives each community the caller's
      role in it, and holds every community of the rows. */
  lemma {:induction false} RoleMapAgrees(rows: seq<(CommunityId, string)>, members: map<(CommunityId, UserId), string>, me: UserId)
    requires forall i :: 0 <= i < |rows| ==> Membership(members, rows[i].0, me) == Some(rows[i].1)
    ensures forall c :: c in RoleMap(rows) ==> Membership(members, c, me) == Some(RoleMap(rows)[c])
    ensures forall i :: 0 <= i < |rows| ==> rows[i].0 in RoleMap(rows)
  {
    if rows != [] {
      RoleMapAgrees(rows[..|rows| - 1], members, me);
    }
  }

  /** The rows the listing query selects: public, in the category when one is given, and with
      the search text in the name or the description, ignoring case, when one is given. */
  predicate Listed(c: Community, category: Option<string>, search: Option<string>) {
    && !c.isPrivate
    && (Present(category) ==> c.category == category.value)
    && (Present(search) ==> ContainsIgnoringCase(c.name, search.value) || ContainsIgnoringCase(c.description, search.value))
  }

  datatype Listing = Listing(community: Community, isMember: bool, role: Option<string>)

  /** One listed community with `isMember: !!membershipMap[id]` and `role: membershipMap[id] || null`. */
  function ListingOf(c: Community, roles: map<CommunityId, string>): (l: Listing)
    ensures l.community == c
    ensures l.isMember <==> c.id in roles && roles[c.id] != ""
    ensures l.role.Some? <==> l.isMember
    ensures l.role.Some? ==> l.role.value == roles[c.id]
  {
    if c.id in roles && roles[c.id] != "" then Listing(c, true, Some(roles[c.id])) else Listing(c, false, None)
  }

  datatype ListReply = ListReply(communities: seq<Listing>, total: nat, page: nat, totalPages: nat)

  /** The rows of `rows` (the table in storage order) the query selects, in table order. */
  function Selected(rows: seq<Community>, category: Option<string>, search: Option<string>): (r: seq<Community>)
    ensures forall i :: 0 <= i < |r| ==> r[i] in rows && Listed(r[i], category, search)
    ensures forall j :: 0 <= j < |rows| && Listed(rows[j], category, search) ==> rows[j] in r
    ensures forall c :: c in r ==> c in rows && Listed(c, category, search)
  {
    Filter(rows, (c: Community) => Listed(c, category, search))
  }

  /** The selected rows by member count, largest first (the sort is stable). */
  function Ordered(rows: seq<Community>, category: Option<string>, search: Option<string>): (r: seq<Community>)
    ensures |r| == |Selected(rows, category, search)|
  {
    MostMembers(Selected(rows, category, search))
  }

  function Listings(cs: seq<Community>, roles: map<CommunityId, string>): (r: seq<Listing>)
    ensures |r| == |cs| && forall i :: 0 <= i < |cs| ==> r[i] == ListingOf(cs[i], roles)
  {
    seq(|cs|, i requires 0 <= i < |cs| => ListingOf(cs[i], roles))
  }

  /** `GET /`: one page of the ordered selection; `total` counts the whole selection. */
  function List(rows: seq<Community>, roles: map<CommunityId, string>, category: Option<string>,
                search: Option<string>, page: nat, limit: nat): (r: ListReply)
    requires page >= 1 && limit >= 1
    ensures r.total == |Selected(rows, category, search)|
    ensures r.page == page && r.totalPages == TotalPages(r.total, limit)
    ensures |r.communities| <= limit
    ensures |r.communities| == if Offset(page, limit) < r.total then Min(limit, r.total - Offset(page, limit)) else 0
    ensures r.communities != [] ==> Offset(page, limit) + |r.communities| <= r.total
    ensures forall i :: 0 <= i < |r.communities| ==>
              Offset(page, limit) + i < r.total &&
              r.communities[i] == ListingOf(Ordered(rows, category, search)[Offset(page, limit) + i], roles)
  {
    var ordered := Ordered(rows, category, search);
    ListReply(Listings(PageRows(ordered, page, limit), roles), |ordered|, page, TotalPages(|ordered|, limit))
  }

  /** A run of consecutive rows of a list ordered by member count keeps that order. */
  lemma WindowByMembers(o: seq<Community>, ls: seq<Listing>, off: nat)
    requires ls != [] ==> off + |ls| <= |o|
    requires forall i :: 0 <= i < |ls| ==> ls[i].community == o[off + i]
    requires forall a, b :: 0 <= a < b < |o| ==> o[a].memberCount >= o[b].memberCount
    ensures forall i, j :: 0 <= i < j < |ls| ==> ls[i].community.memberCount >= ls[j].community.memberCount
  {
    forall i, j | 0 <= i < j < |ls| ensures ls[i].community.memberCount >= ls[j].community.memberCount {
      assert ls[i].community == o[off + i] && ls[j].community == o[off + j];
    }
  }

  /** A page of `sel` ordered by member count holds rows of `sel`, largest first. */
  lemma PageFacts(sel: seq<Community>, roles: map<CommunityId, string>, page: nat, limit: nat)
    requires page >= 1 && limit >= 1
    ensures var ls := Listings(PageRows(MostMembers(sel), page, limit), roles);
            && (forall i :: 0 <= i < |ls| ==> ls[i].community in sel)
            && (forall i, j :: 0 <= i < j < |ls| ==> ls[i].community.memberCount >= ls[j].community.memberCount)
  {
    var o := MostMembers(sel);
    var p := PageRows(o, page, limit);
    var ls := Listings(p, roles);
    var off := Offset(page, limit);
    MostMembersFacts(sel);
    forall i | 0 <= i < |ls| ensures ls[i].community == o[off + i] && ls[i].community in sel {
      assert ls[i].community == p[i];
    }
    WindowByMembers(o, ls, off);
  }

  /** The listing holds only selected rows of the table, and in non-increasing member count. */
  lemma ListFacts(rows: seq<Community>, roles: map<CommunityId, string>, category: Option<string>,
                  search: Option<string>, page: nat, limit: nat)
    requires page >= 1 && limit >= 1
    ensures var ls := List(rows, roles, category, search, page, limit).communities;
            && (forall i :: 0 <= i < |ls| ==> ls[i].community in rows && Listed(ls[i].community, category, search))
            && (forall i, j :: 0 <= i < j < |ls| ==> ls[i].community.memberCount >= ls[j].community.memberCount)
  {
    var sel := Selected(rows, category, search);
    PageFacts(sel, roles, page, limit);
    var ls := List(rows, roles, category, search, page, limit).communities;
    assert ls == Listings(PageRows(MostMembers(sel), page, limit), roles);
    forall i | 0 <= i < |ls| ensures ls[i].community in rows && Listed(ls[i].community, category, search) {
      assert ls[i].community in sel;
    }
  }

  /** Every row of the table the query selects is listed on some page. */
  lemma ListCovers(rows: seq<Community>, roles: map<CommunityId, string>, category: Option<string>,
                   search: Option<string>, limit: nat, c: Community)
    requires limit >= 1 && c in rows && Listed(c, category, search)
    ensures exists page: nat :: page >= 1 && ListingOf(c, roles) in List(rows, roles, category, search, page, limit).communities
  {
    var sel := Selected(rows, category, search);
    var o := MostMembers(sel);
    MostMembersFacts(sel);
    assert c in multiset(o) by { assert c in sel; }
    SomePageHas(o, limit, c);
    var page: nat :| page >= 1 && c in PageRows(o, page, limit);
    var p := PageRows(o, page, limit);
    var k :| 0 <= k < |p| && p[k] == c;
    assert List(rows, roles, category, search, page, limit).communities[k] == ListingOf(c, roles);
  }

  // ---------------------------------------------------------------------------------------
  // GET /:id

  datatype ViewReply =
    | Viewed(community: Community, isMember: bool, role: Option<string>, isCreator: bool)
    | ViewFailed(status: nat, error: string)

  /** `GET /:id`: 404 for an unknown community, 403 for a private one the caller has not
      joined; otherwise the community with the caller's flags. */
  function View(communities: map<CommunityId, Community>, members: map<(CommunityId, UserId), string>,
                me: UserId, id: CommunityId): (r: ViewReply)
    ensures r == ViewFailed(404, "Community not found") <==> id !in communities
    ensures r == ViewFailed(403, "This community is private") <==>
              id in communities && communities[id].isPrivate && (id, me) !in members
    ensures r.Viewed? || r == ViewFailed(404, "Community not found") || r == ViewFailed(403, "This community is private")
    ensures r.Viewed? ==>
              && r.community == communities[id]
              && (r.isMember <==> (id, me) in members)
              && (r.role.Some? <==> (id, me) in members && members[(id, me)] != "")
              && (r.role.Some? ==> r.role.value == members[(id, me)])
              && (r.isCreator <==> communities[id].creatorId == me)
  {
    if id !in communities then ViewFailed(404, "Community not found")
    else
      var c := communities[id];
      var membership := Membership(members, id, me);
      if c.isPrivate && membership.None? then ViewFailed(403, "This community is private")
      else Viewed(c, membership.Some?, OrNull(membership), c.creatorId == me)
  }

  // ---------------------------------------------------------------------------------------
  // POST /:id/join, POST /:id/leave

  /** `POST /:id/join`. The checks run in order: unknown community (404), already a member
      (400), full (400), private (403); only then is a 'member' row inserted and the
      community's last activity set to `now`. The member count is not changed here. */
  method Join(db: Database, me: UserId, id: CommunityId, now: int) returns (r: Reply)
    modifies db`members, db`communities
    ensures id !in old(db.communities) ==> r == Fail(404, "Community not found")
    ensures id in old(db.communities) && (id, me) in old(db.members) ==>
              r == Fail(400, "Already a member of this community")
    ensures id in old(db.communities) && (id, me) !in old(db.members)
            && old(db.communities)[id].memberCount >= old(db.communities)[id].maxMembers ==>
              r == Fail(400, "Community is full")
    ensures id in old(db.communities) && (id, me) !in old(db.members)
            && old(db.communities)[id].memberCount < old(db.communities)[id].maxMembers
            && old(db.communities)[id].isPrivate ==>
              r == Fail(403, "This community is private. Request an invitation.")
    ensures r.Fail? ==> db.members == old(db.members) && db.communities == old(db.communities)
    ensures r.Ok? <==>
              && id in old(db.communities) && (id, me) !in old(db.members)
              && old(db.communities)[id].memberCount < old(db.communities)[id].maxMembers
              && !old(db.communities)[id].isPrivate
    ensures r.Ok? ==>
              && r == Ok("Joined community successfully")
              && db.members == old(db.members)[(id, me) := "member"]
              && db.communities == old(db.communities)[id := old(db.communities)[id].(lastActivity := now)]
  {
    if id !in db.communities {
      return Fail(404, "Community not found");
    }
    var c := db.communities[id];
    if Membership(db.members, id, me).Some? {
      return Fail(400, "Already a member of this community");
    }
    if c.memberCount >= c.maxMembers {
      return Fail(400, "Community is full");
    }
    if c.isPrivate {
      return Fail(403, "This community is private. Request an invitation.");
    }
    db.members := db.members[(id, me) := "member"];
    db.communities := db.communities[id := c.(lastActivity := now)];
    r := Ok("Joined community successfully");
  }

  /** `POST /:id/leave`: the creator may not leave (400); anyone else's membership row is
      deleted, and leaving a community one is not in succeeds as well. */
  method Leave(db: Database, me: UserId, id: CommunityId) returns (r: Reply)
    modifies db`members
    ensures id in db.communities && db.communities[id].creatorId == me ==>
              r == Fail(400, "Creator cannot leave. Transfer ownership or delete the community.")
              && db.members == old(db.members)
    ensures !(id in db.communities && db.communities[id].creatorId == me) ==>
              r == Ok("Left community successfully") && db.members == old(db.members) - {(id, me)}
  {
    if id in db.communities && db.communities[id].creatorId == me {
      return Fail(400, "Creator cannot leave. Transfer ownership or delete the community.");
    }
    db.members := db.members - {(id, me)};
    r := Ok("Left community successfully");
  }

  // ---------------------------------------------------------------------------------------
  // PUT /:id, DELETE /:id

  /** The editable fields of the request body; absent ones are None. */
  datatype Patch = Patch(name: Option<string>, description: Option<string>, category: Option<string>,
                         isPrivate: Option<bool>, maxMembers: Option<int>)

  /** `updateData` applied to a row: the texts and the member limit are copied only when truthy,
      the privacy flag whenever it is given; nothing else changes. */
  function Apply(c: Community, p: Patch): (d: Community)
    ensures d.name == (if Present(p.name) then p.name.value else c.name)
    ensures d.description == (if Present(p.description) then p.description.value else c.description)
    ensures d.category == (if Present(p.category) then p.category.value else c.category)
    ensures d.isPrivate == (if p.isPrivate.Some? then p.isPrivate.value else c.isPrivate)
    ensures d.maxMembers == (if p.maxMembers.Some? && p.maxMembers.value != 0 then p.maxMembers.value else c.maxMembers)
    ensures d.id == c.id && d.creatorId == c.creatorId && d.memberCount == c.memberCount
    ensures d.imageUrl == c.imageUrl && d.createdAt == c.createdAt && d.lastActivity == c.lastActivity
  {
    c.(name := if Present(p.name) then p.name.value else c.name,
       description := if Present(p.description) then p.description.value else c.description,
       category := if Present(p.category) then p.category.value else c.category,
       isPrivate := if p.isPrivate.Some? then p.isPrivate.value else c.isPrivate,
       maxMembers := if p.maxMembers.Some? && p.maxMembers.value != 0 then p.maxMembers.value else c.maxMembers)
  }

  /** An empty body changes nothing, and sending the same body twice is the same as once. */
  lemma ApplyIdempotent(c: Community, p: Patch)
    ensures Apply(Apply(c, p), p) == Apply(c, p)
    ensures Apply(c, Patch(None, None, None, None, None)) == c
  {
  }

  /** The caller may edit: a membership row with role 'admin'. */
  predicate IsAdmin(members: map<(CommunityId, UserId), string>, id: CommunityId, me: UserId) {
    (id, me) in members && members[(id, me)] == "admin"
  }

  datatype UpdateReply = Updated(community: Community) | UpdateFailed(status: nat, error: string)

  /** `PUT /:id`: only an admin may edit (403); an update that finds no row fails with 500. */
  method Update(db: Database, me: UserId, id: CommunityId, p: Patch) returns (r: UpdateReply)
    modifies db`communities
    ensures !IsAdmin(db.members, id, me) ==>
              r == UpdateFailed(403, "Only admins can edit the community") && db.communities == old(db.communities)
    ensures IsAdmin(db.members, id, me) && id !in old(db.communities) ==>
              r == UpdateFailed(500, "Failed to update community") && db.communities == old(db.communities)
    ensures IsAdmin(db.members, id, me) && id in old(db.communities) ==>
              && db.communities == old(db.communities)[id := Apply(old(db.communities)[id], p)]
              && r == Updated(db.communities[id])
  {
    if !(Membership(db.members, id, me).Some? && Membership(db.members, id, me).value == "admin") {
      return UpdateFailed(403, "Only admins can edit the community");
    }
    if id !in db.communities {
      return UpdateFailed(500, "Failed to update community");
    }
    db.communities := db.communities[id := Apply(db.communities[id], p)];
    r := Updated(db.communities[id]);
  }

  /** `DELETE /:id`: only the creator may delete; anyone else, and anyone asking for a
      community that does not exist, gets 403. */
  method Delete(db: Database, me: UserId, id: CommunityId) returns (r: Reply)
    modifies db`communities
    ensures id in old(db.communities) && old(db.communities)[id].creatorId == me ==>
              r == Ok("Community deleted successfully") && db.communities == old(db.communities) - {id}
    ensures !(id in old(db.communities) && old(db.communities)[id].creatorId == me) ==>
              r == Fail(403, "Only the creator can delete the community") && db.communities == old(db.communities)
  {
    if !(id in db.communities && db.communities[id].creatorId == me) {
      return Fail(403, "Only the creator can delete the community");
    }
    db.communities := db.communities - {id};
    r := Ok("Community deleted successfully");
  }
}
