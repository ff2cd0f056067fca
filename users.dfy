/** The users routes: profile privacy masking, the interest filter of `/search`, the category
    grouping of `/interests`, and blocking. (`/matches` is in module Ranking.) */
module Users {
  import opened Common
  import opened Seqs
  import opened Text
  import opened Paging
  import opened Db

  // ---------------------------------------------------------------------------------------
  // /profile/:id

  /** The profile object the endpoint returns (interests, skills and communities left out). */
  datatype Profile = Profile(
    id: UserId,
    name: string,
    email: Option<string>,
    age: Option<int>,
    bio: Option<string>,
    location: Option<string>,
    profilePicture: string,
    userType: string,
    isVerified: bool,
    isOnline: bool,
    lastActive: int)

  /** `privacy_settings || {}`: a missing settings object hides everything. */
  function Settings(u: User): Privacy {
    if u.privacy.Some? then u.privacy.value else Privacy(false, false, false)
  }

  /** The profile of `u` as `viewer` sees it: e-mail, age and location only on one's own
      profile or when the owner's matching privacy flag is set; every other field always. */
  function ProfileView(viewer: UserId, u: User): (p: Profile)
    ensures p.email.Some? <==> viewer == u.id || Settings(u).showEmail
    ensures p.email.Some? ==> p.email.value == u.email
    ensures p.age == None || p.age == u.age
    ensures viewer != u.id && !Settings(u).showAge ==> p.age == None
    ensures viewer == u.id || Settings(u).showAge ==> p.age == u.age
    ensures p.location == None || p.location == u.location
    ensures viewer != u.id && !Settings(u).showLocation ==> p.location == None
    ensures viewer == u.id || Settings(u).showLocation ==> p.location == u.location
    ensures p.id == u.id && p.name == u.name && p.bio == u.bio && p.profilePicture == u.profilePicture
    ensures p.userType == u.userType && p.isVerified == u.isVerified && p.isOnline == u.isOnline
    ensures p.lastActive == u.lastActive
  {
    var own := viewer == u.id;
    var s := Settings(u);
    Profile(
      u.id, u.name,
      if own || s.showEmail then Some(u.email) else None,
      if own || s.showAge then u.age else None,
      u.bio,
      if own || s.showLocation then u.location else None,
      u.profilePicture, u.userType, u.isVerified, u.isOnline, u.lastActive)
  }

  datatype ProfileReply = ProfileNotFound | ProfileFound(profile: Profile)

  /** `GET /profile/:id`: 404 unless exactly one user has the id. */
  function GetProfile(viewer: UserId, users: seq<User>, id: UserId): (r: ProfileReply)
    ensures r.ProfileNotFound? <==> UserById(users, id).None?
    ensures r.ProfileFound? ==> r.profile == ProfileView(viewer, UserById(users, id).value) && r.profile.id == id
  {
    match UserById(users, id)
    case None => ProfileNotFound
    case Some(u) => ProfileFound(ProfileView(viewer, u))
  }

  // ---------------------------------------------------------------------------------------
  // /search

  /** A row of the search query with the names of the user's interests. */
  datatype Found = Found(id: UserId, interests: seq<string>)

  /** One query term, `i.trim().toLowerCase()`: the trimmed piece, each character
      lower-cased; so no white space at either end and no upper-case ASCII letter, and a piece
      of the split holds no comma, nor does its term. */
  function Term(part: string): (t: string)
    ensures |t| <= |part|
    ensures t != [] ==> !IsSpace(t[0]) && !IsSpace(t[|t| - 1])
    ensures forall j :: 0 <= j < |t| ==> !('A' <= t[j] <= 'Z')
    ensures ',' !in part ==> ',' !in t
    ensures |t| == |Trim(part)| && forall j :: 0 <= j < |t| ==> t[j] == LowerChar(Trim(part)[j])
  {
    var tr := Trim(part);
    TrimOmits(part, ',');
    LowerKinds(tr);
    Lower(tr)
  }

  /** `interests.split(',').map(i => i.trim().toLowerCase())`. */
  function SearchTerms(q: string): (ts: seq<string>)
    ensures |ts| == |Split(q, ',')|
    ensures forall i :: 0 <= i < |ts| ==> ts[i] == Term(Split(q, ',')[i]) && ',' !in ts[i]
  {
    var parts := Split(q, ',');
    seq(|parts|, i requires 0 <= i < |parts| => Term(parts[i]))
  }

  /** Some interest of `u`, lower-cased, is one of the terms. */
  predicate Wanted(u: Found, terms: seq<string>) {
    exists i :: 0 <= i < |u.interests| && Lower(u.interests[i]) in terms
  }

  /** The filter applied when the `interests` query parameter is given. */
  function InterestFilter(users: seq<Found>, q: Option<string>): (r: seq<Found>)
    ensures !Present(q) ==> r == users
    ensures Present(q) ==> forall i :: 0 <= i < |r| ==> r[i] in users && Wanted(r[i], SearchTerms(q.value))
    ensures Present(q) ==> forall j :: 0 <= j < |users| && Wanted(users[j], SearchTerms(q.value)) ==> users[j] in r
  {
    if Present(q) then
      var terms := SearchTerms(q.value);
      Filter(users, (u: Found) => Wanted(u, terms))
    else users
  }

  /** The filter keeps the order of the rows: filtering a concatenation is concatenating the
      filtered parts. */
  lemma InterestFilterKeepsOrder(a: seq<Found>, b: seq<Found>, q: Option<string>)
    ensures InterestFilter(a + b, q) == InterestFilter(a, q) + InterestFilter(b, q)
  {
    if Present(q) {
      var terms := SearchTerms(q.value);
      FilterAppend(a, b, (u: Found) => Wanted(u, terms));
    }
  }

  datatype SearchReply = SearchReply(users: seq<Found>, total: nat, page: nat, totalPages: nat)

  /** `GET /search` over `rows`, the users the query matches in order. The interest filter runs
      on the fetched page, so `total` and `totalPages` count the rows before filtering. */
  function Search(rows: seq<Found>, page: nat, limit: nat, q: Option<string>): (r: SearchReply)
    requires page >= 1 && limit >= 1
    ensures r.total == |rows| && r.page == page && r.totalPages == TotalPages(|rows|, limit)
    ensures |r.users| <= limit
    ensures forall i :: 0 <= i < |r.users| ==> r.users[i] in PageRows(rows, page, limit)
    ensures !Present(q) ==> r.users == PageRows(rows, page, limit)
    ensures r.users == InterestFilter(PageRows(rows, page, limit), q)
  {
    var onPage := PageRows(rows, page, limit);
    SearchReply(InterestFilter(onPage, q), |rows|, page, TotalPages(|rows|, limit))
  }

  // ---------------------------------------------------------------------------------------
  // /interests

  /** `interest.category || 'other'`. */
  function CategoryOf(x: Interest): string {
    if Present(x.category) then x.category.value else "other"
  }

  /** The interests of category `c`, in order. */
  function InCategory(xs: seq<Interest>, c: string): seq<Interest> {
    if xs == [] then []
    else InCategory(xs[..|xs| - 1], c) + (if CategoryOf(xs[|xs| - 1]) == c then [xs[|xs| - 1]] else [])
  }

  /** The `reduce` that builds `grouped`: each interest is pushed onto its category's list. */
  function Group(xs: seq<Interest>): map<string, seq<Interest>> {
    if xs == [] then map[]
    else
      var g, x := Group(xs[..|xs| - 1]), xs[|xs| - 1];
      var c := CategoryOf(x);
      g[c := (if c in g then g[c] else []) + [x]]
  }

  /** The groups are exactly the categories that occur, and each group lists the interests of
      its category in input order; so every interest is in exactly one group. */
  lemma {:induction false} GroupByCategory(xs: seq<Interest>)
    ensures forall c :: c in Group(xs) ==> Group(xs)[c] == InCategory(xs, c) && Group(xs)[c] != []
    ensures forall c :: c !in Group(xs) ==> InCategory(xs, c) == []
  {
    if xs != [] {
      GroupByCategory(xs[..|xs| - 1]);
    }
  }

  /** Every interest lies in the group of its own category, and only there. */
  lemma {:induction false} GroupPlacesEach(xs: seq<Interest>, i: nat)
    requires i < |xs|
    ensures CategoryOf(xs[i]) in Group(xs) && xs[i] in Group(xs)[CategoryOf(xs[i])]
    ensures forall c :: c in Group(xs) && xs[i] in Group(xs)[c] ==> c == CategoryOf(xs[i])
  {
    GroupByCategory(xs);
    InCategoryHas(xs, i);
    forall c | c in Group(xs) && xs[i] in Group(xs)[c] ensures c == CategoryOf(xs[i]) {
      InCategoryOnly(xs, c, xs[i]);
    }
  }

  lemma {:induction false} InCategoryHas(xs: seq<Interest>, i: nat)
    requires i < |xs|
    ensures xs[i] in InCategory(xs, CategoryOf(xs[i]))
  {
    if i < |xs| - 1 {
      InCategoryHas(xs[..|xs| - 1], i);
    }
  }

  lemma {:induction false} InCategoryOnly(xs: seq<Interest>, c: string, x: Interest)
    requires x in InCategory(xs, c)
    ensures CategoryOf(x) == c
  {
    if xs != [] && x in InCategory(xs[..|xs| - 1], c) {
      InCategoryOnly(xs[..|xs| - 1], c, x);
    }
  }

  // ---------------------------------------------------------------------------------------
  // /block/:userId

  /** `POST /block/:userId`. A repeated block hits the unique key (error 23505) and still
      reports success, so blocking twice is the same as blocking once. */
  method Block(db: Database, me: UserId, target: UserId) returns (r: Reply)
    modifies db`blocks
    ensures target == me ==> r == Fail(400, "Cannot block yourself") && db.blocks == old(db.blocks)
    ensures target != me ==> r == Ok("User blocked successfully") && db.blocks == old(db.blocks) + {(me, target)}
  {
    if target == me {
      return Fail(400, "Cannot block yourself");
    }
    if (me, target) !in db.blocks {
      db.blocks := db.blocks + {(me, target)};
    }
    r := Ok("User blocked successfully");
  }

  /** `DELETE /block/:userId`: removes the caller's block on the user, if any. */
  method Unblock(db: Database, me: UserId, target: UserId) returns (r: Reply)
    modifies db`blocks
    ensures r == Ok("User unblocked successfully")
    ensures db.blocks == old(db.blocks) - {(me, target)}
  {
    db.blocks := db.blocks - {(me, target)};
    r := Ok("User unblocked successfully");
  }
}
