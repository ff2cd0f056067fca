/** Interest-overlap ranking: the `/matches` endpoint of the users routes, which ranks other
    users by the number of interests they share with the caller, and the `/recommendations`
    endpoint of the communities routes, which ranks public communities the caller has not
    joined by the share of the caller's interests they cover. */
module Ranking {
  import opened Common
  import opened Seqs
  import opened Sorting
  import opened Db

  // ---------------------------------------------------------------------------------------
  // The score

  /** `Math.round(k / n * 100)` computed exactly: 100·k/n rounded half up. */
  function Percent(k: nat, n: nat): (p: nat)
    requires n > 0
    ensures 2 * n * p <= 200 * k + n < 2 * n * (p + 1)
  {
    (200 * k + n) / (2 * n)
  }

  lemma MulLeft(a: nat, b: nat, c: nat)
    requires b <= c
    ensures a * b <= a * c
  {
  }

  /** The score of a part never exceeds 100. */
  lemma PercentAtMostHundred(k: nat, n: nat)
    requires 0 < n && k <= n
    ensures Percent(k, n) <= 100
  {
    var p := Percent(k, n);
    if p > 100 {
      MulLeft(2 * n, 101, p);
    }
  }

  lemma PercentOfAll(n: nat)
    requires n > 0
    ensures Percent(n, n) == 100
  {
    var p := Percent(n, n);
    if p > 100 {
      MulLeft(2 * n, 101, p);
    } else if p < 100 {
      MulLeft(2 * n, p + 1, 100);
    }
  }

  lemma PercentOfNone(n: nat)
    requires n > 0
    ensures Percent(0, n) == 0
  {
    var p := Percent(0, n);
    if p > 0 {
      MulLeft(2 * n, 1, p);
    }
  }

  /** More shared interests never give a lower score. */
  lemma PercentMonotone(k1: nat, k2: nat, n: nat)
    requires n > 0 && k1 <= k2
    ensures Percent(k1, n) <= Percent(k2, n)
  {
    var p1, p2 := Percent(k1, n), Percent(k2, n);
    if p1 > p2 {
      MulLeft(2 * n, p2 + 1, p1);
    }
  }

  /** With fewer than 200 interests, a score of 100 means every interest is shared. */
  lemma PercentHundredNeedsAll(k: nat, n: nat)
    requires 0 < n < 200 && k < n
    ensures Percent(k, n) < 100
  {
    var p := Percent(k, n);
    MulLeft(200, k, n - 1);
    if p >= 100 {
      MulLeft(2 * n, 100, p);
    }
  }

  /** Rounding half up: 199 shared interests out of 200 already score 100. */
  lemma PercentNearlyAll()
    ensures Percent(199, 200) == 100
  {
  }

  // ---------------------------------------------------------------------------------------
  // Interest rows

  /** The interest ids of the rows owned by `owner`, in table order. */
  function InterestsOf(rows: seq<InterestRow>, owner: string): (r: seq<InterestId>)
    ensures |r| <= |rows|
    ensures forall i :: 0 <= i < |r| ==> InterestRow(owner, r[i]) in rows
    ensures forall j :: 0 <= j < |rows| && rows[j].ownerId == owner ==> rows[j].interestId in r
  {
    if rows == [] then []
    else
      var init, last := rows[..|rows| - 1], rows[|rows| - 1];
      assert rows == init + [last];
      InterestsOf(init, owner) + (if last.ownerId == owner then [last.interestId] else [])
  }

  /** Distinct rows give each owner distinct interests. */
  lemma {:induction false} InterestsOfNoDup(rows: seq<InterestRow>, owner: string)
    requires NoDup(rows)
    ensures NoDup(InterestsOf(rows, owner))
  {
    if rows != [] {
      var init, last := rows[..|rows| - 1], rows[|rows| - 1];
      assert NoDup(init);
      InterestsOfNoDup(init, owner);
      if last.ownerId == owner {
        var xs := InterestsOf(init, owner);
        assert last !in init;
        forall i | 0 <= i < |xs| ensures xs[i] != last.interestId {
          assert InterestRow(owner, xs[i]) in init;
        }
      }
    }
  }

  /** Appending a row adds one to its owner's overlap and leaves every other owner's alone. */
  lemma OverlapStep(m: seq<InterestRow>, i: nat, v: UserId)
    requires i < |m|
    ensures Overlap(m[..i + 1], v) == Overlap(m[..i], v) + (if m[i].ownerId == v then 1 else 0)
  {
    assert m[..i + 1][..i] == m[..i];
  }

  /** Appending a row adds its owner to the candidates the first time the owner is seen. */
  lemma CandidatesStep(m: seq<InterestRow>, i: nat)
    requires i < |m|
    ensures Candidates(m[..i + 1]) ==
              if m[i].ownerId in Candidates(m[..i]) then Candidates(m[..i]) else Candidates(m[..i]) + [m[i].ownerId]
  {
    var o := Owners(m[..i]);
    assert Owners(m[..i + 1]) == o + [m[i].ownerId];
    assert (o + [m[i].ownerId])[..|o|] == o;
  }

  lemma {:induction false} InterestsOfNone(rows: seq<InterestRow>, owner: string)
    requires forall j :: 0 <= j < |rows| ==> rows[j].ownerId != owner
    ensures InterestsOf(rows, owner) == []
  {
    if rows != [] {
      InterestsOfNone(rows[..|rows| - 1], owner);
    }
  }

  /** A user who owns none of the rows has no overlap. */
  lemma NotCandidateNoOverlap(m: seq<InterestRow>, u: UserId)
    requires u !in Candidates(m)
    ensures Overlap(m, u) == 0
  {
    forall j | 0 <= j < |m| ensures m[j].ownerId != u {
      assert Owners(m)[j] in Candidates(m);
    }
    InterestsOfNone(m, u);
  }

  /** Number of a user's rows among `m`: the overlap count `userMatchScores[id]`. */
  function Overlap(m: seq<InterestRow>, u: UserId): nat {
    |InterestsOf(m, u)|
  }

  // ---------------------------------------------------------------------------------------
  // /matches

  /** The `matchingUsers` query: other users' rows whose interest the caller has. */
  function Matching(caller: UserId, mine: seq<InterestId>, rows: seq<InterestRow>): (m: seq<InterestRow>)
    ensures forall i :: 0 <= i < |m| ==> m[i] in rows && m[i].interestId in mine && m[i].ownerId != caller
    ensures forall j :: 0 <= j < |rows| && rows[j].interestId in mine && rows[j].ownerId != caller ==> rows[j] in m
  {
    Filter(rows, (r: InterestRow) => r.interestId in mine && r.ownerId != caller)
  }

  function Owners(m: seq<InterestRow>): (r: seq<UserId>)
    ensures |r| == |m| && forall i :: 0 <= i < |m| ==> r[i] == m[i].ownerId
  {
    seq(|m|, i requires 0 <= i < |m| => m[i].ownerId)
  }

  /** The keys of `userMatchScores`, in insertion order. */
  function Candidates(m: seq<InterestRow>): seq<UserId> {
    Distinct(Owners(m))
  }

  function Scored(ids: seq<UserId>, m: seq<InterestRow>): (r: seq<Keyed<UserId>>)
    ensures |r| == |ids|
    ensures forall i :: 0 <= i < |ids| ==> r[i] == Keyed(ids[i], Overlap(m, ids[i]), 0)
  {
    seq(|ids|, i requires 0 <= i < |ids| => Keyed(ids[i], Overlap(m, ids[i]), 0))
  }

  /** `sortedUserIds`: the candidates stably sorted by overlap, largest first, cut to ten. */
  function Top(m: seq<InterestRow>): seq<UserId> {
    Items(Take(SortDesc(Scored(Candidates(m), m)), 10))
  }

  /** Ten candidates survive, or all of them when there are fewer. */
  lemma TopSize(m: seq<InterestRow>)
    ensures |Top(m)| == if |Candidates(m)| < 10 then |Candidates(m)| else 10
    ensures forall i :: 0 <= i < |Top(m)| ==> Top(m)[i] in Candidates(m)
  {
    var s := Scored(Candidates(m), m);
    var P := (k: Keyed<UserId>) => k.item in Candidates(m);
    SortDescKeeps(s, P);
  }

  /** No candidate left out of the top ten shares more interests than one kept. */
  lemma TopKeepsLargest(m: seq<InterestRow>, u: UserId)
    requires u in Candidates(m) && u !in Top(m)
    ensures forall i :: 0 <= i < |Top(m)| ==> Overlap(m, Top(m)[i]) >= Overlap(m, u)
  {
    var s := Scored(Candidates(m), m);
    var r := SortDesc(s);
    var P := (k: Keyed<UserId>) => k.major == Overlap(m, k.item);
    SortDescKeeps(s, P);
    var j :| 0 <= j < |Candidates(m)| && Candidates(m)[j] == u;
    SortDescTop(s, 10, s[j]);
    forall i | 0 <= i < |Top(m)| ensures Overlap(m, Top(m)[i]) >= Overlap(m, u) {
      assert Top(m)[i] == r[i].item && P(r[i]);
    }
  }

  datatype Match = Match(userId: UserId, matchScore: nat)

  datatype MatchesReply =
    | AddInterestsFirst   // `{ matches: [], message: 'Add some interests to find matches!' }`
    | Matches(matches: seq<Match>)

  function ScoredMatches(ids: seq<UserId>, m: seq<InterestRow>, n: nat): (r: seq<Keyed<Match>>)
    requires n > 0
    ensures |r| == |ids|
    ensures forall i :: 0 <= i < |ids| ==>
              r[i] == Keyed(Match(ids[i], Percent(Overlap(m, ids[i]), n)), Percent(Overlap(m, ids[i]), n), 0)
  {
    seq(|ids|, i requires 0 <= i < |ids| =>
      var score := Percent(Overlap(m, ids[i]), n);
      Keyed(Match(ids[i], score), score, 0))
  }

  /** Some row of `users` has id `u`. */
  predicate Stored(users: seq<User>, u: UserId) {
    exists k :: 0 <= k < |users| && users[k].id == u
  }

  /** `.from('users').in('id', ids)`: the ids of the `users` rows whose id is one of `ids`,
      in table order. */
  function Fetched(ids: seq<UserId>, users: seq<User>): (r: seq<UserId>)
    ensures forall u :: u in r <==> u in ids && Stored(users, u)
  {
    if users == [] then []
    else
      var init, last := users[..|users| - 1], users[|users| - 1];
      assert forall k :: 0 <= k < |init| ==> init[k] == users[k];
      Fetched(ids, init) + (if last.id in ids then [last.id] else [])
  }

  /** With the users' ids unique, no id is fetched twice, so no more ids come back than were
      asked for. */
  lemma {:induction false} FetchedBound(ids: seq<UserId>, users: seq<User>)
    ensures UniqueIds(users) ==> NoDup(Fetched(ids, users)) && |Fetched(ids, users)| <= |ids|
  {
    if UniqueIds(users) && users != [] {
      var init, last := users[..|users| - 1], users[|users| - 1];
      assert forall k :: 0 <= k < |init| ==> init[k] == users[k];
      FetchedBound(ids, init);
      assert !Stored(init, last.id);
      var r := Fetched(ids, users);
      assert NoDup(r);
      forall i | 0 <= i < |r| ensures r[i] in Elems(ids) {
        assert r[i] in r;
      }
      NoDupBoundedBySet(r, Elems(ids));
      ElemsBound(ids);
    }
  }

  /** The reply of `/matches` for `caller`, whose interest ids are `mine`, over the
      `user_interests` rows `rows` and the `users` rows `users`. The users of the top ten
      are fetched in table order, scored, and stably sorted by score, so users of equal score
      stay in table order. */
  function MatchList(caller: UserId, mine: seq<InterestId>, rows: seq<InterestRow>, users: seq<User>): (r: MatchesReply)
    ensures r.AddInterestsFirst? <==> |mine| == 0
    ensures r.Matches? && UniqueIds(users) ==> |r.matches| <= 10
  {
    if |mine| == 0 then AddInterestsFirst
    else
      var m := Matching(caller, mine, rows);
      var found := Fetched(Top(m), users);
      TopSize(m);
      FetchedBound(Top(m), users);
      Matches(Items(SortDesc(ScoredMatches(found, m, |mine|))))
  }

  /** The users that survive the fetch: other existing users among the top ten that share at
      least one interest with the caller. */
  lemma FoundFacts(caller: UserId, mine: seq<InterestId>, rows: seq<InterestRow>, users: seq<User>, u: UserId)
    requires u in Fetched(Top(Matching(caller, mine, rows)), users)
    ensures var m := Matching(caller, mine, rows);
            u != caller && u in Top(m) && Stored(users, u) && Overlap(m, u) >= 1
  {
    var m := Matching(caller, mine, rows);
    assert u in Top(m) && Stored(users, u);
    TopSize(m);
    var k :| 0 <= k < |Top(m)| && Top(m)[k] == u;
    assert u in Candidates(m);
    var o := Owners(m);
    assert u in o;
    var j :| 0 <= j < |o| && o[j] == u;
    assert m[j].ownerId == u && m[j].ownerId != caller;
    assert m[j].interestId in InterestsOf(m, u);
  }

  /** A sorted entry holds a fetched user, scored against `n` interests, keyed by that score. */
  predicate ScoredAs(k: Keyed<Match>, found: seq<UserId>, m: seq<InterestRow>, n: nat)
    requires n > 0
  {
    && k.item.userId in found
    && k.item.matchScore == Percent(Overlap(m, k.item.userId), n)
    && k.major == k.item.matchScore
  }

  /** Every entry of the sorted scored list is scored as its user's overlap demands. */
  lemma SortedScored(found: seq<UserId>, m: seq<InterestRow>, n: nat)
    requires n > 0
    ensures forall i :: 0 <= i < |SortDesc(ScoredMatches(found, m, n))| ==> ScoredAs(SortDesc(ScoredMatches(found, m, n))[i], found, m, n)
  {
    var s := ScoredMatches(found, m, n);
    forall i | 0 <= i < |s| ensures ScoredAs(s[i], found, m, n) {
      assert s[i].item.userId == found[i];
    }
    SortDescKeeps(s, (k: Keyed<Match>) => ScoredAs(k, found, m, n));
  }

  /** One match: another existing user among the top ten, sharing at least one interest,
      scored against the caller's interests, and scored no higher than any match before it. */
  lemma MatchAt(caller: UserId, mine: seq<InterestId>, rows: seq<InterestRow>, users: seq<User>, i: nat)
    requires |mine| > 0 && i < |MatchList(caller, mine, rows, users).matches|
    ensures var ms := MatchList(caller, mine, rows, users).matches;
            var m := Matching(caller, mine, rows);
            && ms[i].userId != caller
            && ms[i].userId in Top(m)
            && Stored(users, ms[i].userId)
            && Overlap(m, ms[i].userId) >= 1
            && ms[i].matchScore == Percent(Overlap(m, ms[i].userId), |mine|)
            && forall j :: 0 <= j < i ==> ms[j].matchScore >= ms[i].matchScore
  {
    var m := Matching(caller, mine, rows);
    var found := Fetched(Top(m), users);
    var r := SortDesc(ScoredMatches(found, m, |mine|));
    SortedScored(found, m, |mine|);
    assert ScoredAs(r[i], found, m, |mine|);
    FoundFacts(caller, mine, rows, users, r[i].item.userId);
    forall j | 0 <= j < i ensures r[j].item.matchScore >= r[i].item.matchScore {
      assert ScoredAs(r[j], found, m, |mine|);
    }
  }

  /** Every match is another existing user among the top ten, shares at least one interest,
      and is scored `round(100 · overlap / |mine|)`; the list is non-increasing in score. */
  lemma MatchListFacts(caller: UserId, mine: seq<InterestId>, rows: seq<InterestRow>, users: seq<User>)
    requires |mine| > 0
    ensures var ms := MatchList(caller, mine, rows, users).matches;
            var m := Matching(caller, mine, rows);
            && (forall i :: 0 <= i < |ms| ==>
                 && ms[i].userId != caller
                 && ms[i].userId in Top(m)
                 && Stored(users, ms[i].userId)
                 && Overlap(m, ms[i].userId) >= 1
                 && ms[i].matchScore == Percent(Overlap(m, ms[i].userId), |mine|))
            && (forall i, j :: 0 <= i < j < |ms| ==> ms[i].matchScore >= ms[j].matchScore)
  {
    var ms := MatchList(caller, mine, rows, users).matches;
    forall i | 0 <= i < |ms| {
      MatchAt(caller, mine, rows, users, i);
    }
    forall i, j | 0 <= i < j < |ms| ensures ms[i].matchScore >= ms[j].matchScore {
      MatchAt(caller, mine, rows, users, j);
    }
  }

  /** Ties keep table order: the matches of any one score are the fetched users of that
      score, in the order the `users` query returned them. */
  lemma MatchListTies(caller: UserId, mine: seq<InterestId>, rows: seq<InterestRow>, users: seq<User>, score: int)
    requires |mine| > 0
    ensures var m := Matching(caller, mine, rows);
            var scored := ScoredMatches(Fetched(Top(m), users), m, |mine|);
            && MatchList(caller, mine, rows, users).matches == Items(SortDesc(scored))
            && WithKey(SortDesc(scored), score, 0) == WithKey(scored, score, 0)
  {
    var m := Matching(caller, mine, rows);
    SortStable(ScoredMatches(Fetched(Top(m), users), m, |mine|), score, 0);
  }

  /** With distinct interest rows no score exceeds 100. */
  lemma MatchListAtMostHundred(caller: UserId, mine: seq<InterestId>, rows: seq<InterestRow>, users: seq<User>)
    requires |mine| > 0 && NoDup(rows)
    ensures forall i :: 0 <= i < |MatchList(caller, mine, rows, users).matches| ==>
              MatchList(caller, mine, rows, users).matches[i].matchScore <= 100
  {
    var ms := MatchList(caller, mine, rows, users).matches;
    var m := Matching(caller, mine, rows);
    MatchListFacts(caller, mine, rows, users);
    forall i | 0 <= i < |ms| ensures ms[i].matchScore <= 100 {
      OverlapAtMost(caller, mine, rows, ms[i].userId);
      PercentAtMostHundred(Overlap(m, ms[i].userId), |mine|);
    }
  }

  /** With distinct interest rows a user shares at most as many interests as the caller has. */
  lemma OverlapAtMost(caller: UserId, mine: seq<InterestId>, rows: seq<InterestRow>, u: UserId)
    requires NoDup(rows)
    ensures Overlap(Matching(caller, mine, rows), u) <= |mine|
  {
    var m := Matching(caller, mine, rows);
    FilterNoDup(rows, (r: InterestRow) => r.interestId in mine && r.ownerId != caller);
    InterestsOfNoDup(m, u);
    var xs := InterestsOf(m, u);
    forall i | 0 <= i < |xs| ensures xs[i] in Elems(mine) {
      var k :| 0 <= k < |m| && m[k] == InterestRow(u, xs[i]);
    }
    NoDupBoundedBySet(xs, Elems(mine));
    ElemsBound(mine);
  }

  /** Each user of `counts` is mapped to its number of rows in `m`. */
  ghost predicate Counted(m: seq<InterestRow>, counts: map<UserId, nat>) {
    forall u :: u in counts ==> counts[u] == Overlap(m, u)
  }

  /** Row `i` of a user already counted adds one to that user's count. */
  lemma CountSeen(m: seq<InterestRow>, i: nat, counts: map<UserId, nat>)
    requires i < |m| && Counted(m[..i], counts) && m[i].ownerId in counts
    ensures Counted(m[..i + 1], counts[m[i].ownerId := counts[m[i].ownerId] + 1])
  {
    var after := counts[m[i].ownerId := counts[m[i].ownerId] + 1];
    forall v | v in after ensures after[v] == Overlap(m[..i + 1], v) {
      OverlapStep(m, i, v);
    }
  }

  /** Row `i` of a user with no earlier rows starts that user's count at one. */
  lemma CountNew(m: seq<InterestRow>, i: nat, counts: map<UserId, nat>)
    requires i < |m| && Counted(m[..i], counts) && Overlap(m[..i], m[i].ownerId) == 0
    ensures Counted(m[..i + 1], counts[m[i].ownerId := 0][m[i].ownerId := 1])
  {
    var after := counts[m[i].ownerId := 0][m[i].ownerId := 1];
    forall v | v in after ensures after[v] == Overlap(m[..i + 1], v) {
      OverlapStep(m, i, v);
    }
  }

  /** Counting again a user already in the map leaves its keys as they were. */
  lemma KeysSeen(order: seq<UserId>, counts: map<UserId, nat>, u: UserId, k: nat)
    requires (forall v :: v in counts <==> v in order) && u in counts
    ensures forall v :: v in counts[u := k] <==> v in order
  {
  }

  /** Adding a new user to the map and to the order keeps them in step. */
  lemma KeysNew(order: seq<UserId>, counts: map<UserId, nat>, u: UserId)
    requires forall v :: v in counts <==> v in order
    ensures forall v :: v in counts[u := 0][u := 1] <==> v in order + [u]
  {
    forall v ensures v in counts[u := 0][u := 1] <==> v in order + [u] {
      assert v in order + [u] <==> v in order || v == u;
    }
  }

  /** The `forEach` that fills `userMatchScores`: one pass over the matching rows, adding a
      key the first time a user is seen and counting its rows. */
  method Tally(m: seq<InterestRow>) returns (order: seq<UserId>, counts: map<UserId, nat>)
    ensures order == Candidates(m)
    ensures forall u :: u in counts <==> u in order
    ensures forall u :: u in counts ==> counts[u] == Overlap(m, u)
  {
    order, counts := [], map[];
    for i := 0 to |m|
      invariant order == Candidates(m[..i])
      invariant forall u :: u in counts <==> u in order
      invariant Counted(m[..i], counts)
    {
      var u := m[i].ownerId;
      CandidatesStep(m, i);
      if u in counts {
        CountSeen(m, i, counts);
        KeysSeen(order, counts, u, counts[u] + 1);
      } else {
        NotCandidateNoOverlap(m[..i], u);
        CountNew(m, i, counts);
        KeysNew(order, counts, u);
        counts := counts[u := 0];
        order := order + [u];
      }
      counts := counts[u := counts[u] + 1];
    }
    assert m[..|m|] == m;
  }

  /** The `/matches` handler. */
  method FindMatches(caller: UserId, mine: seq<InterestId>, rows: seq<InterestRow>, users: seq<User>)
    returns (r: MatchesReply)
    ensures r == MatchList(caller, mine, rows, users)
  {
    if |mine| == 0 {
      return AddInterestsFirst;
    }
    var m := Matching(caller, mine, rows);
    var order, counts := Tally(m);
    var entries := seq(|order|, i requires 0 <= i < |order| => Keyed(order[i], counts[order[i]], 0));
    assert entries == Scored(Candidates(m), m);
    var top := Items(Take(SortDesc(entries), 10));
    var found := Fetched(top, users);
    var scored := ScoredMatches(found, m, |mine|);
    r := Matches(Items(SortDesc(scored)));
  }

  // ---------------------------------------------------------------------------------------
  // /recommendations

  function ByMemberCount(cs: seq<Community>): (r: seq<Keyed<Community>>)
    ensures |r| == |cs|
    ensures forall i :: 0 <= i < |cs| ==> r[i] == Keyed(cs[i], cs[i].memberCount, 0)
  {
    seq(|cs|, i requires 0 <= i < |cs| => Keyed(cs[i], cs[i].memberCount, 0))
  }

  /** The public communities the caller has not joined, in table order. */
  function Open(me: UserId, communities: seq<Community>, members: map<(CommunityId, UserId), string>): seq<Community> {
    Filter(communities, (c: Community) => !c.isPrivate && (c.id, me) !in members)
  }

  /** `cs` by member count, largest first; the sort is stable. */
  function MostMembers(cs: seq<Community>): (r: seq<Community>)
    ensures |r| == |cs|
  {
    Items(SortDesc(ByMemberCount(cs)))
  }

  /** The ten largest of `open` by member count. */
  function Largest(open: seq<Community>): (r: seq<Community>)
    ensures |r| <= 10
  {
    Items(Take(SortDesc(ByMemberCount(open)), 10))
  }

  /** The communities the query returns: public, not joined by the caller, ordered by
      member_count descending, at most ten. */
  function Pool(me: UserId, communities: seq<Community>, members: map<(CommunityId, UserId), string>): seq<Community> {
    Largest(Open(me, communities, members))
  }

  /** An entry of the pool's sort: an open community keyed by its member count. */
  predicate KeyedByMembers(k: Keyed<Community>, open: seq<Community>) {
    k.item in open && k.major == k.item.memberCount
  }

  /** Ordering by member count reorders `cs`, keeping every community as often as it occurs,
      and puts them largest first. */
  lemma MostMembersFacts(cs: seq<Community>)
    ensures forall i :: 0 <= i < |MostMembers(cs)| ==> MostMembers(cs)[i] in cs
    ensures forall a, b :: 0 <= a < b < |MostMembers(cs)| ==> MostMembers(cs)[a].memberCount >= MostMembers(cs)[b].memberCount
    ensures multiset(MostMembers(cs)) == multiset(cs)
  {
    var s := ByMemberCount(cs);
    SortDescPermutes(s, cs);
    var r := SortDesc(s);
    var o := MostMembers(cs);
    forall k | 0 <= k < |s| ensures KeyedByMembers(s[k], cs) {
      assert s[k].item == cs[k];
    }
    SortDescKeeps(s, (k: Keyed<Community>) => KeyedByMembers(k, cs));
    forall i | 0 <= i < |o| ensures o[i] in cs {
      assert o[i] == r[i].item && KeyedByMembers(r[i], cs);
    }
    forall a, b | 0 <= a < b < |o| ensures o[a].memberCount >= o[b].memberCount {
      assert o[a] == r[a].item && KeyedByMembers(r[a], cs);
      assert o[b] == r[b].item && KeyedByMembers(r[b], cs);
      assert Ahead(r[a], r[b]);
    }
  }

  /** The ten largest are ten communities of `open`, or all of them when there are fewer,
      and a community of `open` left out has no more members than any kept. */
  lemma LargestFacts(open: seq<Community>)
    ensures |Largest(open)| == if |open| < 10 then |open| else 10
    ensures forall i :: 0 <= i < |Largest(open)| ==> Largest(open)[i] in open
    ensures forall c, i :: c in open && c !in Largest(open) && 0 <= i < |Largest(open)| ==>
              Largest(open)[i].memberCount >= c.memberCount
  {
    var s := ByMemberCount(open);
    var r := SortDesc(s);
    var p := Largest(open);
    forall k | 0 <= k < |s| ensures KeyedByMembers(s[k], open) {
      assert s[k].item == open[k];
    }
    SortDescKeeps(s, (k: Keyed<Community>) => KeyedByMembers(k, open));
    forall i | 0 <= i < |p| ensures p[i] in open {
      assert p[i] == r[i].item && KeyedByMembers(r[i], open);
    }
    forall c, i | c in open && c !in p && 0 <= i < |p| ensures p[i].memberCount >= c.memberCount {
      var j :| 0 <= j < |open| && open[j] == c;
      SortDescTop(s, 10, s[j]);
      assert p[i] == r[i].item && KeyedByMembers(r[i], open);
    }
  }

  /** The pool holds only public communities the caller has not joined; it holds ten of
      them, or all when fewer are open, and no community left out has more members than one kept. */
  lemma PoolFacts(me: UserId, communities: seq<Community>, members: map<(CommunityId, UserId), string>)
    ensures var p := Pool(me, communities, members);
            && |p| == (if |Open(me, communities, members)| < 10 then |Open(me, communities, members)| else 10)
            && (forall i :: 0 <= i < |p| ==> p[i] in communities && !p[i].isPrivate && (p[i].id, me) !in members)
            && (forall c, i :: c in communities && !c.isPrivate && (c.id, me) !in members && c !in p && 0 <= i < |p| ==>
                  p[i].memberCount >= c.memberCount)
  {
    var open := Open(me, communities, members);
    LargestFacts(open);
  }

  datatype Recommendation = Recommendation(communityId: CommunityId, memberCount: int, matchScore: nat)

  /** The score of one community: the share of the caller's interests among the community's
      interests, or 0 for everyone when the caller has none. */
  function CommunityScore(mine: seq<InterestId>, links: seq<InterestRow>, c: CommunityId): nat {
    if |mine| > 0 then Percent(|Filter(InterestsOf(links, c), (x: InterestId) => x in mine)|, |mine|) else 0
  }

  function ScoredPool(pool: seq<Community>, mine: seq<InterestId>, links: seq<InterestRow>): (r: seq<Keyed<Recommendation>>)
    ensures |r| == |pool|
    ensures forall i :: 0 <= i < |pool| ==>
              r[i] == Keyed(Recommendation(pool[i].id, pool[i].memberCount, CommunityScore(mine, links, pool[i].id)),
                            CommunityScore(mine, links, pool[i].id), 0)
  {
    seq(|pool|, i requires 0 <= i < |pool| =>
      var s := CommunityScore(mine, links, pool[i].id);
      Keyed(Recommendation(pool[i].id, pool[i].memberCount, s), s, 0))
  }

  /** `pool`, scored, stably sorted by score. */
  function Ranked(pool: seq<Community>, mine: seq<InterestId>, links: seq<InterestRow>): (r: seq<Recommendation>)
    ensures |r| == |pool|
  {
    Items(SortDesc(ScoredPool(pool, mine, links)))
  }

  /** The reply of `/recommendations`: the pool, scored, stably sorted by score. */
  function Recommendations(me: UserId, mine: seq<InterestId>, communities: seq<Community>,
                           members: map<(CommunityId, UserId), string>, links: seq<InterestRow>): (r: seq<Recommendation>)
    ensures |r| == |Pool(me, communities, members)|
    ensures multiset(r) == multiset(Items(ScoredPool(Pool(me, communities, members), mine, links)))
  {
    var scored := ScoredPool(Pool(me, communities, members), mine, links);
    SortDescPermutes(scored, Items(scored));
    Ranked(Pool(me, communities, members), mine, links)
  }

  /** A sorted entry holds a pooled community with its own score, keyed by that score. */
  predicate Recommended(k: Keyed<Recommendation>, pool: seq<Community>, mine: seq<InterestId>, links: seq<InterestRow>) {
    && (exists c :: c in pool && c.id == k.item.communityId && c.memberCount == k.item.memberCount)
    && k.item.matchScore == CommunityScore(mine, links, k.item.communityId)
    && k.major == k.item.matchScore
  }

  /** One recommendation: a pooled community with its own score, scored no higher than any
      recommendation before it. */
  lemma RecommendationAt(pool: seq<Community>, mine: seq<InterestId>, links: seq<InterestRow>, i: nat)
    requires i < |pool|
    ensures var r := Ranked(pool, mine, links);
            && (exists c :: c in pool && c.id == r[i].communityId && c.memberCount == r[i].memberCount)
            && r[i].matchScore == CommunityScore(mine, links, r[i].communityId)
            && (|mine| == 0 ==> r[i].matchScore == 0)
            && forall j :: 0 <= j < i ==> r[j].matchScore >= r[i].matchScore
  {
    var s := ScoredPool(pool, mine, links);
    var sorted := SortDesc(s);
    forall k | 0 <= k < |s| ensures Recommended(s[k], pool, mine, links) {
      assert pool[k] in pool;
    }
    SortDescKeeps(s, (k: Keyed<Recommendation>) => Recommended(k, pool, mine, links));
    assert Recommended(sorted[i], pool, mine, links);
    forall j | 0 <= j < i ensures sorted[j].item.matchScore >= sorted[i].item.matchScore {
      assert Recommended(sorted[j], pool, mine, links);
    }
  }

  /** The facts below, for any pool. */
  lemma RankedPoolFacts(pool: seq<Community>, mine: seq<InterestId>, links: seq<InterestRow>)
    ensures var r := Ranked(pool, mine, links);
            && (forall i :: 0 <= i < |r| ==>
                 && (exists c :: c in pool && c.id == r[i].communityId && c.memberCount == r[i].memberCount)
                 && r[i].matchScore == CommunityScore(mine, links, r[i].communityId))
            && (forall i, j :: 0 <= i < j < |r| ==> r[i].matchScore >= r[j].matchScore)
            && (|mine| == 0 ==> forall i :: 0 <= i < |r| ==> r[i].matchScore == 0)
  {
    var r := Ranked(pool, mine, links);
    forall i | 0 <= i < |r|
      ensures && (exists c :: c in pool && c.id == r[i].communityId && c.memberCount == r[i].memberCount)
              && r[i].matchScore == CommunityScore(mine, links, r[i].communityId)
              && (|mine| == 0 ==> r[i].matchScore == 0)
    {
      RecommendationAt(pool, mine, links, i);
    }
    forall i, j | 0 <= i < j < |r| ensures r[i].matchScore >= r[j].matchScore {
      RecommendationAt(pool, mine, links, j);
    }
  }

  /** Every recommendation is a pooled community with its own score; the list is
      non-increasing in score; without interests every score is 0 and nothing is dropped. */
  lemma RecommendationsFacts(me: UserId, mine: seq<InterestId>, communities: seq<Community>,
                             members: map<(CommunityId, UserId), string>, links: seq<InterestRow>)
    ensures var r := Recommendations(me, mine, communities, members, links);
            var pool := Pool(me, communities, members);
            && |r| <= 10
            && (forall i :: 0 <= i < |r| ==>
                 && (exists c :: c in pool && c.id == r[i].communityId && c.memberCount == r[i].memberCount)
                 && r[i].matchScore == CommunityScore(mine, links, r[i].communityId))
            && (forall i, j :: 0 <= i < j < |r| ==> r[i].matchScore >= r[j].matchScore)
            && (|mine| == 0 ==> forall i :: 0 <= i < |r| ==> r[i].matchScore == 0)
  {
    var pool := Pool(me, communities, members);
    assert Recommendations(me, mine, communities, members, links) == Ranked(pool, mine, links);
    assert |pool| <= 10;
    RankedPoolFacts(pool, mine, links);
  }

  /** The recommendations are the scored pool reordered: each pooled community's entry occurs
      exactly as often as in the pool, and entries of equal score keep the pool's order. */
  lemma RecommendationsOrder(me: UserId, mine: seq<InterestId>, communities: seq<Community>,
                             members: map<(CommunityId, UserId), string>, links: seq<InterestRow>)
    ensures var scored := ScoredPool(Pool(me, communities, members), mine, links);
            && multiset(Recommendations(me, mine, communities, members, links)) == multiset(Items(scored))
            && forall score :: WithKey(SortDesc(scored), score, 0) == WithKey(scored, score, 0)
  {
    var pool := Pool(me, communities, members);
    var scored := ScoredPool(pool, mine, links);
    SortDescPermutes(scored, Items(scored));
    assert Recommendations(me, mine, communities, members, links) == Items(SortDesc(scored));
    forall score ensures WithKey(SortDesc(scored), score, 0) == WithKey(scored, score, 0) {
      SortStable(scored, score, 0);
    }
  }

  /** Recommendations exclude private communities and communities the caller belongs to. */
  lemma RecommendationsExclude(me: UserId, mine: seq<InterestId>, communities: seq<Community>,
                               members: map<(CommunityId, UserId), string>, links: seq<InterestRow>)
    ensures var r := Recommendations(me, mine, communities, members, links);
            forall i :: 0 <= i < |r| ==>
              exists c :: c in communities && c.id == r[i].communityId && !c.isPrivate && (c.id, me) !in members
  {
    var r := Recommendations(me, mine, communities, members, links);
    var pool := Pool(me, communities, members);
    RecommendationsFacts(me, mine, communities, members, links);
    PoolFacts(me, communities, members);
    forall i | 0 <= i < |r|
      ensures exists c :: c in communities && c.id == r[i].communityId && !c.isPrivate && (c.id, me) !in members
    {
      var c :| c in pool && c.id == r[i].communityId && c.memberCount == r[i].memberCount;
      var j :| 0 <= j < |pool| && pool[j] == c;
    }
  }

  /** With distinct community-interest rows no score exceeds 100. */
  lemma CommunityScoreAtMostHundred(mine: seq<InterestId>, links: seq<InterestRow>, c: CommunityId)
    requires NoDup(links)
    ensures CommunityScore(mine, links, c) <= 100
  {
    if |mine| > 0 {
      var xs := InterestsOf(links, c);
      InterestsOfNoDup(links, c);
      var hits := Filter(xs, (x: InterestId) => x in mine);
      FilterNoDup(xs, (x: InterestId) => x in mine);
      NoDupBoundedBySet(hits, Elems(mine));
      ElemsBound(mine);
      PercentAtMostHundred(|hits|, |mine|);
    }
  }
}
