# InterestConnect core, modelled in Dafny

InterestConnect is a social platform for finding people and communities with shared
interests. Its Express backend keeps users, communities, friendships, messages, posts and
events in Supabase tables, pushes chat and presence events over Socket.IO, and its React
client keeps chat and notification state in two zustand stores. This project models the
decision logic of that system and proves what it promises:

- **Hub** (`server.js`): the Socket.IO handshake, the registry of online users
  (`activeUsers`, `userSockets`), rooms, and the events each handler emits. It is a class
  whose outbox records every emitted event with the sockets it reaches.
- **Ranking**: the interest-overlap scores of `/users/matches` and
  `/communities/recommendations`. This covers the per-user tally loop, the top ten, and the
  0–100 score as exact round-half-up integer arithmetic.
- **Users, Communities, Friends, Messages, Posts, Events**: each REST handler is a method on an
  in-memory `Database` (one field per table). The guard chain comes first, in the source's
  order, then the write. Pure response shaping is written as functions.
- **Accounts** and **Middleware** (`routes/auth.js`, `middleware/auth.js`): registration,
  login, and the verification and reset tokens with their expiry and single use. Also the
  bearer-header parsing and error mapping. JWT, bcrypt, uuid and the clock are parameters.
- **Chat** and **Notifications**: the two client stores as classes. Their unread counters are
  related to the lists by proved lemmas.

Shared modules:

- `Common`: options and replies.
- `Text`: trim, lower-case, split, prefix.
- `Seqs`: filter, distinct, take, reverse.
- `Paging`: offset, range, page count.
- `Sorting`: one stable descending insertion sort, with proofs of sortedness, permutation and
  stability. It stands for `Array.prototype.sort` and for `.order(...)`; for `.order(...)` the
  model fixes the tie-break to storage order, which PostgreSQL leaves unspecified.
- `Db`: the tables, and `.single()`.

Timestamps are integers (milliseconds). A query result is a filter over a table, taken in
storage order; where the query has an `.order(...)`, rows with equal keys keep that storage
order in the model. A Supabase insert that would repeat a key fails.

## Model

| member | source | states |
|---|---|---|
| Hub.Authorize | interest-connect-full/backend/server.js:140-166 | Refuses a missing token ('Authentication required'), any token the verifier rejects ('Invalid token'), and an id naming no single user ('User not found'); otherwise the socket carries that user's id, name and picture |
| Hub.PresenceHub.Members | interest-connect-full/backend/server.js:261 | A room's sockets are exactly those that joined it; under the invariant, all are connected |
| Hub.PresenceHub.constructor | interest-connect-full/backend/server.js:137-138 | Empty registry, no sockets or rooms, nothing emitted; the invariant holds |
| Hub.PresenceHub.Connect | interest-connect-full/backend/server.js:168-188 | A refused handshake changes nothing. Otherwise: the user's entries now point to the new socket (last connection wins), which joins the user's own room; `user_online` goes to every connected socket, the new one included; then `online_users`, which already lists the new socket. Keeps the registry invariant |
| Hub.PresenceHub.JoinCommunity | interest-connect-full/backend/server.js:190-193 | Adds the socket to `community_<id>` with no membership check |
| Hub.DirectDeliveries | interest-connect-full/backend/server.js:230-258 | A direct message emits `message_sent` to the sender first. Only when the receiver has a registered socket, two more events go to that socket alone: `new_message` with isFromMe false, then `new_notification` of type `new_message` with the sender and the first 50 characters as preview |
| Hub.PresenceHub.LeaveCommunity | interest-connect-full/backend/server.js:195-198 | Removes the socket from `community_<id>` only |
| Hub.PresenceHub.SendMessage | interest-connect-full/backend/server.js:200-270 | A failed insert emits only `message_error` to the sender and writes nothing. Otherwise the sender gets `message_sent`. `new_message` and `new_notification` (50-character preview) reach the receiver's registered socket, or are dropped without one; the notification row is stored either way. `community_message` reaches the whole room, and both branches run when both ids are set. Every event goes to connected sockets |
| Hub.PresenceHub.Typing | interest-connect-full/backend/server.js:272-294 | Direct typing reaches only a registered receiver; community typing reaches the room minus the typing socket |
| Hub.PresenceHub.MarkRead | interest-connect-full/backend/server.js:296-317 | Marks only rows whose receiver is the reader; `message_read` goes to the sender's registered socket whenever the message exists |
| Hub.PresenceHub.Disconnect | interest-connect-full/backend/server.js:319-331 | Deletes the registry entries by user id, whichever socket they point to; the socket leaves its rooms; `user_offline` goes to every remaining socket, unconditionally |
| Hub.StaleDisconnect | interest-connect-full/backend/server.js:322-323 | One user connects twice, then the older socket closes: the newer socket is still connected, but the user is gone from the registry |
| Middleware.BearerToken | interest-connect-full/backend/middleware/auth.js:6-12 | A token exists iff the header starts with "Bearer "; it is the header after its first seven characters |
| Middleware.TokenError | interest-connect-full/backend/middleware/auth.js:33-42 | A malformed token gives 401 'Invalid token', an expired one 401 'Token expired', anything else 500 |
| Middleware.Authenticate | interest-connect-full/backend/middleware/auth.js:4-43 | No bearer header gives 401 with no lookup and no write; a verifier failure gives its mapped error; an id with no user gives 401. Success sets `req.user` to the selected columns and marks exactly that user online and active |
| Middleware.OptionalAuth | interest-connect-full/backend/middleware/auth.js:45-69 | Never rejects; sets the user iff the header is a bearer token that decodes to an existing user |
| Accounts.ByEmail | interest-connect-full/backend/routes/auth.js:30-34 | The lookup compares with the lower-cased address |
| Accounts.FindByEmail | interest-connect-full/backend/routes/auth.js:130-134 | With unique e-mails, a stored address is found under any letter case of it |
| Accounts.AgeOrNull | interest-connect-full/backend/routes/auth.js:55 | `age \|\| null`: an age of 0 is stored as null, any other age as given |
| Text.RemoveSpaces | interest-connect-full/backend/routes/auth.js:46 | `replace(/\s+/g, '')`: exactly the non-space characters of the input, in order (the filter of `NotSpace`) |
| Accounts.Avatar | interest-connect-full/backend/routes/auth.js:46-47 | The default picture is the avatar URL followed by exactly the non-space characters of the name, in order |
| Accounts.Register | interest-connect-full/backend/routes/auth.js:16-116 | A held address (compared lower-cased) gives 400; a repeated key gives 500. Success stores the lower-cased e-mail, the hash, user type defaulting to 'student', and a token expiring 24 h later; links the named interests; replies not verified. Success iff no row holds the id or address. E-mail uniqueness is preserved, and the new row is then found by its address |
| Accounts.AppendedFound | interest-connect-full/backend/routes/auth.js:16-116 | Appending a row with an address no row holds keeps addresses unique, and the lookup then finds the new row |
| Accounts.Login | interest-connect-full/backend/routes/auth.js:118-192 | Unknown address and wrong password both give 400 'Invalid email or password'; a hashless account gets the Google message; success marks that user online and changes nothing else |
| Accounts.VerifyEmail | interest-connect-full/backend/routes/auth.js:194-233 | Unknown token gives 400, expired (missing expiry reads as 0) gives 400; otherwise the holder becomes verified and, after success, no row holds the token (single use) |
| Accounts.SelectedEmailVerified | interest-connect-full/backend/routes/auth.js:239 | `req.user.email_verified` is always undefined (None), because the middleware does not select that column |
| Accounts.ResendAsWritten | interest-connect-full/backend/routes/auth.js:235-268 | Resend-verification as written: the guard reads the unselected property, so the handler always reissues |
| Accounts.ResendAsWrittenReissues | interest-connect-full/backend/routes/auth.js:239-258 | A user already verified still gets a new token and the 'email sent' reply |
| Accounts.Resend | interest-connect-full/backend/routes/auth.js:239-262 | Intended resend-verification: a verified user gets 400 and nothing changes; an unverified one gets a new token expiring 24 h later; other users' rows are untouched |
| Accounts.ResendRefusesVerified | interest-connect-full/backend/routes/auth.js:239-241 | The intended guard refuses a verified user, so it differs from the as-written handler |
| Accounts.ResendVerification | interest-connect-full/backend/routes/auth.js:235-268 | The handler's reply and new users table are those of the intended resend |
| Accounts.ForgotPassword | interest-connect-full/backend/routes/auth.js:270-314 | The same reply whatever the address. No change for an unknown address or a Google-only account; otherwise a reset token expiring 1 h later |
| Accounts.ResetTokenUsable | interest-connect-full/backend/routes/auth.js:297-306 | With user ids unique and the token held by no row, the reset lookup `.single()` finds exactly the updated row, and its token does not expire for one hour |
| Accounts.ResetPassword | interest-connect-full/backend/routes/auth.js:316-360 | Unknown token gives 400, expired gives 400; otherwise stores the new hash, and afterwards no row holds the token |
| Users.ProfileView | interest-connect-full/backend/routes/users.js:37-56 | E-mail, age and location appear iff the profile is one's own or its privacy flag is set (missing settings hide them); every other field is always returned |
| Users.GetProfile | interest-connect-full/backend/routes/users.js:7-64 | 404 iff no single user has the id; otherwise the masked profile |
| Users.Term | interest-connect-full/backend/routes/users.js:215 | A query term is the trimmed piece with each character lower-cased; so no white space at either end and no upper-case letter |
| Users.SearchTerms | interest-connect-full/backend/routes/users.js:215 | One term per comma-separated piece; no term contains a comma |
| Users.InterestFilter | interest-connect-full/backend/routes/users.js:213-219 | Without the parameter, all rows. With it, exactly the rows having a lower-cased interest among the terms |
| Users.InterestFilterKeepsOrder | interest-connect-full/backend/routes/users.js:216-218 | The filter preserves order: filtering a concatenation concatenates the filtered parts |
| Users.Search | interest-connect-full/backend/routes/users.js:171-232 | The reply is the interest filter applied to the fetched page, so `total` and `totalPages` count unfiltered rows; without `interests` it is the page itself |
| Users.GroupByCategory | interest-connect-full/backend/routes/users.js:312-317 | The groups are exactly the categories present ('other' when missing); each lists its interests in input order |
| Users.GroupPlacesEach | interest-connect-full/backend/routes/users.js:313-315 | Every interest lies in the group of its own category and in no other |
| Users.InCategoryHas | interest-connect-full/backend/routes/users.js:315 | Every interest is among its category's interests |
| Users.InCategoryOnly | interest-connect-full/backend/routes/users.js:313 | Only interests of a category are in its list |
| Users.Block | interest-connect-full/backend/routes/users.js:327-352 | Blocking oneself gives 400 with no change; otherwise success, and the pair is in the table once however often it is blocked |
| Users.Unblock | interest-connect-full/backend/routes/users.js:354-370 | Removes exactly the caller's block on that user |
| Ranking.Percent | interest-connect-full/backend/routes/users.js:281 | `Math.round(100·k/n)` as the integer nearest to 100·k/n, halves rounded up |
| Ranking.PercentAtMostHundred | interest-connect-full/backend/routes/users.js:281 | The score is at most 100 when k ≤ n |
| Ranking.PercentOfAll | interest-connect-full/backend/routes/users.js:281 | All interests shared gives 100 |
| Ranking.PercentOfNone | interest-connect-full/backend/routes/users.js:281 | None shared gives 0 |
| Ranking.PercentMonotone | interest-connect-full/backend/routes/users.js:281 | More shared interests never lowers the score |
| Ranking.PercentHundredNeedsAll | interest-connect-full/backend/routes/users.js:281 | With fewer than 200 interests, 100 needs all of them shared |
| Ranking.PercentNearlyAll | interest-connect-full/backend/routes/users.js:281 | With 200 interests, 199 shared already rounds to 100 |
| Ranking.InterestsOf | interest-connect-full/backend/routes/users.js:236-241 | The interest ids of one owner's rows, all and only those |
| Ranking.InterestsOfNoDup | interest-connect-full/backend/routes/users.js:241 | Distinct rows give distinct interest ids |
| Ranking.InterestsOfNone | interest-connect-full/backend/routes/communities.js:241 | An owner without rows has no interests |
| Ranking.Matching | interest-connect-full/backend/routes/users.js:247-251 | Exactly the rows of other users whose interest is one of the caller's |
| Ranking.NotCandidateNoOverlap | interest-connect-full/backend/routes/users.js:254-259 | A user missing from the tally has overlap 0 |
| Ranking.OverlapStep | interest-connect-full/backend/routes/users.js:258 | Each row adds one to its owner's count |
| Ranking.CandidatesStep | interest-connect-full/backend/routes/users.js:255-257 | A row adds its owner to the tally the first time it is seen |
| Ranking.Tally | interest-connect-full/backend/routes/users.js:253-259 | The loop yields the candidates in first-seen order, each with its overlap count, and no one else |
| Ranking.TopSize | interest-connect-full/backend/routes/users.js:261-264 | At most ten candidates survive, all from the tally |
| Ranking.TopKeepsLargest | interest-connect-full/backend/routes/users.js:261-263 | A candidate left out has an overlap no larger than any kept one |
| Ranking.MatchList | interest-connect-full/backend/routes/users.js:241-292 | With no interests, the explanatory message and no matches; otherwise, with the users' ids unique, at most ten |
| Ranking.Fetched | interest-connect-full/backend/routes/users.js:270-273 | `.in('id', ids)` yields exactly the asked ids that have a `users` row, in table order |
| Ranking.FetchedBound | interest-connect-full/backend/routes/users.js:270-273 | With the users' ids unique, no id comes back twice and no more come back than were asked for |
| Ranking.MatchListTies | interest-connect-full/backend/routes/users.js:270-290 | The stable sort keeps users of equal score in the order the `users` query returned them |
| Ranking.FoundFacts | interest-connect-full/backend/routes/users.js:270-287 | A fetched user is another user with a row in `users`, among the top ten, who shares at least one interest |
| Ranking.MatchListFacts | interest-connect-full/backend/routes/users.js:275-290 | No match is the caller; every match has a `users` row; scores are `Percent(overlap, \|mine\|)`; the list is non-increasing in score |
| Ranking.MatchListAtMostHundred | interest-connect-full/backend/routes/users.js:281 | With distinct interest rows every score lies in 0..100 |
| Ranking.OverlapAtMost | interest-connect-full/backend/routes/users.js:247-259 | With distinct rows, a user shares at most as many interests as the caller has |
| Ranking.FindMatches | interest-connect-full/backend/routes/users.js:234-298 | The imperative handler computes exactly `MatchList` |
| Ranking.PoolFacts | interest-connect-full/backend/routes/communities.js:215-227 | The pool holds ten communities, or every open one when fewer are open, all public and not joined, and none left out has more members than one kept |
| Ranking.LargestFacts | interest-connect-full/backend/routes/communities.js:222-223 | The ten largest are min(10, n) communities of the input, and none left out has more members than one kept |
| Ranking.Recommendations | interest-connect-full/backend/routes/communities.js:235-262 | One recommendation per pooled community, and the list is a permutation of the scored pool: each pooled community's entry occurs exactly as often as in the pool |
| Ranking.RecommendationsOrder | interest-connect-full/backend/routes/communities.js:235-262 | The recommendations are the scored pool reordered (same multiset), and entries of equal score keep the pool's order (the sort is stable) |
| Ranking.RecommendationsFacts | interest-connect-full/backend/routes/communities.js:241-260 | At most 10 entries, each naming a pooled community; scores are `Percent(matching, \|mine\|)`, or 0 for all when the caller has no interests; the list is non-increasing in score (its permutation and stability are in RecommendationsOrder) |
| Ranking.RecommendationsExclude | interest-connect-full/backend/routes/communities.js:221-226 | No recommendation is private or already joined |
| Ranking.CommunityScoreAtMostHundred | interest-connect-full/backend/routes/communities.js:243-245 | With distinct link rows the score lies in 0..100 |
| Communities.ImageSeed | interest-connect-full/backend/routes/communities.js:20 | The seed is the non-space characters of the name, in order, each lower-cased; so it has no white space and no upper-case letter |
| Communities.ImageSeedPlain | interest-connect-full/backend/routes/communities.js:20 | A name already without white space or capitals is its own seed |
| Communities.InterestsOfAppend | interest-connect-full/backend/routes/communities.js:63 | Appending rows appends their interests |
| Communities.InterestsOfLinks | interest-connect-full/backend/routes/communities.js:58-61 | The inserted link rows give back the ids of the named interests |
| Communities.CreatedInterests | interest-connect-full/backend/routes/communities.js:51-65 | A new community's interests are exactly the catalogue entries named, in catalogue order |
| Communities.Create | interest-connect-full/backend/routes/communities.js:7-82 | A taken id gives 500. Otherwise: defaults max_members 100, is_private false, member_count 1; the creator becomes 'admin'; the named interests are linked |
| Communities.MembershipMap | interest-connect-full/backend/routes/communities.js:119-122 | The loop builds the role map, the last row for a community winning |
| Communities.RoleMapAgrees | interest-connect-full/backend/routes/communities.js:114-122 | Every community in the map has the caller's membership with that role |
| Communities.ListingOf | interest-connect-full/backend/routes/communities.js:141-142 | `isMember` iff a non-empty role exists; `role` is that role, otherwise null |
| Communities.Selected | interest-connect-full/backend/routes/communities.js:93-103 | Exactly the public rows in the category that match the search text, in table order |
| Communities.List | interest-connect-full/backend/routes/communities.js:84-159 | One page at offset (page−1)·limit of the selection, holding min(limit, total − offset) rows when the offset is inside it; `total` counts the whole selection; `totalPages` is the ceiling |
| Communities.ListFacts | interest-connect-full/backend/routes/communities.js:105-106 | Listed communities are selected rows, in non-increasing member count |
| Communities.ListCovers | interest-connect-full/backend/routes/communities.js:93-106 | Every row of the table the query selects is listed on some page |
| Ranking.MostMembersFacts | interest-connect-full/backend/routes/communities.js:105 | Ordering is a permutation of the selection (same rows, same multiplicities), largest member count first |
| Communities.View | interest-connect-full/backend/routes/communities.js:270-340 | Missing gives 404; private and not a member gives 403; otherwise the community with its membership flags |
| Communities.Join | interest-connect-full/backend/routes/communities.js:342-398 | Checks in order: 404 missing, 400 already a member, 400 full, 403 private; only then a 'member' row is inserted and the community's last activity becomes now. Success iff all checks pass |
| Communities.Leave | interest-connect-full/backend/routes/communities.js:400-430 | The creator gets 400; anyone else's row is deleted and leaving succeeds even when not a member |
| Communities.Apply | interest-connect-full/backend/routes/communities.js:484-493 | name, description, category and maxMembers are copied only when truthy; isPrivate whenever defined; nothing else changes |
| Communities.ApplyIdempotent | interest-connect-full/backend/routes/communities.js:484-493 | Applying an update twice is applying it once; the empty update changes nothing |
| Communities.Update | interest-connect-full/backend/routes/communities.js:472-512 | Non-admins get 403 with no change; an admin's update of a missing row gives 500; otherwise the community becomes `Apply` of the patch |
| Communities.Delete | interest-connect-full/backend/routes/communities.js:514-536 | Only the creator deletes; anyone else gets 403 and nothing changes |
| Friends.Between | interest-connect-full/backend/routes/friends.js:94-100 | The row between two users in either direction, when exactly one exists |
| Friends.FriendIds | interest-connect-full/backend/routes/friends.js:8-20 | Exactly the users on the other side of an accepted row with the caller |
| Friends.FriendsSymmetric | interest-connect-full/backend/routes/friends.js:8-20 | a is b's friend iff b is a's friend |
| Friends.FriendList | interest-connect-full/backend/routes/friends.js:6-37 | Exactly the user rows of the caller's friends |
| Friends.Status | interest-connect-full/backend/routes/friends.js:237-262 | No row gives 'none'; a pending row gives 'pending_sent' or 'pending_received'; any other status is passed through |
| Friends.StatusFacts | interest-connect-full/backend/routes/friends.js:241-256 | For well-formed rows: 'pending_sent' iff the caller requested, 'pending_received' iff the other did, 'accepted' iff they are friends |
| Friends.Request | interest-connect-full/backend/routes/friends.js:76-144 | 400 for oneself; 404 for an unknown user; 400 for a row either way. Otherwise a pending row from the caller plus a friend_request notification. Success iff no row exists. Well-formedness is preserved |
| Friends.Accept | interest-connect-full/backend/routes/friends.js:146-191 | Only a pending row from the other user to the caller is accepted (with a notification to the requester); otherwise 404 and no change |
| Friends.Decline | interest-connect-full/backend/routes/friends.js:193-214 | Deletes only a pending row from the other user to the caller; all other rows stay |
| Friends.Remove | interest-connect-full/backend/routes/friends.js:216-235 | Deletes both directions whatever their status; afterwards the status is 'none' |
| Messages.SentTo | interest-connect-full/backend/routes/messages.js:20-22 | Exactly the receivers of the caller's direct messages |
| Messages.ReceivedFrom | interest-connect-full/backend/routes/messages.js:23-25 | Exactly the senders of messages to the caller |
| Messages.PartnersExactly | interest-connect-full/backend/routes/messages.js:20-26 | Partners are listed once each: exactly the users the caller exchanged a direct message with |
| Messages.CollectPartners | interest-connect-full/backend/routes/messages.js:20-26 | The loop filling the Set yields the partners in insertion order |
| Messages.AddAll | interest-connect-full/backend/routes/messages.js:21-25 | Adding ids one by one to a Set gives the distinct ids in first-seen order |
| Messages.NewestFirstFacts | interest-connect-full/backend/routes/messages.js:38-39 | The newest-first order is a non-increasing arrangement of the rows |
| Messages.LatestFacts | interest-connect-full/backend/routes/messages.js:34-41 | A last message exists iff a direct message was exchanged, and none exchanged is newer |
| Messages.NewestFirstHas | interest-connect-full/backend/routes/messages.js:38-39 | Sorting loses no message |
| Messages.NewestHead | interest-connect-full/backend/routes/messages.js:35-40 | `.order(created_at desc).limit(1)` yields a row iff any exists, and no row is newer than it |
| Messages.ConversationWith | interest-connect-full/backend/routes/messages.js:30-49 | A conversation carries the partner, the latest exchanged message and the unread count from that partner |
| Messages.Conversations | interest-connect-full/backend/routes/messages.js:7-73 | As many conversations as partners |
| Messages.LatestFirstFacts | interest-connect-full/backend/routes/messages.js:61-65 | The conversation sort keeps only given conversations, latest last message first |
| Messages.ConversationsFacts | interest-connect-full/backend/routes/messages.js:50-65 | Conversations are in non-increasing last-message time, a missing message counting as time 0 |
| Messages.LatestFirstPermutes | interest-connect-full/backend/routes/messages.js:61-65 | The conversation sort drops and duplicates nothing |
| Messages.ConversationsPerPartner | interest-connect-full/backend/routes/messages.js:15-65 | One conversation per partner: no partner twice, and every partner present |
| Messages.OldestFirstPage | interest-connect-full/backend/routes/messages.js:81-98 | The page is the window of the newest-first list at offset (page−1)·limit, reversed, and holds min(limit, n − offset) messages when the offset is inside the list |
| Messages.OldestFirstPageFacts | interest-connect-full/backend/routes/messages.js:81-98 | The page holds rows of the selection, oldest first |
| Messages.OldestFirstPageCovers | interest-connect-full/backend/routes/messages.js:81-98 | Every message of the selection is on some page |
| Messages.ThreadItems | interest-connect-full/backend/routes/messages.js:99-107 | `isFromMe` iff the sender is the caller |
| Messages.ThreadRows | interest-connect-full/backend/routes/messages.js:81-86 | Exactly the direct messages between the two users |
| Messages.Thread | interest-connect-full/backend/routes/messages.js:75-120 | Total and page count are those of the whole thread; the messages are the items of the thread's page, oldest first |
| Messages.ThreadFacts | interest-connect-full/backend/routes/messages.js:81-107 | The page runs oldest first; every item is a message between the two, with `isFromMe` iff the caller sent it and its read flag |
| Messages.ThreadCovers | interest-connect-full/backend/routes/messages.js:81-107 | Every message between the two users outside a community appears, as its item, on some page |
| Messages.ReadFrom | interest-connect-full/backend/routes/messages.js:100-104 | The partner's messages to the caller become read; all others stay |
| Messages.ReadFromFacts | interest-connect-full/backend/routes/messages.js:100-104 | Afterwards nothing from the partner to the caller is unread, and other messages are unchanged |
| Messages.OpenThread | interest-connect-full/backend/routes/messages.js:75-120 | The reply shows the rows before the read-marking, and the table afterwards is `ReadFrom` |
| Messages.HistoryItems | interest-connect-full/backend/routes/messages.js:150-165 | `isFromMe` iff the sender is the caller |
| Messages.CommunityHistory | interest-connect-full/backend/routes/messages.js:122-179 | 403 iff the caller is not a member; otherwise the items of the page of that community's messages, oldest first, with `total` counting them all |
| Messages.CommunityRows | interest-connect-full/backend/routes/messages.js:139-142 | Exactly the messages posted in the community |
| Messages.HistoryCovers | interest-connect-full/backend/routes/messages.js:122-179 | For a member, every message of the community appears, as its item, on some page |
| Messages.Send | interest-connect-full/backend/routes/messages.js:181-231 | 400 without receiver and community; 403 for a community the caller is not in; otherwise the row is stored with type 'text' by default |
| Messages.ReadOne | interest-connect-full/backend/routes/messages.js:237-241 | Only a message with that id whose receiver is the caller changes, and it becomes read |
| Messages.MarkRead | interest-connect-full/backend/routes/messages.js:233-253 | Always succeeds; the table becomes `ReadOne` |
| Posts.Create | interest-connect-full/backend/routes/posts.js:7-57 | 403 for a non-member; 500 for a taken id; success iff neither. The post is stored unpinned, with a null title and no images by default, and the community's last activity becomes now |
| Posts.FirstCommentsFacts | interest-connect-full/backend/routes/posts.js:107-112 | The first comments are min(5, n) comments of the post, oldest first, and no comment of the post left out is older than one kept |
| Posts.OnPost | interest-connect-full/backend/routes/posts.js:107-110 | Exactly the comments of the post |
| Posts.FirstCommentsKept | interest-connect-full/backend/routes/posts.js:107-112 | The first comments are min(5, n) comments of the post, oldest first |
| Posts.FirstCommentsLeftOut | interest-connect-full/backend/routes/posts.js:110-112 | A comment of the post left out is no older than any kept |
| Posts.FeedItems | interest-connect-full/backend/routes/posts.js:104-131 | `isLiked` iff the caller liked the post, `isAuthor` iff the caller wrote it; each item carries the post's first comments |
| Posts.List | interest-connect-full/backend/routes/posts.js:59-147 | 403 iff the community exists, is private and the caller is not a member; otherwise the feed page |
| Posts.FeedFacts | interest-connect-full/backend/routes/posts.js:84-86 | Pinned posts come first, then newer before older |
| Posts.PinnedFirstFacts | interest-connect-full/backend/routes/posts.js:86-87 | Ordering is a permutation of the selection; a pinned post is never behind an unpinned one, and among equal pinning the newer comes first |
| Posts.FeedPageFacts | interest-connect-full/backend/routes/posts.js:86-88 | Every page of the ordered selection holds posts of the selection, in that same order |
| Posts.Toggle | interest-connect-full/backend/routes/posts.js:212-233 | Liked iff there was no like before; exactly that one pair flips |
| Posts.ToggleTwice | interest-connect-full/backend/routes/posts.js:212-233 | Two toggles restore the likes, with opposite answers |
| Posts.Like | interest-connect-full/backend/routes/posts.js:208-239 | The like table and the answer are those of `Toggle` |
| Posts.DeletePost | interest-connect-full/backend/routes/posts.js:275-310 | 404 for a missing post; deleted iff the caller is its author or an admin of its community; 403 otherwise |
| Posts.DeleteComment | interest-connect-full/backend/routes/posts.js:312-338 | 404 for a missing comment; only its author deletes it; 403 otherwise |
| Events.RowsOf | interest-connect-full/backend/routes/events.js:128-131 | Exactly the participant rows of the event |
| Events.CountAdd | interest-connect-full/backend/routes/events.js:168-170 | A new registration adds one to its event's count and none elsewhere |
| Events.CountRemove | interest-connect-full/backend/routes/events.js:183-185 | A leave lowers the count by one exactly when the caller was registered |
| Events.Create | interest-connect-full/backend/routes/events.js:7-64 | 403 for a non-member; 500 for a taken id. Otherwise defaults duration 60, max 50, offline, null link; the organizer is registered |
| Events.List | interest-connect-full/backend/routes/events.js:66-90 | The events are the page at offset (page−1)·limit of the kept events, earliest first; `total` counts them all |
| Events.Selected | interest-connect-full/backend/routes/events.js:73-77 | Exactly the rows of the table the filters keep |
| Events.ListCovers | interest-connect-full/backend/routes/events.js:66-90 | Every event of the table the filters keep is listed on some page |
| Events.UpcomingFacts | interest-connect-full/backend/routes/events.js:75-79 | The default listing holds only 'upcoming' events dated now or later, in ascending date |
| Events.ByEventDateFacts | interest-connect-full/backend/routes/events.js:79 | Ordering is a permutation of the selection, earliest first |
| Events.PageFacts | interest-connect-full/backend/routes/events.js:79 | Every page of the ordered selection holds events of the selection, earliest first |
| Events.GetDetail | interest-connect-full/backend/routes/events.js:112-143 | 404 for a missing event; `isParticipant` iff the caller has a row; `participantCount` is the number of rows |
| Events.Join | interest-connect-full/backend/routes/events.js:145-177 | Checks in order: 404 missing, 400 registered, 400 full; only then a row is added, and the count stays within the maximum |
| Events.Leave | interest-connect-full/backend/routes/events.js:179-190 | Always succeeds and removes only the caller's row |
| Events.Delete | interest-connect-full/backend/routes/events.js:192-209 | Only the organizer deletes; anyone else gets 403 and nothing changes |
| Paging.Range | interest-connect-full/backend/routes/communities.js:106 | `.range(from, to)` returns the rows at positions from..to, both inclusive |
| Paging.PageRows | interest-connect-full/backend/routes/communities.js:87-106 | The rows from offset (page−1)·limit on, min(limit, n − offset) of them when the offset is inside the list, none otherwise |
| Paging.PageOf | interest-connect-full/backend/routes/communities.js:87-106 | Row k is entry k mod limit of page k div limit + 1 |
| Paging.SomePageHas | interest-connect-full/backend/routes/communities.js:87-106 | Every row is on some page |
| Paging.ReversedPage | interest-connect-full/backend/routes/messages.js:81-98 | A page read backwards holds min(limit, n − offset) rows, the run from the offset in reverse |
| Paging.ReversedPageCovers | interest-connect-full/backend/routes/messages.js:81-98 | Every row is on some page read backwards |
| Paging.PageRowsAsWritten | interest-connect-full/backend/routes/communities.js:106 | With `limit` from the query string, the page is the consecutive rows from the offset to the concatenated range end `RangeEndAsWritten` |
| Paging.TotalPages | interest-connect-full/backend/routes/communities.js:152 | `Math.ceil(count / limit)`: the least page count covering all rows |
| Paging.FirstPageAsIntended | interest-connect-full/backend/routes/communities.js:87-106 | On page 1 the concatenated range end equals the intended one |
| Paging.LaterPagesOverfetch | interest-connect-full/backend/routes/communities.js:87-106 | From page 2 on, the concatenated range end lies at least 9·limit rows past the page, so up to ten times the rows return |
| Paging.OverfetchExample | interest-connect-full/backend/routes/communities.js:106 | Page 2 with limit "5" asks for rows 5 to 54 |
| Sorting.SortDesc | interest-connect-full/backend/routes/users.js:261-262 | The sort is a permutation of its input and is non-increasing |
| Sorting.SortStable | interest-connect-full/backend/routes/users.js:290 | The sort is stable: equal keys keep their relative order |
| Sorting.SortDescTop | interest-connect-full/backend/routes/users.js:263 | An element left out of the first k of the sorted list ranks at or below each kept one |
| Sorting.ItemsPermutation | interest-connect-full/backend/routes/users.js:261-262 | Keyed lists with the same elements carry the same items |
| Sorting.SortDescPermutes | interest-connect-full/backend/routes/users.js:261-262 | The sorted items are the input items, each as often as in the input |
| Db.Single | interest-connect-full/backend/routes/auth.js:130-134 | `.single()` gives a row iff exactly one row matches, and that row is the only match |
| Db.SingleFinds | interest-connect-full/backend/routes/auth.js:198-202 | The only row that matches is what `.single()` returns |
| Db.SingleAt | interest-connect-full/backend/routes/auth.js:328-332 | When `.single()` succeeds, no other position matches |
| Db.UpdateUser | interest-connect-full/backend/middleware/auth.js:26-29 | `.update(...).eq('id', id)` rewrites exactly the rows with that id |
| Db.Named | interest-connect-full/backend/routes/communities.js:52-55 | `.in('name', names)`: exactly the catalogue rows with one of the names |
| Db.Links | interest-connect-full/backend/routes/communities.js:58-61 | One link row from the owner to each interest, in order |
| Chat.ChatStore.constructor | interest-connect-full/frontend/src/stores/chatStore.js:4-9 | Empty lists, sets and maps; counter 0 |
| Chat.ChatStore.SetConversations | interest-connect-full/frontend/src/stores/chatStore.js:11 | Replaces the conversation list |
| Chat.ChatStore.SetCurrentChat | interest-connect-full/frontend/src/stores/chatStore.js:13 | Sets the chat and empties the message list |
| Chat.ChatStore.SetMessages | interest-connect-full/frontend/src/stores/chatStore.js:15 | Replaces the message list |
| Chat.ChatStore.AddMessage | interest-connect-full/frontend/src/stores/chatStore.js:17-19 | Appends at the end; earlier messages are unchanged |
| Chat.Bumped | interest-connect-full/frontend/src/stores/chatStore.js:22-26 | The partner's entries get the new last message and one more unread; others are unchanged |
| Chat.BumpedTotal | interest-connect-full/frontend/src/stores/chatStore.js:21-28 | The total unread grows by the number of the partner's entries |
| Chat.ChatStore.UpdateConversation | interest-connect-full/frontend/src/stores/chatStore.js:21-28 | The list becomes `Bumped` |
| Chat.IdsOf | interest-connect-full/frontend/src/stores/chatStore.js:30 | Exactly the ids of the list |
| Chat.ChatStore.SetOnlineUsers | interest-connect-full/frontend/src/stores/chatStore.js:30 | The online set becomes exactly the ids of the given users |
| Chat.ChatStore.AddOnlineUser | interest-connect-full/frontend/src/stores/chatStore.js:32-36 | Adds only that id; idempotent; the user is then online |
| Chat.ChatStore.RemoveOnlineUser | interest-connect-full/frontend/src/stores/chatStore.js:38-42 | Removes only that id; the user is then offline |
| Chat.ChatStore.SetTyping | interest-connect-full/frontend/src/stores/chatStore.js:44-52 | true records the user with the time; false removes the user; other entries are unchanged |
| Chat.ChatStore.SetUnreadCount | interest-connect-full/frontend/src/stores/chatStore.js:54 | Sets the counter |
| Chat.ChatStore.DecrementUnread | interest-connect-full/frontend/src/stores/chatStore.js:56-58 | One less, never below 0 |
| Chat.ReadFor | interest-connect-full/frontend/src/stores/chatStore.js:61-63 | Zeroes the unread count of the partner's entries only |
| Chat.ReadForTotal | interest-connect-full/frontend/src/stores/chatStore.js:60-64 | Removes exactly the partner's unread from the total and leaves none for the partner |
| Chat.ChatStore.MarkConversationRead | interest-connect-full/frontend/src/stores/chatStore.js:60-64 | The list becomes `ReadFor`, with no unread left for the partner |
| Notifications.FirstWith | interest-connect-full/frontend/src/stores/notificationStore.js:27 | `find` yields an entry with the id iff one exists |
| Notifications.MarkedRead | interest-connect-full/frontend/src/stores/notificationStore.js:15-17 | Entries with the id become read; others are unchanged |
| Notifications.AllRead | interest-connect-full/frontend/src/stores/notificationStore.js:22 | Every entry becomes read |
| Notifications.Without | interest-connect-full/frontend/src/stores/notificationStore.js:29 | Every entry with the id goes; all others stay |
| Notifications.WithoutKeepsOrder | interest-connect-full/frontend/src/stores/notificationStore.js:29 | Removal works piece by piece over a split list, so the remaining entries keep their order |
| Notifications.UnreadOfAbsent | interest-connect-full/frontend/src/stores/notificationStore.js:14-29 | An absent id changes neither the marked nor the filtered list |
| Notifications.MarkedReadUnread | interest-connect-full/frontend/src/stores/notificationStore.js:14-17 | With unique ids, marking lowers the unread number by one exactly when the entry exists unread |
| Notifications.WithoutUnread | interest-connect-full/frontend/src/stores/notificationStore.js:26-34 | With unique ids, removing lowers the unread number by one exactly when the first match was unread |
| Notifications.AllReadUnread | interest-connect-full/frontend/src/stores/notificationStore.js:21-24 | After marking all, nothing is unread |
| Notifications.MarkAsReadDrifts | interest-connect-full/frontend/src/stores/notificationStore.js:18 | Marking an absent or read id still lowers a positive counter, which then disagrees with the list |
| Notifications.NotificationStore.constructor | interest-connect-full/frontend/src/stores/notificationStore.js:4-5 | Empty list, counter 0, consistent |
| Notifications.NotificationStore.SetNotifications | interest-connect-full/frontend/src/stores/notificationStore.js:7 | Replaces the list |
| Notifications.NotificationStore.AddNotification | interest-connect-full/frontend/src/stores/notificationStore.js:9-12 | Prepends and adds 1; a consistent counter stays consistent iff the new entry is unread |
| Notifications.NotificationStore.MarkAsRead | interest-connect-full/frontend/src/stores/notificationStore.js:14-19 | Marks the id's entries read and always lowers the counter, floored at 0; consistent when the entry was unread |
| Notifications.NotificationStore.MarkAllAsRead | interest-connect-full/frontend/src/stores/notificationStore.js:21-24 | Everything read, counter 0, consistent |
| Notifications.NotificationStore.RemoveNotification | interest-connect-full/frontend/src/stores/notificationStore.js:26-34 | Removes every entry with the id; lowers the counter only if the first match was unread, with no floor; with unique ids stays consistent |
| Notifications.NotificationStore.ClearAll | interest-connect-full/frontend/src/stores/notificationStore.js:36 | Empty list and counter 0 |
| Notifications.NotificationStore.SetUnreadCount | interest-connect-full/frontend/src/stores/notificationStore.js:38 | Sets the counter |

## Left out

- Database failures other than a repeated key on insert. The handlers' 500 replies for query errors and thrown exceptions are not modelled (Supabase is not part of this model).
- Joined and shaped response fields are not modelled: interest names, creator, author and sender objects, member lists, skills. Only the decision-bearing fields are kept.
- Routes outside the listed handlers: `/users/profile` update, `/communities/my`, `/:id/members`, `/friends/requests`, post detail, adding a comment, the unread-count endpoints, `/auth/me`, `/auth/logout`, Google OAuth and `routes/notifications.js`. They are pure queries or depend on services that are not part of this model.
- JWT signing and verification, bcrypt, uuid, e-mail sending and the clock are parameters, not models. `emailService.js` is not part of this model.
- express-validator rules are taken as already satisfied, and the handlers receive the sanitizers' output as their input: `trim()` and `normalizeEmail()` have already run on the fields that use them.
- Floating point: scores are exact round-half-up integers.
- The SQL `ilike` wildcards of the search filters are modelled as a case-insensitive substring test, not as patterns.
- Communities.Join: leaves `member_count` unchanged, because the source never increments it when a member joins. `Join` still reads it for the "full" check, and `Create` sets it to 1.
- Hub.PresenceHub.Connect: `online_users` is modelled as the set of presence records, not the insertion-ordered array the Map yields, because its order carries no decision.
- Hub.PresenceHub.SendMessage: only a failed insert is modelled as the thrown-error path. The notification insert's own failure is ignored, as the source ignores it.
- Socket.IO transport, socket ids and interleaving of awaits are not modelled. Every handler runs atomically, and a new socket's id is assumed unused.
- Accounts.Register: does not store `user_skills`, which carry no decision. The columns the insert leaves out are assumed to default to not verified, offline, no Google id and no privacy settings.
- Events.Create: the stored status 'upcoming' is the assumed column default.
- Message partners and conversations read every row with a receiver (messages.js:11-18), whether or not its community is set; only the thread query also requires the community to be null (messages.js:85). Send stores the receiver and the community independently (messages.js:213-214), so a row with both counts as a direct message in the conversation list but not in the thread.
- Ties under `.order(...)` (communities.js:105, events.js:79, posts.js:86-87, messages.js:88): the model keeps rows with equal keys in storage order, through the stable `Sorting.SortDesc`. PostgreSQL leaves the order of such ties unspecified, and separate `.range` requests may order them differently. The members below hold only under that tie-break:
- Communities.ListCovers: every selected community is on some page only if ties keep one order across requests; so do the exact page contents `Communities.List` ensures.
- Events.ListCovers: the same for events with equal dates, and for the page contents `Events.List` ensures.
- Messages.OldestFirstPageCovers: the same for messages with equal timestamps.
- Messages.ThreadCovers: the same, for the page contents `Messages.Thread` ensures.
- Messages.HistoryCovers: the same, for the page contents `Messages.CommunityHistory` ensures.
- Messages.NewestHead: with equal newest timestamps, which of those rows `.limit(1)` returns is left to the database. The model returns the first of them in storage order; the lemma's contract (some row, none newer) holds for any of them, but the conversation's `lastMessage` is then fixed to that one.
- Posts.FeedFacts: pinned-then-newest holds as stated; among posts equal in both keys the page contents of `Posts.List` assume storage order.
- Ranking.MatchList: the bound of at most ten matches is stated for a `users` table whose ids are unique, as its primary key makes them. Over a table with repeated ids, `.in('id', ...)` would return every such row.
- Text.Lower: lower-cases the ASCII letters A-Z only, while `toLowerCase` also maps other Unicode letters. `Accounts.ByEmail`, `Users.Term` and `Communities.ImageSeed` inherit this.
- Text.Prefix: counts characters, while `substring(0, 50)` counts UTF-16 code units, so the 50-character preview of `Hub.DirectDeliveries` can differ for text outside the Basic Multilingual Plane.
- Chat.ChatStore.UpdateConversation: a conversation whose `partner` is null makes `conv.partner.id` throw in the store. `Chat.Entry.partnerId` cannot be null, so the model does not capture that failure. The same holds for `Chat.ChatStore.MarkConversationRead`.
- Communities.List: pages with the numeric range `Paging.PageRows`. When the client passes `limit` in the query string, the source's `offset + limit - 1` (communities.js:106) concatenates strings from page 2 on; `Paging.PageRowsAsWritten` models that range (see Findings). The model also requires page and limit of at least 1, which the source does not check: it takes page 0, limit 0 or non-numeric values as they come.
- Users.Search: pages with the numeric range `Paging.PageRows`. When the client passes `limit` in the query string, the source's `offset + limit - 1` (users.js:193) concatenates strings from page 2 on; `Paging.PageRowsAsWritten` models that range (see Findings). The model also requires page and limit of at least 1, which the source does not check: it takes page 0, limit 0 or non-numeric values as they come.
- Messages.Thread: pages with the numeric range `Paging.PageRows`. When the client passes `limit` in the query string, the source's `offset + limit - 1` (messages.js:87) concatenates strings from page 2 on; `Paging.PageRowsAsWritten` models that range (see Findings). The model also requires page and limit of at least 1, which the source does not check: it takes page 0, limit 0 or non-numeric values as they come.
- Messages.OpenThread: pages with the numeric range `Paging.PageRows`. When the client passes `limit` in the query string, the source's `offset + limit - 1` (messages.js:87) concatenates strings from page 2 on; `Paging.PageRowsAsWritten` models that range (see Findings). The model also requires page and limit of at least 1, which the source does not check: it takes page 0, limit 0 or non-numeric values as they come.
- Messages.CommunityHistory: pages with the numeric range `Paging.PageRows`. When the client passes `limit` in the query string, the source's `offset + limit - 1` (messages.js:144) concatenates strings from page 2 on; `Paging.PageRowsAsWritten` models that range (see Findings). The model also requires page and limit of at least 1, which the source does not check: it takes page 0, limit 0 or non-numeric values as they come.
- Posts.List: pages with the numeric range `Paging.PageRows`. When the client passes `limit` in the query string, the source's `offset + limit - 1` (posts.js:88) concatenates strings from page 2 on; `Paging.PageRowsAsWritten` models that range (see Findings). The model also requires page and limit of at least 1, which the source does not check: it takes page 0, limit 0 or non-numeric values as they come.
- Events.List: pages with the numeric range `Paging.PageRows`. When the client passes `limit` in the query string, the source's `offset + limit - 1` (events.js:79) concatenates strings from page 2 on; `Paging.PageRowsAsWritten` models that range (see Findings). The model also requires page and limit of at least 1, which the source does not check: it takes page 0, limit 0 or non-numeric values as they come.

## Findings

| source | as written | input that shows it | evidently intended | confidence | as-written member | corrected member |
|---|---|---|---|---|---|---|
| interest-connect-full/backend/routes/auth.js:239 | The already-verified guard reads `req.user.email_verified`, but `authMiddleware` never selects that column (middleware/auth.js:18), so the guard never fires | a user with `email_verified = true` calls resend-verification: a new token is stored and 'Verification email sent!' is returned | refuse with 400 'Email is already verified', reading the user's full row | high (not executed) | Accounts.ResendAsWritten | Accounts.Resend |
| interest-connect-full/backend/routes/communities.js:106 | `offset + limit - 1` with `limit` taken from the query string concatenates strings; the same pattern appears in the users, messages, posts and events listings | page=2, limit=5 asks for rows 5 to 54 and returns up to 50 rows | the range end `offset + limit - 1` as a number (rows 5 to 9) | high (not executed) | Paging.PageRowsAsWritten | Paging.PageRows |
