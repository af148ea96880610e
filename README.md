# Plexus index API, modelled in Dafny

`index.js` opens a local index over peer-to-peer archives and returns a
handle. The index tracks profiles (name, bio, avatar and the list of archives
a user follows), the set of archives being indexed, broadcast records and
votes. Through the handle the caller can:

- follow and unfollow archives, and prune indexed archives that the user no
  longer follows;
- ask who follows whom, list followers and friends (mutual follows) and count
  them;
- build the broadcast feed query and list broadcasts, joined with the
  author's profile and the vote tally;
- cast votes and tally the votes about a subject.

The model has seven modules:

- `Base`: URLs, `Option`, `Result`, `Outcome` and the error cases the source
  throws.
- `Seqs`: filtering, subsequences, reversal and duplicate-freedom on sequences.
- `Profiles`: the profile validator, which derives `followUrls` from `follows`.
  It also has the follows-list edits that follow and unfollow make, and the
  `ProfileRecord` class. That class is the record object the update
  callbacks change in place.
- `Graph`: `isFollowing`, `isFriendsWith`, the followers query and the
  friends filter, as functions of the profile collection.
- `Votes`: subject resolution for `vote`, and the `countVotes` tally. The
  tally is a fold, with reference definitions for each field.
- `Feed`: the query plan `getBroadcastsQuery` builds, and what its
  offset/limit/reverse steps mean on the rows the access path returns.
- `Store`: the class `Index`, which is the handle. Its fields are the profile
  collection, the indexed archive set and the vote records. Its methods are
  the handle's operations. Unindexing an archive (`removeArchive`) takes its
  profile and votes out of the index with it.

The handle's operations are async and can throw. In the model, a throw is an
`Outcome` or `Result` error: `Failed(FollowWithoutProfile)`,
`Err(ProfileMissing)` and so on. A method that fails changes no state.

Two consequences of the source are stated as lemmas rather than hidden:

- `pruneUnfollowedArchives` removes the user's own archive unless the user
  follows itself, and the user's profile goes with it. After that a
  `follow` by the user fails for want of a profile
  (`Store.PruneDropsOwnArchive`).
- The vote collection's primary key is `subject` (index.js:77-79), and a
  record is identified by its origin and its key. A second vote by the same
  archive on the same subject therefore replaces the first, and the store
  keeps one vote per origin and subject (`Votes.RecordedReplaces`).

`getBroadcastsQuery` starts from `db.broadcasts`, but the schema at
`index.js:12-89` declares no `broadcasts` collection. As written, every call
fails; see "## Findings". `Feed.GetBroadcastsQuery` models the plan the
function evidently means to build on such a collection.

## Model

| member | source | states |
|---|---|---|
| Profiles.ValidateProfile | index.js:17-23 | a missing `follows` becomes `[]`; name, bio and avatar pass through; `followUrls` has one entry per follow, the URL of that follow, in the same order |
| Profiles.Urls | index.js:22 | the derived list has one element per follows entry, that entry's URL |
| Profiles.ValidateIdempotent | index.js:17-23 | validating a validated profile again gives the same profile |
| Profiles.UrlsMembership | index.js:16-22 | a URL is in the derived `followUrls` index exactly when some follows entry has that URL |
| Profiles.WithFollowOnce | index.js:159-165 | after following, the target has exactly one entry, provided it had at most one before |
| Profiles.WithFollowKeepsOthers | index.js:161-163 | following one target leaves the number of entries of every other URL unchanged |
| Profiles.WithFollowIdempotent | index.js:161-163 | following the same target again changes nothing, whatever name the second call gives |
| Profiles.FollowTwiceOnce | index.js:159-165 | following a new target twice appends exactly one entry, at the end, with the first name |
| Profiles.WithoutUrlExact | index.js:177-181 | unfollowing leaves no entry for the target; every other entry keeps its number of copies; the rest stay in their original order |
| Profiles.WithoutAbsentUrl | index.js:179 | unfollowing a target with no entry leaves the list as it is |
| Profiles.FollowUnfollowRoundTrip | index.js:155-187 | following a new target and then unfollowing it restores the original follows list |
| Profiles.ProfileRecord.constructor | index.js:159 | the record object handed to the update callback carries the stored profile's fields |
| Profiles.ProfileRecord.ApplyFollow | index.js:159-165 | the callback makes the follows list present, appends `{url, name}` when no entry has the URL, and touches no other field |
| Profiles.ProfileRecord.ApplyUnfollow | index.js:177-181 | the callback makes the follows list present, drops every entry with the target URL, and touches no other field |
| Graph.IsFollowing | index.js:202-206 | fails exactly when A has no profile; otherwise says whether B's URL is in A's `followUrls` |
| Graph.IsFollowingMeansFollowEntry | index.js:202-206 | on a validated profile, isFollowing(A, B) is true exactly when A's follows list has an entry for B, and false exactly when it has none |
| Graph.IsFriendsWith | index.js:221-227 | succeeds exactly when both profiles exist; true exactly when each follows the other |
| Graph.IsFriendsWithSymmetric | index.js:221-227 | isFriendsWith(A, B) and isFriendsWith(B, A) agree, in their answer and in their failure |
| Graph.MutualFollowExample | index.js:221-227 | two archives that list each other in `follows` are friends, both ways |
| Graph.Followers | index.js:189-192 | the followers query only matches origins that have a profile |
| Graph.FollowersAreFollowing | index.js:189-206 | an origin is a follower of U exactly when isFollowing(origin, U) is true |
| Graph.FriendsAmongExact | index.js:208-214 | of a list of followers, listFriends keeps exactly those followed back, as a subsequence; it fails exactly when the list is non-empty and the archive has no profile |
| Graph.CountFollowers | index.js:198-200 | the follower count is 0 exactly when no stored profile lists the URL, and never exceeds the number of stored profiles |
| Graph.FollowSetsIsFollowing | index.js:155-171 | after follow(A, T), isFollowing(A, T) is true, and every other origin's answers are unchanged |
| Graph.UnfollowClearsIsFollowing | index.js:173-187 | after unfollow(A, T), isFollowing(A, T) is false when A is not T; isFollowing(T, _) fails because T's profile left the index with its archive; answers of every third origin are unchanged |
| Graph.UnfollowDropsFollower | index.js:173-192 | after unfollow(A, T), T is no longer among A's followers, and every other follower of A except A itself stays |
| Store.Index.constructor | index.js:90-95 | every stored profile is validated, and the user's archive is added to the indexed set |
| Store.Index.GetProfile | index.js:134-137 | a profile is returned exactly when the origin has one, and it is a validated record: its `followUrls` are the URLs of its `follows`, in order |
| Store.Index.RemoveArchive | index.js:118 | the archive leaves the indexed set, and its profile and its votes leave the index; nothing else changes; validity and one-vote-per-key are kept |
| Store.Index.Follow | index.js:155-171 | with no profile it fails with the follow error and changes nothing; otherwise the profile becomes the validated follow update, and the target is added to the indexed set; the invariant that every profile is validated is kept |
| Store.Index.Unfollow | index.js:173-187 | with no profile it fails with the unfollow error and changes nothing; otherwise the profile becomes the validated unfollow update, then the target's archive, profile and votes leave the index; validity is kept |
| Store.Index.PruneUnfollowedArchives | index.js:121-129 | keeps exactly the indexed archives in the user's `followUrls`, and removes the profiles and votes of the others; with no profile it fails unless nothing is indexed, and changes nothing |
| Store.KeptExact | index.js:121-129 | pruning splits the indexed archives into kept and removed, and pruning again removes nothing more |
| Store.PruneExample | index.js:121-129 | with the user following X only and X and Y indexed, pruning keeps X and removes Y |
| Store.PruneDropsOwnArchive | index.js:121-129 | the user's own archive, and its profile, survive pruning exactly when the user follows itself |
| Votes.VotesOutsideExact | index.js:126 | unindexing keeps exactly the votes whose origin stays indexed, in their order |
| Store.Index.ListFollowers | index.js:194-200 | the followers listed are exactly the followers of the query, each once; their number is countFollowers |
| Store.Index.FilterFriends | index.js:210-213 | checks each follower with isFollowing(archive, follower) in turn and keeps those followed back; equals the friends filter |
| Store.Index.ListFriends | index.js:208-214 | fails exactly when the archive has followers and no profile; otherwise lists exactly its mutual friends, each once |
| Store.Index.CountFriends | index.js:216-219 | fails exactly as listFriends does; otherwise is the number of mutual friends |
| Feed.BroadcastsQueryAsWritten | index.js:320-338 | the query fails exactly when the schema declares no `broadcasts` collection; otherwise it is the reference plan |
| Feed.BroadcastsQueryAlwaysFails | index.js:12-89 | under the schema `open` declares, getBroadcastsQuery fails for every choice of options |
| Feed.GetBroadcastsQuery | index.js:320-338 | the plan built by reassigning the query option by option equals the reference plan |
| Feed.AccessPathChoice | index.js:322-333 | an author gives the per-author time range; otherwise a set `after` or `before` gives the time range; otherwise the collection in time order; a range starts at 0 exactly when `after` is unset and is unbounded exactly when `before` is unset |
| Feed.ZeroIsOmitted | index.js:322-336 | giving 0 for offset, limit, after or before plans the same query as leaving it out |
| Feed.PlanSelectsPage | index.js:334-336 | the plan's steps take the page that starts at `offset` and holds at most `limit` rows, reversed when `reverse` is set |
| Feed.ReverseReversesPage | index.js:336 | setting `reverse` yields exactly the reversed result of the same query |
| Store.Index.FetchAuthors | index.js:346-354 | every row gets its author's profile; each distinct origin is looked up once, and only the origins of the rows are looked up |
| Store.Index.FetchVotes | index.js:357-361 | every row gets the tally of the votes about its own URL |
| Store.Index.ListBroadcasts | index.js:340-365 | the rows keep their order; the author is attached only with `fetchAuthor` and the tally only with `countVotes`; each distinct origin is looked up once |
| Votes.ResolveSubject | index.js:384-389 | a missing or empty subject is refused; an object's `_url` wins over its `url`; a string is used as given; an object with neither resolves to no URL |
| Votes.ResolveSubjectIdempotent | index.js:386-389 | a resolved subject URL resolves to itself |
| Store.Index.Vote | index.js:384-392 | on a resolvable subject it writes the caller's vote record under the resolved subject, replacing the caller's earlier vote on it; otherwise it fails with the resolution error and writes nothing; one vote per key is kept |
| Votes.RecordedReplaces | index.js:77-81 | after a write, the new record is the newest and the only one with its origin and subject; every other record stays, in order; one record per key is kept |
| Votes.VoteIsCurrentUsersVote | index.js:384-418 | after a vote, countVotes on its subject seen by the voter reports that vote as the current user's vote |
| Store.Index.CountVotes | index.js:402-418 | the streamed tally equals the fold over the subject's vote records; `up` counts the up votes, `down` is minus the number of down votes, `value` is the sum, and `upVoters` are the up voters' origins in order |
| Votes.TallyStepFields | index.js:404-416 | one record adds its vote to `value`; an up vote adds to `up` and `upVoters`; a down vote decrements `down`; the user's own record sets `currentUsersVote` |
| Votes.TallyUpCounts | index.js:406-409 | `up` is the number of records with vote 1 |
| Votes.TallyDownCounts | index.js:410-412 | `down` is minus the number of records with vote -1 |
| Votes.TallyValueSums | index.js:405 | `value` is the sum of all vote values |
| Votes.TallyUpVoters | index.js:406-407 | `upVoters` lists the origins of the up votes, in stream order |
| Votes.CurrentUsersVoteIsLatest | index.js:413-415 | `currentUsersVote` is the vote of the user's last record, and 0 when the user has none or there is no user |
| Votes.TallyBalance | index.js:403-417 | `down` is never positive; there are as many up voters as up votes; for votes in {-1, 0, 1}, `value` is up plus down |
| Votes.TallyExample | index.js:402-418 | votes +1, +1, -1 tally to value 1, up 2, up voters [a, b] and down -1 |

## Findings

| source | as written | input that shows it | evidently intended | confidence | as-written member | corrected member |
|---|---|---|---|---|---|---|
| index.js:321 | the query starts from `db.broadcasts`, which the schema at index.js:12-89 does not declare, so `where` or `orderBy` is called on an undefined value and throws; listBroadcasts without a query and countBroadcasts fail the same way | `getBroadcastsQuery({})`: `db.broadcasts.orderBy` on an undefined collection | a broadcasts collection indexed by `createdAt` and `_origin+createdAt`, and the plan built on it | high (not executed) | Feed.BroadcastsQueryAsWritten | Feed.GetBroadcastsQuery |

## Left out

- `coerce` (lib/coerce.js) is not part of this model. `archiveUrl`, `string`, `path`, `datUrl`, `voteSubject` and `vote` are treated as the identity on values that are already canonical. URLs are plain strings.
- `coerce.arrayOfFollows`: a missing list becomes `[]`. Any dropping or normalising of malformed entries is not modelled.
- InjestDB is not part of this model. Its `update` is assumed to run the profile validator again on the changed record, so `followUrls` is recomputed. Its query engine is abstract: the followers query is the set of matching origins, and the vote lookup filters the records in store order.
- Store.Index.ListFollowers: the store's row order is not modelled, so the order is arbitrary. The result is the followers' origin URLs, not their full profile records.
- Store.Index.FilterFriends: `follower.url` (index.js:211) is read as the follower's origin URL. The profile validator (index.js:17-23) writes no `url` field, so this assumes the store attaches each record's origin as `url`. If it does not, listFriends as written asks isFollowing about an undefined URL and finds no friends.
- Store.Index.ListBroadcasts: it takes the rows the query returned as a parameter. It returns new records instead of setting `author` and `votes` on the row objects in place. The ranged scan itself, the `between` semantics on `createdAt` and `_origin+createdAt`, is not modelled.
- Feed.GetBroadcastsQuery: offset and limit are natural numbers. What the store does with negative or non-integer values is not shown.
- Feed.PlanSelectsPage: the meaning of the steps is assumed of the store. Offset and limit select a page of the ranged rows, and `reverse` reverses that page. index.js shows only the calls. A store whose `reverse` changes the scan direction before offset and limit apply would select a different page.
- Promise.all concurrency is modelled sequentially: as a loop in prune, listFriends and listBroadcasts, and as a function that evaluates both checks in isFriendsWith. The source's callbacks are independent of each other, so the results agree.
- Store.Index.Vote: `Date.now()` is the caller-supplied `createdAt`. `coerce.vote` clamping is not modelled, so the vote value is stored as given. An object subject with neither `_url` nor `url` is refused as unresolved, which stands in for the required check of `coerce.datUrl`. A second write under the caller's existing key is taken to overwrite the earlier record, and the new record is placed last in store order. Whether the store overwrites or refuses, and where the record then sits, is not shown.
- Store.Index.Follow: indexing the target (index.js:170) brings its records into the index, but the archive's contents are outside the model. So after follow, the target's own profile and votes are as before.
- open: the fire-and-forget indexing of the user's follows (index.js:96-99) is not modelled. Nothing waits for it.
- close (index.js:105-114) releases the database and is not modelled.
- addArchive, addArchives and listArchives (index.js:116-117, 119) are direct store calls. Adding appears only as the indexed-set change inside follow, and it brings in no records (see Store.Index.Follow). removeArchive is `Store.Index.RemoveArchive`.
- Store.Index.constructor: the vote records it is given must already hold one record per origin and subject, as the store's keys guarantee.
- setProfile (index.js:139-142) and setAvatar (index.js:144-153) are not modelled. They are an upsert merge and file I/O in the archive.
- prescript, subscript and postscript (index.js:229-318) are not modelled. They coerce strings, draw random IDs and read the clock, then add one record.
- The validators of the prescripts, subscripts, postscripts and votes collections are not modelled. Their content fields play no part in the feed or tally logic.
- getBroadcast (index.js:372-379) is not modelled because it calls `getRepliesQuery`, which the handle does not define.
- countBroadcasts (index.js:367-370) is the store's count of the query and is not modelled.
- getVotesQuery and listVotes (index.js:394-400) appear only as `Votes.VotesFor`.
