/** The handle `open` returns: the index's collections as abstract state
    (profiles by origin, the set of indexed archives, the vote records in
    store order) and the operations over them. */
module Store {
  import opened Base
  import opened Seqs
  import opened Profiles
  import opened Graph
  import opened Votes
  import opened Feed

  class Index {
    /** The archive `open` was given, if any: the local user. */
    const owner: Option<Url>
    /** The profile collection: one validated record per origin. */
    var profiles: map<Url, Profile>
    /** The URLs of the indexed archives. */
    var archives: set<Url>
    /** The vote collection, in store order. */
    var votes: seq<VoteRecord>

    /** Every stored profile went through the validator, and the vote
        collection holds one record per origin and subject. */
    ghost predicate Valid()
      reads this
    {
      && (forall o :: o in profiles ==> Consistent(profiles[o]))
      && UniqueVoteKeys(votes)
    }

    /** An index over ingested records: each stored profile is validated,
        and the owner's archive is indexed. */
    constructor (owner: Option<Url>, stored: map<Url, ProfileInput>, indexed: set<Url>, votes: seq<VoteRecord>)
      requires UniqueVoteKeys(votes)
      ensures Valid()
      ensures this.owner == owner && this.votes == votes
      ensures profiles.Keys == stored.Keys
      ensures forall o :: o in stored ==> profiles[o] == ValidateProfile(stored[o])
      ensures archives == indexed + (if owner.Some? then {owner.value} else {})
    {
      this.owner := owner;
      profiles := map o | o in stored :: ValidateProfile(stored[o]);
      archives := indexed + (if owner.Some? then {owner.value} else {});
      this.votes := votes;
    }

    /** getProfile: the stored profile of an origin, if any; what it returns
        went through the validator, so its `followUrls` are the URLs of its
        `follows`, in order. */
    function GetProfile(url: Url): (p: Option<Profile>)
      requires Valid()
      reads this
      ensures p.Some? <==> url in profiles
      ensures p.Some? ==> Consistent(p.value)
      ensures p.Some? ==> |p.value.followUrls| == |p.value.follows|
      ensures p.Some? ==> forall i :: 0 <= i < |p.value.follows| ==> p.value.followUrls[i] == p.value.follows[i].url
    {
      if url in profiles then Some(profiles[url]) else None
    }

    /** follow: the archive's profile gains an entry for the target unless it
        has one, and the target is indexed; with no profile it throws and
        changes nothing. */
    method Follow(archiveUrl: Url, targetUrl: Url, name: string) returns (r: Outcome)
      requires Valid()
      modifies this
      ensures Valid()
      ensures votes == old(votes)
      ensures archiveUrl !in old(profiles) ==>
        r == Failed(FollowWithoutProfile) && profiles == old(profiles) && archives == old(archives)
      ensures archiveUrl in old(profiles) ==>
        && r == Done
        && archives == old(archives) + {targetUrl}
        && profiles == AfterFollow(old(profiles), archiveUrl, targetUrl, name)
        && profiles[archiveUrl].follows == WithFollow(old(profiles)[archiveUrl].follows, targetUrl, name)
    {
      if archiveUrl !in profiles {
        return Failed(FollowWithoutProfile);
      }
      var record := new ProfileRecord(profiles[archiveUrl]);
      record.ApplyFollow(targetUrl, name);
      profiles := profiles[archiveUrl := ValidateProfile(record.Input())];
      archives := archives + {targetUrl};
      r := Done;
    }

    /** removeArchive: the archive leaves the index, and so do its records:
        its profile and its votes. */
    method RemoveArchive(url: Url)
      requires Valid()
      modifies this
      ensures Valid()
      ensures archives == old(archives) - {url}
      ensures profiles == old(profiles) - {url}
      ensures votes == VotesOutside(old(votes), {url})
    {
      FilterKeepsUniqueKeys(votes, NotFrom({url}));
      archives := archives - {url};
      profiles := profiles - {url};
      votes := VotesOutside(votes, {url});
    }

    /** unfollow: every entry for the target leaves the archive's profile,
        then the target is unindexed with its records; with no profile it
        throws and changes nothing. */
    method Unfollow(archiveUrl: Url, targetUrl: Url) returns (r: Outcome)
      requires Valid()
      modifies this
      ensures Valid()
      ensures archiveUrl !in old(profiles) ==>
        && r == Failed(UnfollowWithoutProfile)
        && profiles == old(profiles) && archives == old(archives) && votes == old(votes)
      ensures archiveUrl in old(profiles) ==>
        && r == Done
        && archives == old(archives) - {targetUrl}
        && profiles == AfterUnfollow(old(profiles), archiveUrl, targetUrl)
        && votes == VotesOutside(old(votes), {targetUrl})
        && (archiveUrl != targetUrl ==>
              profiles[archiveUrl].follows == WithoutUrl(old(profiles)[archiveUrl].follows, targetUrl))
    {
      if archiveUrl !in profiles {
        return Failed(UnfollowWithoutProfile);
      }
      var record := new ProfileRecord(profiles[archiveUrl]);
      record.ApplyUnfollow(targetUrl);
      profiles := profiles[archiveUrl := ValidateProfile(record.Input())];
      RemoveArchive(targetUrl);
      r := Done;
    }

    /** pruneUnfollowedArchives: every indexed archive missing from the
        user's `followUrls` is unindexed with its records, every other one
        stays. Without a profile the first archive's check throws before any
        removal; with nothing indexed no check runs. */
    method PruneUnfollowedArchives(userUrl: Url) returns (r: Outcome)
      requires Valid()
      modifies this
      ensures Valid()
      ensures userUrl !in old(profiles) ==>
        && r == (if old(archives) == {} then Done else Failed(ProfileMissing))
        && archives == old(archives) && profiles == old(profiles) && votes == old(votes)
      ensures userUrl in old(profiles) ==>
        var dropped := Dropped(old(archives), old(profiles)[userUrl].followUrls);
        && r == Done
        && archives == Kept(old(archives), old(profiles)[userUrl].followUrls)
        && profiles == old(profiles) - dropped
        && votes == VotesOutside(old(votes), dropped)
    {
      if userUrl !in profiles {
        return if archives == {} then Done else Failed(ProfileMissing);
      }
      var followUrls := profiles[userUrl].followUrls;
      var pending := archives;
      ghost var dropped: set<Url> := {};
      FilterKeepsAll(votes, NotFrom(dropped));
      while pending != {}
        invariant Valid()
        invariant pending <= old(archives)
        invariant forall a :: a in archives <==> a in old(archives) && (a in pending || a in followUrls)
        invariant forall a :: a in dropped <==> a in old(archives) && a !in pending && a !in followUrls
        invariant profiles == old(profiles) - dropped
        invariant votes == VotesOutside(old(votes), dropped)
        decreases |pending|
      {
        var a :| a in pending;
        if a !in followUrls {
          VotesOutsideUnion(old(votes), dropped, {a});
          RemoveArchive(a);
          dropped := dropped + {a};
        }
        pending := pending - {a};
      }
      r := Done;
      assert archives == Kept(old(archives), followUrls);
      assert dropped == Dropped(old(archives), followUrls);
    }

    /** listFollowers: the profiles matched by the followers query, each
        once, in the store's order; its length is countFollowers. */
    method ListFollowers(archiveUrl: Url) returns (followers: seq<Url>)
      ensures NoDuplicates(followers)
      ensures forall u :: u in followers <==> u in Followers(profiles, archiveUrl)
      ensures |followers| == CountFollowers(profiles, archiveUrl)
    {
      var matched := Followers(profiles, archiveUrl);
      var pending := matched;
      followers := [];
      while pending != {}
        invariant pending <= matched
        invariant forall u :: u in followers <==> u in matched && u !in pending
        invariant NoDuplicates(followers)
        decreases |pending|
      {
        var u :| u in pending;
        followers := followers + [u];
        pending := pending - {u};
      }
      NoDuplicatesCardinality(followers);
      assert Elements(followers) == matched;
    }

    /** The filtering half of listFriends: each follower is checked with
        isFollowing(archive, follower) and kept when followed back. */
    method FilterFriends(archiveUrl: Url, followers: seq<Url>) returns (r: Result<seq<Url>>)
      ensures r == FriendsAmong(profiles, archiveUrl, followers)
    {
      var friends := [];
      var i := 0;
      while i < |followers|
        invariant 0 <= i <= |followers|
        invariant i > 0 ==> archiveUrl in profiles
        invariant archiveUrl !in profiles ==> friends == []
        invariant archiveUrl in profiles ==> friends == Filter(followers[..i], FollowedBy(profiles[archiveUrl]))
      {
        var isFriend := IsFollowing(profiles, archiveUrl, followers[i]);
        if isFriend.Err? {
          return Err(isFriend.error);
        }
        FilterAppend(followers[..i], [followers[i]], FollowedBy(profiles[archiveUrl]));
        assert followers[..i + 1] == followers[..i] + [followers[i]];
        if isFriend.value {
          friends := friends + [followers[i]];
        }
        i := i + 1;
      }
      assert followers[..i] == followers;
      r := Ok(friends);
    }

    /** The archive's mutual friends: followers it follows back. */
    ghost function MutualFriends(archiveUrl: Url): set<Url>
      reads this
    {
      set u | u in Followers(profiles, archiveUrl) && IsFriendsWith(profiles, archiveUrl, u) == Ok(true)
    }

    /** listFriends: exactly the mutual friends, each once, in follower
        order; it throws exactly when there are followers and the archive
        has no profile. */
    method ListFriends(archiveUrl: Url) returns (r: Result<seq<Url>>)
      ensures r.Err? <==> archiveUrl !in profiles && Followers(profiles, archiveUrl) != {}
      ensures r.Ok? ==> NoDuplicates(r.value)
      ensures r.Ok? ==> forall u :: u in r.value <==> u in MutualFriends(archiveUrl)
    {
      var followers := ListFollowers(archiveUrl);
      r := FilterFriends(archiveUrl, followers);
      FriendsAmongExact(profiles, archiveUrl, followers);
      if r.Ok? {
        SubsequenceKeepsNoDuplicates(r.value, followers);
      }
      if followers == [] {
        assert forall u :: u !in Followers(profiles, archiveUrl);
      }
    }

    /** countFriends: the number of mutual friends. */
    method CountFriends(archiveUrl: Url) returns (r: Result<nat>)
      ensures r.Err? <==> archiveUrl !in profiles && Followers(profiles, archiveUrl) != {}
      ensures r.Ok? ==> r.value == |MutualFriends(archiveUrl)|
    {
      var friends := ListFriends(archiveUrl);
      if friends.Err? {
        return Err(friends.error);
      }
      NoDuplicatesCardinality(friends.value);
      assert Elements(friends.value) == MutualFriends(archiveUrl);
      r := Ok(|friends.value|);
    }

    /** vote: resolves the subject and writes the caller's vote record under
        that subject, replacing the caller's earlier vote on it; an unusable
        subject throws and writes nothing. `createdAt` is the
        clock reading the caller supplies. */
    method Vote(archiveUrl: Url, vote: int, subject: SubjectRef, createdAt: int) returns (r: Outcome)
      requires Valid()
      modifies this
      ensures Valid()
      ensures profiles == old(profiles) && archives == old(archives)
      ensures ResolveSubject(subject).Err? ==>
        r == Failed(ResolveSubject(subject).error) && votes == old(votes)
      ensures ResolveSubject(subject).Ok? ==>
        r == Done && votes == Recorded(old(votes), VoteRecord(archiveUrl, ResolveSubject(subject).value, vote, createdAt))
    {
      var resolved := ResolveSubject(subject);
      if resolved.Err? {
        return Failed(resolved.error);
      }
      var rec := VoteRecord(archiveUrl, resolved.value, vote, createdAt);
      RecordedReplaces(votes, rec);
      votes := Recorded(votes, rec);
      r := Done;
    }

    /** countVotes: streams the subject's vote records and accumulates the
        tally field by field. */
    method CountVotes(subject: Url) returns (res: Tally)
      ensures res == TallyOf(VotesFor(votes, subject), owner)
      ensures res.up == |Filter(VotesFor(votes, subject), IsUp)|
      ensures res.down == -|Filter(VotesFor(votes, subject), IsDown)|
      ensures res.value == SumVotes(VotesFor(votes, subject))
      ensures res.upVoters == Origins(Filter(VotesFor(votes, subject), IsUp))
    {
      var records := VotesFor(votes, subject);
      res := Tally(0, 0, 0, [], 0);
      var i := 0;
      while i < |records|
        invariant 0 <= i <= |records|
        invariant res == TallyOf(records[..i], owner)
      {
        var record := records[i];
        res := res.(value := res.value + record.vote);
        if record.vote == 1 {
          res := res.(upVoters := res.upVoters + [record.origin]);
          res := res.(up := res.up + 1);
        }
        if record.vote == -1 {
          res := res.(down := res.down - 1);
        }
        if owner.Some? && record.origin == owner.value {
          res := res.(currentUsersVote := record.vote);
        }
        assert records[..i + 1][..i] == records[..i];
        i := i + 1;
      }
      assert records[..i] == records;
      TallyUpCounts(records, owner);
      TallyDownCounts(records, owner);
      TallyValueSums(records, owner);
      TallyUpVoters(records, owner);
    }

    /** The author join of listBroadcasts: each row gets its author's
        profile, looked up once per distinct origin through a memo.
        `lookups` lists the getProfile calls in issue order. */
    method FetchAuthors(rows: seq<Broadcast>) returns (authors: seq<Author>, lookups: seq<Url>)
      requires Valid()
      ensures |authors| == |rows|
      ensures forall i :: 0 <= i < |rows| ==> authors[i] == Fetched(GetProfile(rows[i].origin))
      ensures NoDuplicates(lookups)
      ensures Elements(lookups) == OriginsOf(rows)
    {
      var memo: map<Url, Option<Profile>> := map[];
      authors := [];
      lookups := [];
      var i := 0;
      while i < |rows|
        invariant 0 <= i <= |rows|
        invariant |authors| == i
        invariant forall k :: 0 <= k < i ==> authors[k] == Fetched(GetProfile(rows[k].origin))
        invariant forall o :: o in memo ==> memo[o] == GetProfile(o)
        invariant memo.Keys == Elements(lookups) == OriginsOf(rows[..i])
        invariant NoDuplicates(lookups)
      {
        var origin := rows[i].origin;
        if origin !in memo {
          memo := memo[origin := GetProfile(origin)];
          lookups := lookups + [origin];
        }
        authors := authors + [Fetched(memo[origin])];
        assert OriginsOf(rows[..i + 1]) == OriginsOf(rows[..i]) + {origin} by {
          assert forall k :: 0 <= k < i ==> rows[..i + 1][k] == rows[..i][k];
        }
        i := i + 1;
      }
      assert rows[..i] == rows;
    }

    /** The vote join of listBroadcasts: each row gets the tally of its URL. */
    method FetchVotes(rows: seq<Broadcast>) returns (tallies: seq<Tally>)
      ensures |tallies| == |rows|
      ensures forall i :: 0 <= i < |rows| ==> tallies[i] == TallyOf(VotesFor(votes, rows[i].url), owner)
    {
      tallies := [];
      var i := 0;
      while i < |rows|
        invariant 0 <= i <= |rows|
        invariant |tallies| == i
        invariant forall k :: 0 <= k < i ==> tallies[k] == TallyOf(VotesFor(votes, rows[k].url), owner)
      {
        var t := CountVotes(rows[i].url);
        tallies := tallies + [t];
        i := i + 1;
      }
    }

    /** listBroadcasts over the rows its query returned: with `fetchAuthor`
        each row gets its author's profile (one lookup per distinct origin),
        with `countVotes` the tally of its own URL; rows keep their order. */
    method ListBroadcasts(rows: seq<Broadcast>, fetchAuthor: bool, countVotes: bool)
      returns (listed: seq<ListedBroadcast>, lookups: seq<Url>)
      requires Valid()
      ensures |listed| == |rows|
      ensures forall i :: 0 <= i < |rows| ==> listed[i].record == rows[i]
      ensures forall i :: 0 <= i < |rows| ==>
        listed[i].author == if fetchAuthor then Fetched(GetProfile(rows[i].origin)) else NotFetched
      ensures forall i :: 0 <= i < |rows| ==>
        listed[i].votes == if countVotes then Some(TallyOf(VotesFor(votes, rows[i].url), owner)) else None
      ensures NoDuplicates(lookups)
      ensures Elements(lookups) == if fetchAuthor then OriginsOf(rows) else {}
    {
      var authors := seq(|rows|, _ => NotFetched);
      lookups := [];
      if fetchAuthor {
        authors, lookups := FetchAuthors(rows);
      }
      var tallies: seq<Option<Tally>> := seq(|rows|, _ => None);
      if countVotes {
        var ts := FetchVotes(rows);
        tallies := seq(|rows|, i requires 0 <= i < |rows| => Some(ts[i]));
      }
      listed := seq(|rows|, i requires 0 <= i < |rows| => ListedBroadcast(rows[i], authors[i], tallies[i]));
    }
  }

  /** The indexed archives pruning keeps: those in the user's `followUrls`. */
  function Kept(indexed: set<Url>, followUrls: seq<Url>): set<Url> {
    set a | a in indexed && a in followUrls
  }

  /** The indexed archives pruning removes. */
  function Dropped(indexed: set<Url>, followUrls: seq<Url>): set<Url> {
    set a | a in indexed && a !in followUrls
  }

  /** Pruning splits the indexed archives into kept and removed, and pruning
      again removes nothing more. */
  lemma KeptExact(indexed: set<Url>, followUrls: seq<Url>)
    ensures Kept(indexed, followUrls) == indexed - Dropped(indexed, followUrls)
    ensures Kept(indexed, followUrls) * Dropped(indexed, followUrls) == {}
    ensures Kept(Kept(indexed, followUrls), followUrls) == Kept(indexed, followUrls)
    ensures Dropped(Kept(indexed, followUrls), followUrls) == {}
  {
  }

  /** With the owner following X only and X and Y indexed, pruning removes
      exactly Y. */
  lemma PruneExample(x: Url, y: Url)
    requires x != y
    ensures Kept({x, y}, [x]) == {x}
    ensures Dropped({x, y}, [x]) == {y}
  {
  }

  /** The owner's own archive is pruned unless the owner follows itself, and
      its profile goes with it, so a later follow by the owner fails. */
  lemma PruneDropsOwnArchive(profiles: map<Url, Profile>, indexed: set<Url>, owner: Url, followUrls: seq<Url>)
    requires owner in indexed
    ensures owner in Kept(indexed, followUrls) <==> owner in followUrls
    ensures owner in profiles - Dropped(indexed, followUrls) <==> owner in profiles && owner in followUrls
  {
  }
}
