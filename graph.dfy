/** The follow graph as the index answers questions about it: who follows
    whom, followers of an archive, and mutual follows ("friends"). Profiles
    are the store's profile collection, keyed by origin URL. */
module Graph {
  import opened Base
  import opened Seqs
  import opened Profiles

  /** isFollowing(a, b): reads a's profile; a missing profile makes the read
      of `followUrls` throw. */
  function IsFollowing(profiles: map<Url, Profile>, a: Url, b: Url): (r: Result<bool>)
    ensures r.Err? <==> a !in profiles
    ensures r.Err? ==> r.error == ProfileMissing
  {
    if a in profiles then Ok(b in profiles[a].followUrls) else Err(ProfileMissing)
  }

  /** On a validated profile, isFollowing(a, b) holds exactly when a's
      `follows` list has an entry for b. */
  lemma IsFollowingMeansFollowEntry(profiles: map<Url, Profile>, a: Url, b: Url)
    requires a in profiles && Consistent(profiles[a])
    ensures IsFollowing(profiles, a, b) == Ok(true) <==> HasUrl(profiles[a].follows, b)
    ensures IsFollowing(profiles, a, b) == Ok(false) <==> !HasUrl(profiles[a].follows, b)
  {
    UrlsMembership(profiles[a].follows, b);
  }

  /** isFriendsWith(a, b): both directional checks; if either throws, so
      does the combined call. */
  function IsFriendsWith(profiles: map<Url, Profile>, a: Url, b: Url): (r: Result<bool>)
    ensures r.Ok? <==> a in profiles && b in profiles
    ensures r == Ok(true) <==> IsFollowing(profiles, a, b) == Ok(true) && IsFollowing(profiles, b, a) == Ok(true)
  {
    var ab := IsFollowing(profiles, a, b);
    var ba := IsFollowing(profiles, b, a);
    if ab.Err? then ab else if ba.Err? then ba else Ok(ab.value && ba.value)
  }

  /** Friendship is symmetric, in its answer and in its failure. */
  lemma IsFriendsWithSymmetric(profiles: map<Url, Profile>, a: Url, b: Url)
    ensures IsFriendsWith(profiles, a, b) == IsFriendsWith(profiles, b, a)
  {
  }

  /** The profiles matched by getFollowersQuery: every origin whose
      `followUrls` index contains `url`. */
  function Followers(profiles: map<Url, Profile>, url: Url): (fs: set<Url>)
    ensures forall o :: o in fs ==> o in profiles
  {
    set o | o in profiles && url in profiles[o].followUrls
  }

  /** A follower is exactly an origin for which isFollowing holds. */
  lemma FollowersAreFollowing(profiles: map<Url, Profile>, url: Url, o: Url)
    ensures o in Followers(profiles, url) <==> IsFollowing(profiles, o, url) == Ok(true)
  {
  }

  /** countFollowers: the size of the followers query. It is 0 exactly when
      no stored profile lists `url`, and never more than the stored profiles. */
  function CountFollowers(profiles: map<Url, Profile>, url: Url): (n: nat)
    ensures n == 0 <==> forall o :: o in profiles ==> url !in profiles[o].followUrls
    ensures n <= |profiles|
  {
    var fs := Followers(profiles, url);
    assert fs <= profiles.Keys;
    assert |fs| == 0 ==> fs == {};
    assert forall o :: o in profiles && url in profiles[o].followUrls ==> o in fs;
    SubsetCardinality(fs, profiles.Keys);
    |fs|
  }

  lemma {:induction false} SubsetCardinality<T>(a: set<T>, b: set<T>)
    requires a <= b
    ensures |a| <= |b|
    decreases |b|
  {
    if a != {} {
      var x :| x in a;
      SubsetCardinality(a - {x}, b - {x});
    }
  }

  /** Whether `p` (the archive's own profile) follows back `u`. */
  function FollowedBy(p: Profile): Url -> bool {
    (u: Url) => u in p.followUrls
  }

  /** listFriends on a given list of followers: each follower is checked with
      isFollowing(archive, follower), which throws when the archive has no
      profile (and is never called when there are no followers); those
      followed back are kept, in follower order. */
  function FriendsAmong(profiles: map<Url, Profile>, archive: Url, followers: seq<Url>): Result<seq<Url>> {
    if followers == [] then Ok([])
    else if archive !in profiles then Err(ProfileMissing)
    else Ok(Filter(followers, FollowedBy(profiles[archive])))
  }

  /** Of a list of the archive's followers, listFriends keeps exactly the
      mutual friends, as a subsequence of the list; it fails exactly when
      there are followers and the archive has no profile. */
  lemma FriendsAmongExact(profiles: map<Url, Profile>, archive: Url, followers: seq<Url>)
    requires forall u :: u in followers ==> u in Followers(profiles, archive)
    ensures FriendsAmong(profiles, archive, followers).Err? <==> followers != [] && archive !in profiles
    ensures FriendsAmong(profiles, archive, followers).Ok? ==>
      var friends := FriendsAmong(profiles, archive, followers).value;
      && IsSubsequence(friends, followers)
      && forall u :: u in friends <==> u in followers && IsFriendsWith(profiles, archive, u) == Ok(true)
  {
    if followers != [] && archive in profiles {
      var keep := FollowedBy(profiles[archive]);
      FilterMembers(followers, keep);
      FilterIsSubsequence(followers, keep);
    }
  }

  /** The profile collection after follow(a, t): a's profile is rewritten
      with the entry. (Indexing t brings in records the model does not hold.) */
  function AfterFollow(profiles: map<Url, Profile>, a: Url, t: Url, name: string): map<Url, Profile>
    requires a in profiles
  {
    profiles[a := Followed(profiles[a], t, name)]
  }

  /** The profile collection after unfollow(a, t): a's profile is rewritten
      without t's entries, then t's archive leaves the index and its profile
      with it. */
  function AfterUnfollow(profiles: map<Url, Profile>, a: Url, t: Url): map<Url, Profile>
    requires a in profiles
  {
    profiles[a := Unfollowed(profiles[a], t)] - {t}
  }

  /** After follow(a, t), isFollowing(a, t) holds and no other origin's
      answer changes. */
  lemma FollowSetsIsFollowing(profiles: map<Url, Profile>, a: Url, t: Url, name: string, x: Url, y: Url)
    requires a in profiles
    ensures IsFollowing(AfterFollow(profiles, a, t, name), a, t) == Ok(true)
    ensures x != a ==> IsFollowing(AfterFollow(profiles, a, t, name), x, y) == IsFollowing(profiles, x, y)
  {
    var fs := profiles[a].follows;
    var added := WithFollow(fs, t, name);
    if !HasUrl(fs, t) {
      assert added[|fs|].url == t;
    }
    UrlsMembership(added, t);
  }

  /** After unfollow(a, t), isFollowing(a, t) is false (a that unfollows
      itself unindexes its own profile), isFollowing(t, _) fails because t's
      profile left the index, and no third origin's answer changes. */
  lemma UnfollowClearsIsFollowing(profiles: map<Url, Profile>, a: Url, t: Url, x: Url, y: Url)
    requires a in profiles
    ensures a != t ==> IsFollowing(AfterUnfollow(profiles, a, t), a, t) == Ok(false)
    ensures IsFollowing(AfterUnfollow(profiles, a, t), t, y) == Err(ProfileMissing)
    ensures x != a && x != t ==> IsFollowing(AfterUnfollow(profiles, a, t), x, y) == IsFollowing(profiles, x, y)
  {
    var removed := WithoutUrl(profiles[a].follows, t);
    WithoutUrlExact(profiles[a].follows, t);
    CountUrlPositive(removed, t);
    UrlsMembership(removed, t);
  }

  /** Unfollowing a follower removes it from the followers: its archive, and
      with it its profile, leaves the index. */
  lemma UnfollowDropsFollower(profiles: map<Url, Profile>, a: Url, t: Url)
    requires a in profiles
    ensures t !in Followers(AfterUnfollow(profiles, a, t), a)
    ensures forall o :: o != a && o != t ==>
      (o in Followers(AfterUnfollow(profiles, a, t), a) <==> o in Followers(profiles, a))
  {
  }

  /** Two archives that follow each other are friends. */
  lemma MutualFollowExample(a: Url, b: Url)
    requires a != b
    ensures var profiles := map[
        a := ValidateProfile(ProfileInput("A", "", "", Some([Follow(b, "B")]))),
        b := ValidateProfile(ProfileInput("B", "", "", Some([Follow(a, "A")])))];
      IsFriendsWith(profiles, a, b) == Ok(true) && IsFriendsWith(profiles, b, a) == Ok(true)
  {
    assert Urls([Follow(b, "B")]) == [b];
    assert Urls([Follow(a, "A")]) == [a];
  }
}
