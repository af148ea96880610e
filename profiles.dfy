/** Profile records: the validator that derives `followUrls` from `follows`,
    the follows-list edits done by follow and unfollow, and the record object
    those update callbacks change in place. */
module Profiles {
  import opened Base
  import opened Seqs

  /** One entry of a profile's `follows` list. */
  datatype Follow = Follow(url: Url, name: string)

  /** A profile record as the validator reads it; `follows` may be missing. */
  datatype ProfileInput = ProfileInput(name: string, bio: string, avatar: string, follows: Option<seq<Follow>>)

  /** A profile record as the validator writes it into the index. */
  datatype Profile = Profile(name: string, bio: string, avatar: string, follows: seq<Follow>, followUrls: seq<Url>)

  /** The URLs of a follows list, element for element (`follows.map(f => f.url)`). */
  function Urls(fs: seq<Follow>): (us: seq<Url>)
    ensures |us| == |fs|
    ensures forall i :: 0 <= i < |fs| ==> us[i] == fs[i].url
  {
    if fs == [] then [] else [fs[0].url] + Urls(fs[1..])
  }

  /** The derived index is in sync with the list it is derived from. */
  predicate Consistent(p: Profile) {
    p.followUrls == Urls(p.follows)
  }

  /** Some entry of `fs` has URL `url`. */
  predicate HasUrl(fs: seq<Follow>, url: Url) {
    exists i :: 0 <= i < |fs| && fs[i].url == url
  }

  /** How many entries of `fs` have URL `url`. */
  function CountUrl(fs: seq<Follow>, url: Url): nat {
    if fs == [] then 0 else (if fs[0].url == url then 1 else 0) + CountUrl(fs[1..], url)
  }

  /** The profile validator: a missing follows list counts as empty, and
      `followUrls` is recomputed from `follows` on every write. */
  function ValidateProfile(r: ProfileInput): (p: Profile)
    ensures Consistent(p)
    ensures p.name == r.name && p.bio == r.bio && p.avatar == r.avatar
    ensures p.follows == if r.follows.Some? then r.follows.value else []
    ensures |p.followUrls| == |p.follows|
    ensures forall i :: 0 <= i < |p.follows| ==> p.followUrls[i] == p.follows[i].url
  {
    var fs := if r.follows.Some? then r.follows.value else [];
    Profile(r.name, r.bio, r.avatar, fs, Urls(fs))
  }

  /** A stored profile read back as validator input. */
  function AsInput(p: Profile): ProfileInput {
    ProfileInput(p.name, p.bio, p.avatar, Some(p.follows))
  }

  /** Validating a stored record again changes nothing. */
  lemma ValidateIdempotent(r: ProfileInput)
    ensures ValidateProfile(AsInput(ValidateProfile(r))) == ValidateProfile(r)
  {
  }

  /** A URL is in the derived index exactly when some follows entry has it. */
  lemma {:induction false} UrlsMembership(fs: seq<Follow>, url: Url)
    ensures url in Urls(fs) <==> HasUrl(fs, url)
  {
    if url in Urls(fs) {
      var i :| 0 <= i < |Urls(fs)| && Urls(fs)[i] == url;
      assert fs[i].url == url;
    }
    if HasUrl(fs, url) {
      var i :| 0 <= i < |fs| && fs[i].url == url;
      assert Urls(fs)[i] == url;
    }
  }

  /** The follows list after following `url` under `name`: appended at the
      end unless an entry with that URL is already there. */
  function WithFollow(fs: seq<Follow>, url: Url, name: string): seq<Follow> {
    if HasUrl(fs, url) then fs else fs + [Follow(url, name)]
  }

  /** Keeps the entries whose URL differs from `url`. */
  function OtherThan(url: Url): Follow -> bool {
    (f: Follow) => f.url != url
  }

  /** The follows list after unfollowing `url`. */
  function WithoutUrl(fs: seq<Follow>, url: Url): seq<Follow> {
    Filter(fs, OtherThan(url))
  }

  /** The profile follow or unfollow writes: the update applied to the
      stored record, then validated. */
  function Followed(p: Profile, target: Url, name: string): Profile {
    ValidateProfile(ProfileInput(p.name, p.bio, p.avatar, Some(WithFollow(p.follows, target, name))))
  }

  function Unfollowed(p: Profile, target: Url): Profile {
    ValidateProfile(ProfileInput(p.name, p.bio, p.avatar, Some(WithoutUrl(p.follows, target))))
  }

  lemma {:induction false} CountUrlAppend(fs: seq<Follow>, gs: seq<Follow>, url: Url)
    ensures CountUrl(fs + gs, url) == CountUrl(fs, url) + CountUrl(gs, url)
  {
    if fs != [] {
      assert (fs + gs)[1..] == fs[1..] + gs;
      CountUrlAppend(fs[1..], gs, url);
    } else {
      assert fs + gs == gs;
    }
  }

  lemma {:induction false} CountUrlPositive(fs: seq<Follow>, url: Url)
    ensures CountUrl(fs, url) > 0 <==> HasUrl(fs, url)
  {
    if fs != [] {
      CountUrlPositive(fs[1..], url);
      if HasUrl(fs[1..], url) {
        var i :| 0 <= i < |fs[1..]| && fs[1..][i].url == url;
        assert fs[i + 1].url == url;
      }
      if HasUrl(fs, url) && fs[0].url != url {
        var i :| 0 <= i < |fs| && fs[i].url == url;
        assert fs[1..][i - 1].url == url;
      }
    }
  }

  /** Following appends exactly one entry for a target that has none, and
      never adds a second one: afterwards the target has exactly one entry
      whenever it had at most one. */
  lemma WithFollowOnce(fs: seq<Follow>, url: Url, name: string)
    requires CountUrl(fs, url) <= 1
    ensures CountUrl(WithFollow(fs, url, name), url) == 1
  {
    CountUrlPositive(fs, url);
    if !HasUrl(fs, url) {
      CountUrlAppend(fs, [Follow(url, name)], url);
    }
  }

  /** Following leaves every other target's entries as they were. */
  lemma WithFollowKeepsOthers(fs: seq<Follow>, url: Url, name: string, other: Url)
    requires other != url
    ensures CountUrl(WithFollow(fs, url, name), other) == CountUrl(fs, other)
  {
    if !HasUrl(fs, url) {
      CountUrlAppend(fs, [Follow(url, name)], other);
    }
  }

  /** Following the same target a second time changes nothing, whatever
      name the second call gives. */
  lemma WithFollowIdempotent(fs: seq<Follow>, url: Url, name: string, name2: string)
    ensures WithFollow(WithFollow(fs, url, name), url, name2) == WithFollow(fs, url, name)
  {
    var once := WithFollow(fs, url, name);
    if !HasUrl(fs, url) {
      assert once[|fs|].url == url;
    }
    assert HasUrl(once, url);
  }

  /** Following twice from a list without the target leaves exactly one
      entry for it, at the end. */
  lemma FollowTwiceOnce(fs: seq<Follow>, url: Url, name: string, name2: string)
    requires !HasUrl(fs, url)
    ensures WithFollow(WithFollow(fs, url, name), url, name2) == fs + [Follow(url, name)]
    ensures CountUrl(WithFollow(WithFollow(fs, url, name), url, name2), url) == 1
  {
    WithFollowIdempotent(fs, url, name, name2);
    CountUrlPositive(fs, url);
    WithFollowOnce(fs, url, name);
  }

  /** Unfollowing removes every entry with the target URL, no other entry,
      and keeps the remaining entries in their original order. */
  lemma {:induction false} WithoutUrlExact(fs: seq<Follow>, url: Url)
    ensures CountUrl(WithoutUrl(fs, url), url) == 0
    ensures forall f: Follow :: f.url != url ==> multiset(WithoutUrl(fs, url))[f] == multiset(fs)[f]
    ensures IsSubsequence(WithoutUrl(fs, url), fs)
  {
    FilterIsSubsequence(fs, OtherThan(url));
    if fs != [] {
      WithoutUrlExact(fs[1..], url);
      assert fs == [fs[0]] + fs[1..];
      var head := if fs[0].url != url then [fs[0]] else [];
      assert WithoutUrl(fs, url) == head + WithoutUrl(fs[1..], url);
      CountUrlAppend(head, WithoutUrl(fs[1..], url), url);
      assert multiset(fs) == multiset([fs[0]]) + multiset(fs[1..]);
      assert multiset(WithoutUrl(fs, url)) == multiset(head) + multiset(WithoutUrl(fs[1..], url));
    }
  }

  /** Unfollowing a target that is followed nowhere leaves the list as it is. */
  lemma WithoutAbsentUrl(fs: seq<Follow>, url: Url)
    requires !HasUrl(fs, url)
    ensures WithoutUrl(fs, url) == fs
  {
    FilterKeepsAll(fs, OtherThan(url));
  }

  /** Unfollow undoes follow: following a new target and then unfollowing it
      restores the original list. */
  lemma FollowUnfollowRoundTrip(fs: seq<Follow>, url: Url, name: string)
    requires !HasUrl(fs, url)
    ensures WithoutUrl(WithFollow(fs, url, name), url) == fs
  {
    FilterAppend(fs, [Follow(url, name)], OtherThan(url));
    WithoutAbsentUrl(fs, url);
  }

  /** The profile record object that the store hands to an update callback;
      the callback changes its fields in place and the store then validates it. */
  class ProfileRecord {
    var name: string
    var bio: string
    var avatar: string
    var follows: Option<seq<Follow>>
    var followUrls: seq<Url>

    /** The record object for a stored profile. */
    constructor (p: Profile)
      ensures name == p.name && bio == p.bio && avatar == p.avatar
      ensures follows == Some(p.follows) && followUrls == p.followUrls
    {
      name, bio, avatar := p.name, p.bio, p.avatar;
      follows, followUrls := Some(p.follows), p.followUrls;
    }

    /** What the validator reads of this record. */
    function Input(): ProfileInput
      reads this
    {
      ProfileInput(name, bio, avatar, follows)
    }

    /** The update callback of follow. */
    method ApplyFollow(targetUrl: Url, entryName: string)
      modifies this
      ensures follows == Some(WithFollow(if old(follows).Some? then old(follows).value else [], targetUrl, entryName))
      ensures name == old(name) && bio == old(bio) && avatar == old(avatar) && followUrls == old(followUrls)
    {
      if follows.None? {
        follows := Some([]);
      }
      if !HasUrl(follows.value, targetUrl) {
        follows := Some(follows.value + [Follow(targetUrl, entryName)]);
      }
    }

    /** The update callback of unfollow. */
    method ApplyUnfollow(targetUrl: Url)
      modifies this
      ensures follows == Some(WithoutUrl(if old(follows).Some? then old(follows).value else [], targetUrl))
      ensures name == old(name) && bio == old(bio) && avatar == old(avatar) && followUrls == old(followUrls)
    {
      if follows.None? {
        follows := Some([]);
      }
      follows := Some(Filter(follows.value, OtherThan(targetUrl)));
    }
  }
}
