/** Votes: the subject resolution of `vote` and the tally that `countVotes`
    folds out of the vote records for one subject. */
module Votes {
  import opened Base
  import opened Seqs

  /** A stored vote record; `origin` is the archive that wrote it. */
  datatype VoteRecord = VoteRecord(origin: Url, subject: Url, vote: int, createdAt: int)

  /** The summary countVotes returns. `down` is decremented for each down
      vote, so it is the negated number of down votes. */
  datatype Tally = Tally(up: int, down: int, value: int, upVoters: seq<Url>, currentUsersVote: int)

  /** The shapes a vote's `subject` argument can take: absent (undefined or
      null), a URL string, or an object that may carry `_url` and/or `url`. */
  datatype SubjectRef =
    | Absent
    | Text(text: string)
    | Reference(recordUrl: Option<string>, url: Option<string>)

  /** A string option is truthy when present and non-empty. */
  predicate Truthy(s: Option<string>) {
    s.Some? && s.value != ""
  }

  /** The subject resolution of `vote`: a falsy subject is refused; an
      object's `_url` wins over its `url`; a string is used as it is; an
      object with neither resolves to no URL. */
  function ResolveSubject(s: SubjectRef): (r: Result<Url>)
    ensures r.Ok? ==> r.value != ""
    ensures r == Err(SubjectRequired) <==> s.Absent? || s == Text("")
    ensures r == Err(SubjectUnresolved) <==> s.Reference? && !Truthy(s.recordUrl) && !Truthy(s.url)
    ensures s.Reference? && Truthy(s.recordUrl) ==> r == Ok(s.recordUrl.value)
    ensures s.Reference? && !Truthy(s.recordUrl) && Truthy(s.url) ==> r == Ok(s.url.value)
  {
    match s
    case Absent => Err(SubjectRequired)
    case Text(t) => if t == "" then Err(SubjectRequired) else Ok(t)
    case Reference(recordUrl, url) =>
      if Truthy(recordUrl) then Ok(recordUrl.value)
      else if Truthy(url) then Ok(url.value)
      else Err(SubjectUnresolved)
  }

  /** Resolution is idempotent: a resolved URL resolves to itself. */
  lemma ResolveSubjectIdempotent(s: SubjectRef)
    requires ResolveSubject(s).Ok?
    ensures ResolveSubject(Text(ResolveSubject(s).value)) == ResolveSubject(s)
  {
  }

  /** Two vote records address the same stored record: the key of the
      collection is `subject`, and a record's identity is its origin plus its key. */
  predicate SameKey(v: VoteRecord, w: VoteRecord) {
    v.origin == w.origin && v.subject == w.subject
  }

  /** The store holds at most one vote per origin and subject. */
  predicate UniqueVoteKeys(vs: seq<VoteRecord>) {
    forall i, j :: 0 <= i < j < |vs| ==> !SameKey(vs[i], vs[j])
  }

  /** Keeps the records that `rec` does not address. */
  function OtherKey(rec: VoteRecord): VoteRecord -> bool {
    (v: VoteRecord) => !SameKey(v, rec)
  }

  /** The vote collection after `add` writes `rec`: a record the caller
      already had for that subject is replaced, and `rec` is the newest. */
  function Recorded(vs: seq<VoteRecord>, rec: VoteRecord): seq<VoteRecord> {
    Filter(vs, OtherKey(rec)) + [rec]
  }

  /** Keeps the records whose origin is not in `removed`. */
  function NotFrom(removed: set<Url>): VoteRecord -> bool {
    (v: VoteRecord) => v.origin !in removed
  }

  /** The vote collection once the archives in `removed` are unindexed. */
  function VotesOutside(vs: seq<VoteRecord>, removed: set<Url>): seq<VoteRecord> {
    Filter(vs, NotFrom(removed))
  }

  /** Any filter of the collection keeps one record per key. */
  lemma {:induction false} FilterKeepsUniqueKeys(vs: seq<VoteRecord>, keep: VoteRecord -> bool)
    requires UniqueVoteKeys(vs)
    ensures UniqueVoteKeys(Filter(vs, keep))
  {
    if vs != [] {
      var rest := vs[1..];
      assert UniqueVoteKeys(rest) by {
        forall i, j | 0 <= i < j < |rest|
          ensures !SameKey(rest[i], rest[j])
        {
          assert rest[i] == vs[i + 1] && rest[j] == vs[j + 1];
        }
      }
      FilterKeepsUniqueKeys(rest, keep);
      FilterMembers(rest, keep);
      var tail := Filter(rest, keep);
      var f := Filter(vs, keep);
      if keep(vs[0]) {
        assert f == [vs[0]] + tail;
        forall i, j | 0 <= i < j < |f|
          ensures !SameKey(f[i], f[j])
        {
          assert f[j] == tail[j - 1];
          if i == 0 {
            assert tail[j - 1] in tail;
            var k :| 0 <= k < |rest| && rest[k] == f[j];
            assert vs[k + 1] == f[j];
          } else {
            assert f[i] == tail[i - 1];
          }
        }
      } else {
        assert f == tail;
      }
    }
  }

  /** A vote replaces the caller's earlier vote on the same subject: afterwards
      the new record is the newest and the only one with its key, every other
      record stays in its order, and one record per key is kept. */
  lemma RecordedReplaces(vs: seq<VoteRecord>, rec: VoteRecord)
    ensures var r := Recorded(vs, rec);
      && r[|r| - 1] == rec
      && (forall i :: 0 <= i < |r| - 1 ==> !SameKey(r[i], rec))
      && IsSubsequence(r[..|r| - 1], vs)
      && (forall v :: v in r[..|r| - 1] <==> v in vs && !SameKey(v, rec))
    ensures UniqueVoteKeys(vs) ==> UniqueVoteKeys(Recorded(vs, rec))
  {
    var kept := Filter(vs, OtherKey(rec));
    var r := Recorded(vs, rec);
    assert r[..|r| - 1] == kept;
    FilterMembers(vs, OtherKey(rec));
    FilterIsSubsequence(vs, OtherKey(rec));
    if UniqueVoteKeys(vs) {
      FilterKeepsUniqueKeys(vs, OtherKey(rec));
      forall i, j | 0 <= i < j < |r|
        ensures !SameKey(r[i], r[j])
      {
        if j < |r| - 1 {
          assert r[i] == kept[i] && r[j] == kept[j];
        } else {
          assert r[i] == kept[i];
        }
      }
    }
  }

  /** Unindexing one set of archives and then another is unindexing both. */
  lemma {:induction false} VotesOutsideUnion(vs: seq<VoteRecord>, r: set<Url>, s: set<Url>)
    ensures VotesOutside(VotesOutside(vs, r), s) == VotesOutside(vs, r + s)
  {
    if vs != [] {
      VotesOutsideUnion(vs[1..], r, s);
      var head := if vs[0].origin !in r then [vs[0]] else [];
      FilterAppend(head, VotesOutside(vs[1..], r), NotFrom(s));
    }
  }

  /** Unindexing removes exactly the records of the removed archives. */
  lemma VotesOutsideExact(vs: seq<VoteRecord>, removed: set<Url>)
    ensures forall v :: v in VotesOutside(vs, removed) <==> v in vs && v.origin !in removed
    ensures IsSubsequence(VotesOutside(vs, removed), vs)
  {
    FilterMembers(vs, NotFrom(removed));
    FilterIsSubsequence(vs, NotFrom(removed));
  }

  /** The vote records about `subject` (the `subject` index lookup), in store order. */
  function AboutSubject(subject: Url): VoteRecord -> bool {
    (r: VoteRecord) => r.subject == subject
  }

  function VotesFor(votes: seq<VoteRecord>, subject: Url): seq<VoteRecord> {
    Filter(votes, AboutSubject(subject))
  }

  /** The empty tally countVotes starts from. */
  const EMPTY_TALLY := Tally(0, 0, 0, [], 0)

  /** One step of the fold: the body of the `each` callback of countVotes. */
  function TallyStep(t: Tally, r: VoteRecord, user: Option<Url>): Tally {
    var t1 := t.(value := t.value + r.vote);
    var t2 := if r.vote == 1 then t1.(upVoters := t1.upVoters + [r.origin], up := t1.up + 1) else t1;
    var t3 := if r.vote == -1 then t2.(down := t2.down - 1) else t2;
    if user.Some? && r.origin == user.value then t3.(currentUsersVote := r.vote) else t3
  }

  /** The tally of a stream of vote records, folded in stream order. */
  function TallyOf(rs: seq<VoteRecord>, user: Option<Url>): Tally {
    if rs == [] then EMPTY_TALLY
    else TallyStep(TallyOf(rs[..|rs| - 1], user), rs[|rs| - 1], user)
  }

  predicate IsUp(r: VoteRecord) {
    r.vote == 1
  }

  predicate IsDown(r: VoteRecord) {
    r.vote == -1
  }

  /** The signed sum of the vote values. */
  function SumVotes(rs: seq<VoteRecord>): int {
    if rs == [] then 0 else rs[0].vote + SumVotes(rs[1..])
  }

  /** The origins of a list of vote records, in order. */
  function Origins(rs: seq<VoteRecord>): (os: seq<Url>)
    ensures |os| == |rs|
  {
    if rs == [] then [] else [rs[0].origin] + Origins(rs[1..])
  }

  lemma {:induction false} SumVotesAppend(rs: seq<VoteRecord>, ts: seq<VoteRecord>)
    ensures SumVotes(rs + ts) == SumVotes(rs) + SumVotes(ts)
  {
    if rs == [] {
      assert rs + ts == ts;
    } else {
      assert (rs + ts)[1..] == rs[1..] + ts;
      SumVotesAppend(rs[1..], ts);
    }
  }

  lemma {:induction false} OriginsAppend(rs: seq<VoteRecord>, ts: seq<VoteRecord>)
    ensures Origins(rs + ts) == Origins(rs) + Origins(ts)
  {
    if rs == [] {
      assert rs + ts == ts;
    } else {
      assert (rs + ts)[1..] == rs[1..] + ts;
      OriginsAppend(rs[1..], ts);
    }
  }

  /** The effect of one fold step on each field. */
  lemma TallyStepFields(t: Tally, r: VoteRecord, user: Option<Url>)
    ensures TallyStep(t, r, user).up == t.up + (if IsUp(r) then 1 else 0)
    ensures TallyStep(t, r, user).down == t.down - (if IsDown(r) then 1 else 0)
    ensures TallyStep(t, r, user).value == t.value + r.vote
    ensures TallyStep(t, r, user).upVoters == t.upVoters + (if IsUp(r) then [r.origin] else [])
    ensures TallyStep(t, r, user).currentUsersVote ==
      if user.Some? && r.origin == user.value then r.vote else t.currentUsersVote
  {
  }

  /** `up` counts the up votes. */
  lemma {:induction false} TallyUpCounts(rs: seq<VoteRecord>, user: Option<Url>)
    ensures TallyOf(rs, user).up == |Filter(rs, IsUp)|
  {
    if rs != [] {
      var init, last := rs[..|rs| - 1], rs[|rs| - 1];
      assert rs == init + [last];
      TallyUpCounts(init, user);
      FilterAppend(init, [last], IsUp);
      TallyStepFields(TallyOf(init, user), last, user);
    }
  }

  /** `down` is minus the number of down votes. */
  lemma {:induction false} TallyDownCounts(rs: seq<VoteRecord>, user: Option<Url>)
    ensures TallyOf(rs, user).down == -|Filter(rs, IsDown)|
  {
    if rs != [] {
      var init, last := rs[..|rs| - 1], rs[|rs| - 1];
      assert rs == init + [last];
      TallyDownCounts(init, user);
      FilterAppend(init, [last], IsDown);
      TallyStepFields(TallyOf(init, user), last, user);
    }
  }

  /** `value` is the signed sum of all vote values. */
  lemma {:induction false} TallyValueSums(rs: seq<VoteRecord>, user: Option<Url>)
    ensures TallyOf(rs, user).value == SumVotes(rs)
  {
    if rs != [] {
      var init, last := rs[..|rs| - 1], rs[|rs| - 1];
      assert rs == init + [last];
      TallyValueSums(init, user);
      SumVotesAppend(init, [last]);
      TallyStepFields(TallyOf(init, user), last, user);
    }
  }

  /** `upVoters` lists the origins of the up votes, in stream order. */
  lemma {:induction false} TallyUpVoters(rs: seq<VoteRecord>, user: Option<Url>)
    ensures TallyOf(rs, user).upVoters == Origins(Filter(rs, IsUp))
  {
    if rs != [] {
      var init, last := rs[..|rs| - 1], rs[|rs| - 1];
      assert rs == init + [last];
      TallyUpVoters(init, user);
      FilterAppend(init, [last], IsUp);
      OriginsAppend(Filter(init, IsUp), Filter([last], IsUp));
      TallyStepFields(TallyOf(init, user), last, user);
    }
  }

  /** `currentUsersVote` is the vote of the user's last record in the stream,
      and 0 when the user has none (or there is no user). */
  lemma {:induction false} CurrentUsersVoteIsLatest(rs: seq<VoteRecord>, user: Option<Url>)
    ensures (user.None? || forall i :: 0 <= i < |rs| ==> rs[i].origin != user.value) ==>
      TallyOf(rs, user).currentUsersVote == 0
    ensures user.Some? ==> forall i ::
      (0 <= i < |rs| && rs[i].origin == user.value && forall j :: i < j < |rs| ==> rs[j].origin != user.value) ==>
        TallyOf(rs, user).currentUsersVote == rs[i].vote
  {
    if rs != [] {
      var init := rs[..|rs| - 1];
      CurrentUsersVoteIsLatest(init, user);
      TallyStepFields(TallyOf(init, user), rs[|rs| - 1], user);
      assert forall i :: 0 <= i < |init| ==> init[i] == rs[i];
    }
  }

  /** The sum of votes limited to -1, 0 and 1 is ups minus downs. */
  lemma {:induction false} SumOfUnitVotes(rs: seq<VoteRecord>)
    requires forall i :: 0 <= i < |rs| ==> -1 <= rs[i].vote <= 1
    ensures SumVotes(rs) == |Filter(rs, IsUp)| - |Filter(rs, IsDown)|
  {
    if rs != [] {
      SumOfUnitVotes(rs[1..]);
    }
  }

  /** With the signed `down`, every tally has `down <= 0`, as many up voters
      as up votes, and, for votes in {-1, 0, 1}, `value == up + down`. */
  lemma TallyBalance(rs: seq<VoteRecord>, user: Option<Url>)
    ensures TallyOf(rs, user).down <= 0
    ensures |TallyOf(rs, user).upVoters| == TallyOf(rs, user).up
    ensures (forall i :: 0 <= i < |rs| ==> -1 <= rs[i].vote <= 1) ==>
      TallyOf(rs, user).value == TallyOf(rs, user).up + TallyOf(rs, user).down
  {
    TallyUpCounts(rs, user);
    TallyDownCounts(rs, user);
    TallyValueSums(rs, user);
    TallyUpVoters(rs, user);
    if forall i :: 0 <= i < |rs| ==> -1 <= rs[i].vote <= 1 {
      SumOfUnitVotes(rs);
    }
  }

  /** After a vote, countVotes for its subject, seen by the voter, reports
      that vote as the current user's vote. */
  lemma VoteIsCurrentUsersVote(vs: seq<VoteRecord>, rec: VoteRecord)
    ensures TallyOf(VotesFor(Recorded(vs, rec), rec.subject), Some(rec.origin)).currentUsersVote == rec.vote
  {
    var earlier := VotesFor(Filter(vs, OtherKey(rec)), rec.subject);
    FilterAppend(Filter(vs, OtherKey(rec)), [rec], AboutSubject(rec.subject));
    assert VotesFor(Recorded(vs, rec), rec.subject) == earlier + [rec];
    assert (earlier + [rec])[..|earlier|] == earlier;
  }

  /** Votes +1, +1, -1 tally to value 1, up 2, two up voters and down -1. */
  lemma TallyExample(a: Url, b: Url, c: Url, subject: Url)
    ensures var t := TallyOf([VoteRecord(a, subject, 1, 1), VoteRecord(b, subject, 1, 2), VoteRecord(c, subject, -1, 3)], None);
      t.value == 1 && t.up == 2 && t.upVoters == [a, b] && t.down == -1
  {
    var r0, r1, r2 := VoteRecord(a, subject, 1, 1), VoteRecord(b, subject, 1, 2), VoteRecord(c, subject, -1, 3);
    assert [r0, r1, r2][..2] == [r0, r1];
    assert [r0, r1][..1] == [r0];
    assert [r0][..0] == [];
    assert TallyOf([r0], None) == TallyStep(EMPTY_TALLY, r0, None);
    assert TallyOf([r0, r1], None) == TallyStep(TallyOf([r0], None), r1, None);
  }
}
