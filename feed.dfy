/** The broadcast feed: the query plan getBroadcastsQuery builds, the
    pagination steps it applies, and the records listBroadcasts returns. */
module Feed {
  import opened Base
  import opened Seqs
  import opened Profiles
  import opened Votes

  /** An upper bound on `createdAt`; `Infinity` when none was given. */
  datatype Bound = Finite(n: int) | Infinity

  /** The access path of a broadcast query. */
  datatype AccessPath =
    | OriginTimeRange(author: Url, after: int, before: Bound)  // '_origin+createdAt' between [author, after] and [author, before]
    | TimeRange(after: int, before: Bound)                     // 'createdAt' between after and before
    | OrderedByTime                                            // the whole collection ordered by 'createdAt'

  /** A step applied to the ranged, ordered result. */
  datatype Step = Offset(n: nat) | Limit(n: nat) | Reverse

  datatype QueryPlan = QueryPlan(access: AccessPath, steps: seq<Step>)

  /** The options of getBroadcastsQuery; an absent option is `None`. */
  datatype BroadcastOptions = BroadcastOptions(
    author: Option<Url>,
    after: Option<int>,
    before: Option<int>,
    offset: Option<nat>,
    limit: Option<nat>,
    reverse: bool)

  /** JavaScript truthiness of an optional number: present and not 0. */
  predicate IsSet(x: Option<int>) {
    x.Some? && x.value != 0
  }

  predicate HasAuthor(opts: BroadcastOptions) {
    opts.author.Some? && opts.author.value != ""
  }

  /** `after || 0` */
  function LowerBound(after: Option<int>): int {
    if IsSet(after) then after.value else 0
  }

  /** `before || Infinity` */
  function UpperBound(before: Option<int>): Bound {
    if IsSet(before) then Finite(before.value) else Infinity
  }

  /** The plan getBroadcastsQuery builds from its options. */
  function BroadcastsQuery(opts: BroadcastOptions): QueryPlan {
    var access :=
      if HasAuthor(opts) then OriginTimeRange(opts.author.value, LowerBound(opts.after), UpperBound(opts.before))
      else if IsSet(opts.after) || IsSet(opts.before) then TimeRange(LowerBound(opts.after), UpperBound(opts.before))
      else OrderedByTime;
    var offset := if IsSet(opts.offset) then [Offset(opts.offset.value)] else [];
    var limit := if IsSet(opts.limit) then [Limit(opts.limit.value)] else [];
    var reverse := if opts.reverse then [Reverse] else [];
    QueryPlan(access, offset + limit + reverse)
  }

  /** getBroadcastsQuery: starts from the collection and reassigns the query
      once per option that applies. */
  method GetBroadcastsQuery(opts: BroadcastOptions) returns (plan: QueryPlan)
    ensures plan == BroadcastsQuery(opts)
  {
    var access: AccessPath;
    if HasAuthor(opts) {
      var after := if IsSet(opts.after) then opts.after.value else 0;
      var before := if IsSet(opts.before) then Finite(opts.before.value) else Infinity;
      access := OriginTimeRange(opts.author.value, after, before);
    } else if IsSet(opts.after) || IsSet(opts.before) {
      var after := if IsSet(opts.after) then opts.after.value else 0;
      var before := if IsSet(opts.before) then Finite(opts.before.value) else Infinity;
      access := TimeRange(after, before);
    } else {
      access := OrderedByTime;
    }
    plan := QueryPlan(access, []);
    if IsSet(opts.offset) {
      plan := plan.(steps := plan.steps + [Offset(opts.offset.value)]);
    }
    if IsSet(opts.limit) {
      plan := plan.(steps := plan.steps + [Limit(opts.limit.value)]);
    }
    if opts.reverse {
      plan := plan.(steps := plan.steps + [Reverse]);
    }
  }

  /** The collections the schema of `open` declares. */
  const DECLARED_COLLECTIONS: set<string> := {"profile", "prescripts", "subscripts", "postscripts", "votes"}

  /** getBroadcastsQuery as written: the query starts from `db.broadcasts`,
      which is a collection only when the schema declares one; otherwise it
      is undefined and the first `where` or `orderBy` call on it throws. */
  function BroadcastsQueryAsWritten(declared: set<string>, opts: BroadcastOptions): (r: Result<QueryPlan>)
    ensures r.Err? <==> "broadcasts" !in declared
    ensures r.Err? ==> r.error == CollectionUndefined
    ensures r.Ok? ==> r.value == BroadcastsQuery(opts)
  {
    if "broadcasts" in declared then Ok(BroadcastsQuery(opts)) else Err(CollectionUndefined)
  }

  /** Under the schema as declared, every call fails, whatever its options. */
  lemma BroadcastsQueryAlwaysFails(opts: BroadcastOptions)
    ensures BroadcastsQueryAsWritten(DECLARED_COLLECTIONS, opts) == Err(CollectionUndefined)
  {
  }

  /** The access path is chosen by which options are set: an author gives the
      compound per-author range, otherwise a set `after` or `before` gives the
      time range, otherwise the whole collection in time order. A range's
      lower bound is 0 exactly when `after` is unset, and it is unbounded
      above exactly when `before` is unset. */
  lemma AccessPathChoice(opts: BroadcastOptions)
    ensures BroadcastsQuery(opts).access.OriginTimeRange? <==> HasAuthor(opts)
    ensures BroadcastsQuery(opts).access.TimeRange? <==>
      !HasAuthor(opts) && (IsSet(opts.after) || IsSet(opts.before))
    ensures BroadcastsQuery(opts).access.OrderedByTime? <==>
      !HasAuthor(opts) && !IsSet(opts.after) && !IsSet(opts.before)
    ensures HasAuthor(opts) ==> BroadcastsQuery(opts).access.author == opts.author.value
    ensures !BroadcastsQuery(opts).access.OrderedByTime? ==>
      && (BroadcastsQuery(opts).access.after == 0 <==> !IsSet(opts.after))
      && (BroadcastsQuery(opts).access.before == Infinity <==> !IsSet(opts.before))
      && (IsSet(opts.after) ==> BroadcastsQuery(opts).access.after == opts.after.value)
      && (IsSet(opts.before) ==> BroadcastsQuery(opts).access.before == Finite(opts.before.value))
  {
  }

  /** A 0 given for a numeric option plans the same query as no value. */
  lemma ZeroIsOmitted(opts: BroadcastOptions)
    ensures BroadcastsQuery(opts.(offset := Some(0))) == BroadcastsQuery(opts.(offset := None))
    ensures BroadcastsQuery(opts.(limit := Some(0))) == BroadcastsQuery(opts.(limit := None))
    ensures BroadcastsQuery(opts.(after := Some(0))) == BroadcastsQuery(opts.(after := None))
    ensures BroadcastsQuery(opts.(before := Some(0))) == BroadcastsQuery(opts.(before := None))
  {
  }

  /** The meaning of one step on a result sequence: offset n skips the first
      n rows, limit n keeps at most the first n rows, reverse reverses. */
  function RunStep<T>(step: Step, rows: seq<T>): seq<T> {
    match step
    case Offset(n) => if n <= |rows| then rows[n..] else []
    case Limit(n) => if n <= |rows| then rows[..n] else rows
    case Reverse => Reversed(rows)
  }

  /** The steps of a plan applied in order, first to last. */
  function RunSteps<T>(steps: seq<Step>, rows: seq<T>): seq<T>
    decreases |steps|
  {
    if steps == [] then rows else RunSteps(steps[1..], RunStep(steps[0], rows))
  }

  lemma {:induction false} RunStepsAppend<T>(s: seq<Step>, t: seq<Step>, rows: seq<T>)
    ensures RunSteps(s + t, rows) == RunSteps(t, RunSteps(s, rows))
    decreases |s|
  {
    if s == [] {
      assert s + t == t;
    } else {
      assert (s + t)[1..] == s[1..] + t;
      RunStepsAppend(s[1..], t, RunStep(s[0], rows));
    }
  }

  /** The page rows `[offset, offset + limit)` of `rows`, clipped to `rows`. */
  function Page<T>(rows: seq<T>, offset: nat, limit: Option<nat>): (page: seq<T>)
    ensures |page| <= |rows|
    ensures forall i :: 0 <= i < |page| ==> offset + i < |rows| && page[i] == rows[offset + i]
    ensures offset <= |rows| && limit.Some? && offset + limit.value <= |rows| ==> |page| == limit.value
    ensures offset <= |rows| && (limit.None? || |rows| < offset + limit.value) ==> |page| == |rows| - offset
  {
    var skipped := if offset <= |rows| then rows[offset..] else [];
    if limit.Some? && limit.value <= |skipped| then skipped[..limit.value] else skipped
  }

  /** Whatever the access path returns, the plan's steps take the page that
      starts at the offset and holds at most `limit` rows (a 0 or missing
      offset or limit standing for none), and reverse that page when
      `reverse` is set: offset, then limit, then reverse. */
  lemma PlanSelectsPage<T>(opts: BroadcastOptions, rows: seq<T>)
    ensures var page := Page(rows, if IsSet(opts.offset) then opts.offset.value else 0,
                                   if IsSet(opts.limit) then opts.limit else None);
      RunSteps(BroadcastsQuery(opts).steps, rows) == if opts.reverse then Reversed(page) else page
  {
    var offset := if IsSet(opts.offset) then [Offset(opts.offset.value)] else [];
    var limit := if IsSet(opts.limit) then [Limit(opts.limit.value)] else [];
    var reverse := if opts.reverse then [Reverse] else [];
    RunStepsAppend(offset + limit, reverse, rows);
    RunStepsAppend(offset, limit, rows);
    var skipped := RunSteps(offset, rows);
    assert skipped == if IsSet(opts.offset) then RunStep(Offset(opts.offset.value), rows) else rows;
    assert RunSteps(limit, skipped) == if IsSet(opts.limit) then RunStep(Limit(opts.limit.value), skipped) else skipped;
  }

  /** Setting `reverse` yields exactly the reversed page of the same query. */
  lemma ReverseReversesPage<T>(opts: BroadcastOptions, rows: seq<T>)
    ensures RunSteps(BroadcastsQuery(opts.(reverse := true)).steps, rows) ==
            Reversed(RunSteps(BroadcastsQuery(opts.(reverse := false)).steps, rows))
  {
    PlanSelectsPage(opts.(reverse := true), rows);
    PlanSelectsPage(opts.(reverse := false), rows);
  }

  /** A broadcast record of the index (prescript, subscript or postscript);
      its content fields play no part in the feed logic. */
  datatype Broadcast = Broadcast(url: Url, origin: Url, createdAt: int)

  /** The `author` field listBroadcasts attaches: absent unless requested,
      and then the author's profile or nothing when there is none. */
  datatype Author = NotFetched | Fetched(profile: Option<Profile>)

  /** A broadcast as listBroadcasts returns it. */
  datatype ListedBroadcast = ListedBroadcast(record: Broadcast, author: Author, votes: Option<Tally>)

  /** The distinct origins among `rows`, the lookups the memo must issue. */
  function OriginsOf(rows: seq<Broadcast>): set<Url> {
    set i | 0 <= i < |rows| :: rows[i].origin
  }
}
