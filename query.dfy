/** The query side of the grievance routes: the status filter parsed from
    `?status=`, the Mongo filter the list route builds from it, the
    find/sort/skip/limit and count the database then runs, the paging
    clamps, and the grouping behind `/stats`. */
module Query {
  import opened Common
  import opened Text
  import opened Users
  import opened GrievanceModel

  // ---------------------------------------------------------------------
  // Status tokens

  /** `.map(s => s.trim().toLowerCase()).filter(Boolean)` over the parts. */
  function CleanTokens(parts: seq<string>): (tokens: seq<string>)
    ensures |tokens| <= |parts|
    ensures forall i :: 0 <= i < |tokens| ==> tokens[i] != "" && Lower(tokens[i]) == tokens[i]
  {
    if |parts| == 0 then []
    else
      var t := Lower(Trim(parts[0]));
      var rest := CleanTokens(parts[1..]);
      LowerIdempotent(Trim(parts[0]));
      if t == "" then rest else [t] + rest
  }

  /** A token is kept exactly when it is non-empty and some part trims and
      lowercases to it. */
  lemma {:induction false} CleanTokensMembers(parts: seq<string>, t: string)
    ensures t in CleanTokens(parts) <==>
      t != "" && exists i :: 0 <= i < |parts| && Lower(Trim(parts[i])) == t
  {
    if |parts| > 0 {
      var tail := parts[1..];
      var h := Lower(Trim(parts[0]));
      CleanTokensMembers(tail, t);
      assert t in CleanTokens(parts) <==> (h != "" && t == h) || t in CleanTokens(tail) by {
        assert CleanTokens(parts) == if h == "" then CleanTokens(tail) else [h] + CleanTokens(tail);
      }
      if exists i :: 0 <= i < |tail| && Lower(Trim(tail[i])) == t {
        var i :| 0 <= i < |tail| && Lower(Trim(tail[i])) == t;
        assert parts[i + 1] == tail[i];
      }
      if exists i :: 0 <= i < |parts| && Lower(Trim(parts[i])) == t {
        var i :| 0 <= i < |parts| && Lower(Trim(parts[i])) == t;
        if i > 0 {
          assert tail[i - 1] == parts[i];
        }
      }
    }
  }

  /** The requested statuses: the query string split on commas, each part
      trimmed and lowercased, empty parts dropped. */
  function StatusTokens(status: string): (tokens: seq<string>)
    ensures forall i :: 0 <= i < |tokens| ==> tokens[i] != "" && Lower(tokens[i]) == tokens[i]
  {
    CleanTokens(Split(status, ','))
  }

  // ---------------------------------------------------------------------
  // The Mongo filter and what it matches

  /** One alternative of the `$or` the list route builds when `open` is
      requested. */
  datatype Condition =
    | OpenOrPending           // { status: { $regex: /^(open|pending)$/i } }
    | StatusMissing           // { status: { $exists: false } }
    | StatusNull              // { status: null }
    | StatusLike(token: string) // { status: { $regex: `^${token}$`, $options: 'i' } }

  datatype StatusClause =
    | AnyStatus                          // no status key in the filter
    | AnyOf(conditions: seq<Condition>)  // filter.$or
    | InTokens(tokens: seq<string>)      // filter.status = { $in: [/^t$/i, ...] }

  /** `filter.createdBy` (when set) and the status part. */
  datatype MongoFilter = MongoFilter(owner: Option<UserId>, status: StatusClause)

  predicate ConditionHolds(c: Condition, s: Option<string>) {
    match c
    case OpenOrPending => s.Some? && (Lower(s.value) == "open" || Lower(s.value) == "pending")
    case StatusMissing => s.None?
    case StatusNull => s.None?
    case StatusLike(t) => s.Some? && EqualsIgnoringCase(s.value, t)
  }

  predicate ClauseHolds(c: StatusClause, s: Option<string>) {
    match c
    case AnyStatus => true
    case AnyOf(cs) => exists i :: 0 <= i < |cs| && ConditionHolds(cs[i], s)
    case InTokens(ts) => s.Some? && exists i :: 0 <= i < |ts| && EqualsIgnoringCase(s.value, ts[i])
  }

  /** Whether the database returns a record for a filter. */
  predicate Matches(f: MongoFilter, g: Grievance) {
    (f.owner.None? || g.createdBy == f.owner.value) && ClauseHolds(f.status, g.status)
  }

  // ---------------------------------------------------------------------
  // The documented selection rule, stated independently of the filter

  /** Role scoping: a non-admin sees only their own grievances. */
  predicate Visible(caller: UserView, g: Grievance) {
    caller.role == AdminRole || g.createdBy == caller.id
  }

  /** With `open` requested: open or pending in any case, missing, or any
      other requested status. Without it: a present status equal, ignoring
      case, to a requested one. */
  predicate StatusSelected(tokens: seq<string>, s: Option<string>) {
    if "open" in tokens then
      s.None? || Lower(s.value) == "open" || Lower(s.value) == "pending" || Lower(s.value) in tokens
    else
      s.Some? && Lower(s.value) in tokens
  }

  /** A record belongs to a list answer for `caller` and `?status=`
      (the empty string when the parameter is absent). */
  predicate Selected(caller: UserView, status: string, g: Grievance) {
    Visible(caller, g) && (status == "" || StatusSelected(StatusTokens(status), g.status))
  }

  /** The `$or` list: the three fixed alternatives, then one per other
      requested token. */
  predicate OpenAlternatives(alternatives: seq<Condition>, others: seq<string>) {
    && |alternatives| == 3 + |others|
    && alternatives[0] == OpenOrPending && alternatives[1] == StatusMissing && alternatives[2] == StatusNull
    && forall k :: 0 <= k < |others| ==> alternatives[3 + k] == StatusLike(others[k])
  }

  /** The `$or` clause selects exactly what the documented rule selects
      when `open` is among the tokens. */
  lemma OpenClauseMeaning(requested: seq<string>, alternatives: seq<Condition>, s: Option<string>)
    requires "open" in requested
    requires forall i :: 0 <= i < |requested| ==> Lower(requested[i]) == requested[i]
    requires OpenAlternatives(alternatives, Filter(requested, (t: string) => t != "open"))
    ensures ClauseHolds(AnyOf(alternatives), s) <==> StatusSelected(requested, s)
  {
    var others := Filter(requested, (t: string) => t != "open");
    if ClauseHolds(AnyOf(alternatives), s) {
      OpenClauseSound(requested, others, alternatives, s);
    }
    if StatusSelected(requested, s) {
      OpenClauseComplete(requested, others, alternatives, s);
    }
  }

  /** Whatever an alternative of the `$or` selects, the rule selects. */
  lemma OpenClauseSound(requested: seq<string>, others: seq<string>, alternatives: seq<Condition>, s: Option<string>)
    requires forall i :: 0 <= i < |requested| ==> Lower(requested[i]) == requested[i]
    requires forall k :: 0 <= k < |others| ==> others[k] in requested
    requires OpenAlternatives(alternatives, others)
    requires ClauseHolds(AnyOf(alternatives), s)
    ensures s.None? || Lower(s.value) == "open" || Lower(s.value) == "pending" || Lower(s.value) in requested
  {
    var i :| 0 <= i < |alternatives| && ConditionHolds(alternatives[i], s);
    if i >= 3 {
      var t := others[i - 3];
      assert alternatives[i] == StatusLike(t);
      LikeTokenSound(requested, t, s.value);
    }
  }

  /** A status equal, ignoring case, to a lowercase requested token is
      itself requested once lowercased. */
  lemma LikeTokenSound(requested: seq<string>, t: string, v: string)
    requires forall i :: 0 <= i < |requested| ==> Lower(requested[i]) == requested[i]
    requires t in requested && EqualsIgnoringCase(v, t)
    ensures Lower(v) in requested
  {
    var j :| 0 <= j < |requested| && requested[j] == t;
    assert Lower(v) == requested[j];
  }

  /** Whatever the rule selects, some alternative of the `$or` selects. */
  lemma OpenClauseComplete(requested: seq<string>, others: seq<string>, alternatives: seq<Condition>, s: Option<string>)
    requires forall t :: t in requested && t != "open" ==> t in others
    requires OpenAlternatives(alternatives, others)
    requires s.None? || Lower(s.value) == "open" || Lower(s.value) == "pending" || Lower(s.value) in requested
    ensures ClauseHolds(AnyOf(alternatives), s)
  {
    if s.None? {
      assert ConditionHolds(alternatives[1], s);
    } else if Lower(s.value) == "open" || Lower(s.value) == "pending" {
      assert ConditionHolds(alternatives[0], s);
    } else {
      var k :| 0 <= k < |others| && others[k] == Lower(s.value);
      LowerIdempotent(s.value);
      assert ConditionHolds(alternatives[3 + k], s);
    }
  }

  /** The `$in` clause selects exactly what the documented rule selects
      when `open` is not among the tokens. */
  lemma InTokensMeaning(requested: seq<string>, s: Option<string>)
    requires "open" !in requested
    requires forall i :: 0 <= i < |requested| ==> Lower(requested[i]) == requested[i]
    ensures ClauseHolds(InTokens(requested), s) <==> StatusSelected(requested, s)
  {
    if ClauseHolds(InTokens(requested), s) {
      var i :| 0 <= i < |requested| && EqualsIgnoringCase(s.value, requested[i]);
      assert Lower(s.value) == requested[i];
    }
    if StatusSelected(requested, s) {
      var j :| 0 <= j < |requested| && requested[j] == Lower(s.value);
      LowerIdempotent(s.value);
      assert EqualsIgnoringCase(s.value, requested[j]);
    }
  }

  /** Pushes one `$or` alternative per token after the three fixed ones. */
  method OpenAlternativesFor(others: seq<string>) returns (alternatives: seq<Condition>)
    ensures OpenAlternatives(alternatives, others)
  {
    alternatives := [OpenOrPending, StatusMissing, StatusNull];
    var i := 0;
    while i < |others|
      invariant 0 <= i <= |others|
      invariant OpenAlternatives(alternatives, others[..i])
    {
      alternatives := alternatives + [StatusLike(others[i])];
      i := i + 1;
    }
    assert others[..i] == others;
  }

  /** The status part of the list filter for a non-empty `?status=`. It
      holds for a stored status exactly when the documented rule selects it. */
  method StatusClauseFor(status: string) returns (clause: StatusClause)
    requires status != ""
    ensures forall s :: ClauseHolds(clause, s) <==> StatusSelected(StatusTokens(status), s)
  {
    var requested := StatusTokens(status);
    if "open" in requested {
      var alternatives := OpenAlternativesFor(Filter(requested, (t: string) => t != "open"));
      forall s: Option<string> ensures ClauseHolds(AnyOf(alternatives), s) <==> StatusSelected(requested, s) {
        OpenClauseMeaning(requested, alternatives, s);
      }
      clause := AnyOf(alternatives);
    } else {
      forall s: Option<string> ensures ClauseHolds(InTokens(requested), s) <==> StatusSelected(requested, s) {
        InTokensMeaning(requested, s);
      }
      clause := InTokens(requested);
    }
  }

  /** Builds the list route's filter field by field: the owner for a
      non-admin, then the status part. The filter matches a record exactly
      when the documented selection rule selects it. */
  method BuildFilter(caller: UserView, status: string) returns (f: MongoFilter)
    ensures f.owner == if caller.role == AdminRole then None else Some(caller.id)
    ensures status == "" ==> f.status == AnyStatus
    ensures forall g :: Matches(f, g) <==> Selected(caller, status, g)
  {
    var owner: Option<UserId> := None;
    if caller.role != AdminRole {
      owner := Some(caller.id);
    }
    var clause := AnyStatus;
    if status != "" {
      clause := StatusClauseFor(status);
    }
    f := MongoFilter(owner, clause);
  }

  /** `?status=,` selects nothing: the token list is empty and the `$in`
      of nothing matches no record. */
  lemma BlankTokensSelectNothing(caller: UserView, g: Grievance)
    ensures StatusTokens(",") == []
    ensures !Selected(caller, ",", g)
  {
    var parts := Split(",", ',');
    assert Split("", ',') == [""];
    assert parts == ["", ""];
    assert Trim("") == "";
    assert Lower("") == "";
    assert forall t :: t in StatusTokens(",") ==> t == "";
  }

  /** More generally, a non-empty `?status=` whose every comma-separated
      part is blank yields no tokens and selects nothing. */
  lemma BlankPartsSelectNothing(caller: UserView, status: string, g: Grievance)
    requires status != ""
    requires forall i :: 0 <= i < |Split(status, ',')| ==> Trim(Split(status, ',')[i]) == ""
    ensures StatusTokens(status) == []
    ensures !Selected(caller, status, g)
  {
    BlankPartsNoTokens(Split(status, ','));
  }

  lemma {:induction false} BlankPartsNoTokens(parts: seq<string>)
    requires forall i :: 0 <= i < |parts| ==> Trim(parts[i]) == ""
    ensures CleanTokens(parts) == []
  {
    if |parts| > 0 {
      BlankPartsNoTokens(parts[1..]);
      assert Lower(Trim(parts[0])) == [];
    }
  }

  // ---------------------------------------------------------------------
  // find(filter).sort({ createdAt: -1 }).skip(skip).limit(limit)

  predicate NewestFirst(gs: seq<Grievance>) {
    forall i, j :: 0 <= i < j < |gs| ==> gs[i].createdAt >= gs[j].createdAt
  }

  /** Insert one record before every record that is not newer than it. */
  function InsertByDate(g: Grievance, gs: seq<Grievance>): (r: seq<Grievance>)
    ensures |r| == |gs| + 1
  {
    if |gs| == 0 then [g]
    else if g.createdAt >= gs[0].createdAt then [g] + gs
    else [gs[0]] + InsertByDate(g, gs[1..])
  }

  /** Inserting into a newest-first sequence keeps it newest first; the
      new head is the inserted record or the old head. */
  lemma {:induction false} InsertKeepsOrder(g: Grievance, gs: seq<Grievance>)
    requires NewestFirst(gs)
    ensures NewestFirst(InsertByDate(g, gs))
    ensures var r := InsertByDate(g, gs); r[0] == g || (|gs| > 0 && r[0] == gs[0])
  {
    if |gs| > 0 && g.createdAt < gs[0].createdAt {
      var rest := InsertByDate(g, gs[1..]);
      InsertKeepsOrder(g, gs[1..]);
      var r := [gs[0]] + rest;
      assert r == InsertByDate(g, gs);
      assert gs[0].createdAt >= rest[0].createdAt by {
        if rest[0] != g { assert rest[0] == gs[1..][0] == gs[1]; }
      }
      forall i, j | 0 <= i < j < |r| ensures r[i].createdAt >= r[j].createdAt {
        assert r[j] == rest[j - 1];
        if i == 0 {
          assert rest[0].createdAt >= rest[j - 1].createdAt;
        } else {
          assert r[i] == rest[i - 1];
        }
      }
    }
  }

  /** Inserting adds exactly the one record. */
  lemma {:induction false} InsertPermutes(g: Grievance, gs: seq<Grievance>)
    ensures multiset(InsertByDate(g, gs)) == multiset(gs) + multiset{g}
  {
    if |gs| > 0 && g.createdAt < gs[0].createdAt {
      InsertPermutes(g, gs[1..]);
      assert gs == [gs[0]] + gs[1..];
    }
  }

  /** The database's sort: newest first (ties kept in store order). */
  function SortNewestFirst(gs: seq<Grievance>): (r: seq<Grievance>)
    ensures NewestFirst(r)
    ensures multiset(r) == multiset(gs)
  {
    if |gs| == 0 then []
    else
      var sorted := SortNewestFirst(gs[1..]);
      InsertKeepsOrder(gs[0], sorted);
      InsertPermutes(gs[0], sorted);
      assert gs == [gs[0]] + gs[1..];
      InsertByDate(gs[0], sorted)
  }

  /** `.skip(skip).limit(limit)`. */
  function Window<T>(s: seq<T>, skip: nat, limit: nat): (r: seq<T>)
    ensures |r| <= limit && |r| <= |s|
    ensures |r| == if skip >= |s| then 0 else Min(limit, |s| - skip)
    ensures forall i :: 0 <= i < |r| ==> skip + i < |s| && r[i] == s[skip + i]
    ensures skip + limit <= |s| ==> |r| == limit
  {
    if skip >= |s| then [] else s[skip..Min(skip + limit, |s|)]
  }

  /** `parseInt(req.query.limit || '20')` clamped to [1, 200]; `None`
      stands for an absent or empty parameter. */
  function ClampLimit(limit: Option<int>): (r: nat)
    ensures 1 <= r <= 200
    ensures limit.None? ==> r == 20
    ensures limit.Some? && 1 <= limit.value <= 200 ==> r == limit.value
    ensures limit.Some? && limit.value < 1 ==> r == 1
    ensures limit.Some? && limit.value > 200 ==> r == 200
  {
    var n := if limit.None? then 20 else limit.value;
    var capped := if n < 200 then n else 200;
    if capped < 1 then 1 else capped
  }

  /** `parseInt(req.query.page || '1')`, at least 1 and not bounded above. */
  function ClampPage(page: Option<int>): (r: nat)
    ensures r >= 1
    ensures page.None? ==> r == 1
    ensures page.Some? && page.value >= 1 ==> r == page.value
    ensures page.Some? && page.value < 1 ==> r == 1
  {
    var n := if page.None? then 1 else page.value;
    if n < 1 then 1 else n
  }

  /** `(page - 1) * limit`: how many records come before the page. */
  function SkipFor(page: nat, limit: nat): (skip: nat)
    requires page >= 1
    ensures page == 1 ==> skip == 0
  {
    (page - 1) * limit
  }

  /** Consecutive pages neither overlap nor leave a gap: page `page`
      followed by page `page + 1` is the window of twice the limit, and
      each later page skips one more full page than the one before it. */
  lemma NextPageFollows<T>(s: seq<T>, page: nat, limit: nat)
    requires page >= 1
    ensures SkipFor(page + 1, limit) == SkipFor(page, limit) + limit
    ensures Window(s, SkipFor(page, limit), limit) + Window(s, SkipFor(page + 1, limit), limit)
         == Window(s, SkipFor(page, limit), 2 * limit)
  {
    var a := SkipFor(page, limit);
    var first := Window(s, a, limit);
    var second := Window(s, a + limit, limit);
    var both := Window(s, a, 2 * limit);
    assert |first + second| == |both|;
    forall i | 0 <= i < |both|
      ensures (first + second)[i] == both[i]
    {
      if i >= |first| {
        assert i - |first| < |second|;
      }
    }
  }

  /** What the list route answers. */
  datatype ListReply = ListReply(list: seq<Grievance>, total: nat, page: nat, limit: nat)

  /** The records a list request selects, in store order. */
  function MatchingRecords(records: seq<Grievance>, caller: UserView, status: string): seq<Grievance> {
    Filter(records, (g: Grievance) => Selected(caller, status, g))
  }

  /** A filter equivalent to the selection rule finds exactly the
      matching records, and counting with it counts them. */
  lemma MatchingIsFiltered(records: seq<Grievance>, f: MongoFilter, caller: UserView, status: string)
    requires forall g :: Matches(f, g) <==> Selected(caller, status, g)
    ensures Filter(records, (g: Grievance) => Matches(f, g)) == MatchingRecords(records, caller, status)
    ensures Count(records, (g: Grievance) => Matches(f, g)) == |MatchingRecords(records, caller, status)|
  {
    FilterAgrees(records, (g: Grievance) => Matches(f, g), (g: Grievance) => Selected(caller, status, g));
    CountIsFilterLength(records, (g: Grievance) => Matches(f, g));
  }

  /** The number of records a list request selects is the number the
      selection rule counts. */
  lemma MatchingCount(records: seq<Grievance>, caller: UserView, status: string)
    ensures |MatchingRecords(records, caller, status)| == Count(records, (g: Grievance) => Selected(caller, status, g))
  {
    CountIsFilterLength(records, (g: Grievance) => Selected(caller, status, g));
  }

  // ---------------------------------------------------------------------
  // Stats: $match, $project { status: $toLower($ifNull($status, 'open')) },
  // $group by status, then the two reduces of the route.

  /** The status a record is counted under: missing or null counts as
      `open`, everything else is lowercased (so `pending` keeps its own
      key). */
  function StatsKey(s: Option<string>): (k: string)
    ensures Lower(k) == k
    ensures s.Some? ==> EqualsIgnoringCase(k, s.value)
  {
    var raw := if s.None? then DefaultStatus else s.value;
    LowerIdempotent(raw);
    Lower(raw)
  }

  /** One `$group` output document: `{ _id: key, count }`. */
  datatype StatusCount = StatusCount(key: string, count: nat)

  predicate DistinctKeys(groups: seq<StatusCount>) {
    forall i, j :: 0 <= i < j < |groups| ==> groups[i].key != groups[j].key
  }

  predicate PositiveCounts(groups: seq<StatusCount>) {
    forall i :: 0 <= i < |groups| ==> groups[i].count > 0
  }

  /** Count one more record under `key`. */
  function Tally(groups: seq<StatusCount>, key: string): (r: seq<StatusCount>)
    requires DistinctKeys(groups) && PositiveCounts(groups)
    ensures DistinctKeys(r) && PositiveCounts(r)
    ensures |groups| <= |r| <= |groups| + 1
  {
    match FindFirst(groups, (c: StatusCount) => c.key == key)
    case Some(i) => groups[i := StatusCount(key, groups[i].count + 1)]
    case None => groups + [StatusCount(key, 1)]
  }

  /** The `$group` stage over the matched records. */
  function GroupByStatus(gs: seq<Grievance>): (r: seq<StatusCount>)
    ensures DistinctKeys(r) && PositiveCounts(r)
  {
    if |gs| == 0 then [] else Tally(GroupByStatus(gs[1..]), StatsKey(gs[0].status))
  }

  /** The one key an assignment into a plain object literal does not
      store: `acc['__proto__'] = n` runs the inherited `__proto__` setter,
      which ignores a number. */
  const ProtoKey := "__proto__"

  /** `agg.reduce((acc, cur) => { acc[cur._id] = cur.count; return acc }, {})`
      as JavaScript runs it: every group's count is stored under its key,
      except that a group keyed `__proto__` leaves no trace. */
  function ByStatus(groups: seq<StatusCount>): (m: map<string, nat>)
    ensures ProtoKey !in m
  {
    if |groups| == 0 then map[]
    else
      var last := groups[|groups| - 1];
      var prev := ByStatus(groups[..|groups| - 1]);
      if last.key == ProtoKey then prev else prev[last.key := last.count]
  }

  /** The same reduce into an object without inherited keys (a `Map`, or
      `Object.create(null)`): every group's key is stored. */
  function GroupMap(groups: seq<StatusCount>): map<string, nat> {
    if |groups| == 0 then map[]
    else GroupMap(groups[..|groups| - 1])[groups[|groups| - 1].key := groups[|groups| - 1].count]
  }

  /** `agg.reduce((s, c) => s + c.count, 0)`. */
  function SumCounts(groups: seq<StatusCount>): nat {
    if |groups| == 0 then 0 else SumCounts(groups[..|groups| - 1]) + groups[|groups| - 1].count
  }

  /** The total of the counts recorded under `key`. */
  function CountOf(groups: seq<StatusCount>, key: string): nat {
    if |groups| == 0 then 0
    else CountOf(groups[..|groups| - 1], key) + (if groups[|groups| - 1].key == key then groups[|groups| - 1].count else 0)
  }

  /** Some key of a non-empty map. */
  ghost function Pick(m: map<string, nat>): (k: string)
    requires |m| > 0
    ensures k in m
  {
    var k :| k in m; k
  }

  /** The sum of the values of a map. */
  ghost function MapSum(m: map<string, nat>): nat
    decreases |m|
  {
    if |m| == 0 then 0
    else
      var k := Pick(m);
      assert (m - {k}).Keys == m.Keys - {k};
      m[k] + MapSum(m - {k})
  }

  datatype StatsReply = StatsReply(total: nat, byStatus: map<string, nat>)

  /** The records `caller` may see, in store order (the `$match` stage). */
  function VisibleRecords(records: seq<Grievance>, caller: UserView): seq<Grievance> {
    Filter(records, (g: Grievance) => Visible(caller, g))
  }

  /** GET /stats over the records a caller may see, as the route computes
      it: `total` counts them; each key of `byStatus` holds the positive
      number of visible records normalised to it, and every visible
      record's key is there except `__proto__`, which the object reduce
      drops. So `total` exceeds the sum of `byStatus` by the records
      counted under `__proto__`. */
  function Stats(records: seq<Grievance>, caller: UserView): (r: StatsReply)
    ensures r.total == Count(records, (g: Grievance) => Visible(caller, g))
    ensures r.total == MapSum(r.byStatus) + Count(records, (g: Grievance) => Visible(caller, g) && StatsKey(g.status) == ProtoKey)
    ensures ProtoKey !in r.byStatus
    ensures forall k :: k in r.byStatus ==>
      r.byStatus[k] == Count(records, (g: Grievance) => Visible(caller, g) && StatsKey(g.status) == k) > 0
    ensures forall i :: 0 <= i < |records| && Visible(caller, records[i]) && StatsKey(records[i].status) != ProtoKey ==>
      StatsKey(records[i].status) in r.byStatus
  {
    var groups := GroupByStatus(VisibleRecords(records, caller));
    StatsTotal(records, caller);
    StatsProtoTotal(records, caller);
    ByStatusDropsProto(groups);
    forall k | k in ByStatus(groups)
      ensures ByStatus(groups)[k] == Count(records, (g: Grievance) => Visible(caller, g) && StatsKey(g.status) == k) > 0
    {
      StatsCount(records, caller, k);
    }
    forall i | 0 <= i < |records| && Visible(caller, records[i]) && StatsKey(records[i].status) != ProtoKey
      ensures StatsKey(records[i].status) in ByStatus(groups)
    {
      StatsKeyPresent(records, caller, i);
    }
    StatsReply(SumCounts(groups), ByStatus(groups))
  }

  /** GET /stats with the groups reduced into an object without inherited
      keys: `total` is then exactly the sum of `byStatus`, and every
      visible record's key is present. */
  function StatsCorrected(records: seq<Grievance>, caller: UserView): (r: StatsReply)
    ensures r.total == Count(records, (g: Grievance) => Visible(caller, g))
    ensures r.total == MapSum(r.byStatus)
    ensures forall k :: k in r.byStatus ==>
      r.byStatus[k] == Count(records, (g: Grievance) => Visible(caller, g) && StatsKey(g.status) == k) > 0
    ensures forall i :: 0 <= i < |records| && Visible(caller, records[i]) ==> StatsKey(records[i].status) in r.byStatus
  {
    var groups := GroupByStatus(VisibleRecords(records, caller));
    StatsTotal(records, caller);
    forall k | k in GroupMap(groups)
      ensures GroupMap(groups)[k] == Count(records, (g: Grievance) => Visible(caller, g) && StatsKey(g.status) == k) > 0
    {
      StatsCount(records, caller, k);
    }
    forall i | 0 <= i < |records| && Visible(caller, records[i])
      ensures StatsKey(records[i].status) in GroupMap(groups)
    {
      StatsKeyPresent(records, caller, i);
    }
    StatsReply(SumCounts(groups), GroupMap(groups))
  }

  /** The summed group counts are the number of visible records, and the
      sum of the map with every group's key. */
  lemma StatsTotal(records: seq<Grievance>, caller: UserView)
    ensures var groups := GroupByStatus(VisibleRecords(records, caller));
      && SumCounts(groups) == Count(records, (g: Grievance) => Visible(caller, g))
      && SumCounts(groups) == MapSum(GroupMap(groups))
  {
    var visible := VisibleRecords(records, caller);
    GroupSum(visible);
    CountIsFilterLength(records, (g: Grievance) => Visible(caller, g));
    GroupMapSum(GroupByStatus(visible));
  }

  /** The summed group counts are the sum of the object the route builds
      plus the visible records normalised to `__proto__`. */
  lemma StatsProtoTotal(records: seq<Grievance>, caller: UserView)
    ensures var groups := GroupByStatus(VisibleRecords(records, caller));
      SumCounts(groups) == MapSum(ByStatus(groups)) + Count(records, (g: Grievance) => Visible(caller, g) && StatsKey(g.status) == ProtoKey)
  {
    var visible := VisibleRecords(records, caller);
    var groups := GroupByStatus(visible);
    ByStatusSum(groups);
    GroupCountOf(visible, ProtoKey);
    CountOfFilter(records, (g: Grievance) => Visible(caller, g), (g: Grievance) => StatsKey(g.status) == ProtoKey,
                  (g: Grievance) => Visible(caller, g) && StatsKey(g.status) == ProtoKey);
  }

  /** Each key of the full group map holds the positive number of visible
      records normalised to it. */
  lemma StatsCount(records: seq<Grievance>, caller: UserView, k: string)
    requires k in GroupMap(GroupByStatus(VisibleRecords(records, caller)))
    ensures GroupMap(GroupByStatus(VisibleRecords(records, caller)))[k]
      == Count(records, (g: Grievance) => Visible(caller, g) && StatsKey(g.status) == k) > 0
  {
    var visible := VisibleRecords(records, caller);
    var groups := GroupByStatus(visible);
    GroupMapIsCountOf(groups, k);
    GroupCountOf(visible, k);
    CountOfFilter(records, (g: Grievance) => Visible(caller, g), (g: Grievance) => StatsKey(g.status) == k,
                  (g: Grievance) => Visible(caller, g) && StatsKey(g.status) == k);
    GroupMapKeys(groups, k);
    CountOfKeys(groups, k);
  }

  /** Every visible record's normalised status is a key of the full group
      map. */
  lemma StatsKeyPresent(records: seq<Grievance>, caller: UserView, i: nat)
    requires i < |records| && Visible(caller, records[i])
    ensures StatsKey(records[i].status) in GroupMap(GroupByStatus(VisibleRecords(records, caller)))
  {
    var visible := VisibleRecords(records, caller);
    var groups := GroupByStatus(visible);
    var k := StatsKey(records[i].status);
    assert records[i] in visible;
    CountPositive(visible, (g: Grievance) => StatsKey(g.status) == k, records[i]);
    GroupCountOf(visible, k);
    CountOfKeys(groups, k);
    GroupMapKeys(groups, k);
  }

  /** As written, a visible record whose status normalises to `__proto__`
      makes the route's `total` exceed the sum of its `byStatus` counts. */
  lemma ProtoStatusUncounted(records: seq<Grievance>, caller: UserView, i: nat)
    requires i < |records| && Visible(caller, records[i]) && StatsKey(records[i].status) == ProtoKey
    ensures Stats(records, caller).total > MapSum(Stats(records, caller).byStatus)
  {
    CountPositive(records, (g: Grievance) => Visible(caller, g) && StatsKey(g.status) == ProtoKey, records[i]);
  }

  // --- lemmas behind Stats ---------------------------------------------

  /** Counting inside a filtered sequence is counting with the conjunction. */
  lemma {:induction false} CountOfFilter(s: seq<Grievance>, p: Grievance -> bool, q: Grievance -> bool, pq: Grievance -> bool)
    requires forall x :: pq(x) == (p(x) && q(x))
    ensures Count(Filter(s, p), q) == Count(s, pq)
  {
    if |s| > 0 {
      CountOfFilter(s[1..], p, q, pq);
    }
  }

  /** An element of a sequence that satisfies `p` makes the count positive. */
  lemma {:induction false} CountPositive(s: seq<Grievance>, p: Grievance -> bool, x: Grievance)
    requires x in s && p(x)
    ensures Count(s, p) > 0
  {
    if s[0] != x {
      CountPositive(s[1..], p, x);
    }
  }

  lemma {:induction false} SumCountsUpdate(groups: seq<StatusCount>, i: nat, c: StatusCount)
    requires i < |groups|
    ensures SumCounts(groups[i := c]) == SumCounts(groups) - groups[i].count + c.count
    decreases |groups|
  {
    var n := |groups|;
    var u := groups[i := c];
    assert u[..n - 1] == if i == n - 1 then groups[..n - 1] else groups[..n - 1][i := c];
    if i < n - 1 {
      SumCountsUpdate(groups[..n - 1], i, c);
    }
  }

  lemma {:induction false} CountOfUpdate(groups: seq<StatusCount>, i: nat, c: StatusCount, key: string)
    requires i < |groups| && c.key == groups[i].key
    ensures CountOf(groups[i := c], key) == CountOf(groups, key) - (if key == c.key then groups[i].count else 0) + (if key == c.key then c.count else 0)
    decreases |groups|
  {
    var n := |groups|;
    var u := groups[i := c];
    assert u[..n - 1] == if i == n - 1 then groups[..n - 1] else groups[..n - 1][i := c];
    if i < n - 1 {
      CountOfUpdate(groups[..n - 1], i, c, key);
    }
  }

  lemma TallySum(groups: seq<StatusCount>, key: string)
    requires DistinctKeys(groups) && PositiveCounts(groups)
    ensures SumCounts(Tally(groups, key)) == SumCounts(groups) + 1
  {
    match FindFirst(groups, (c: StatusCount) => c.key == key)
    case Some(i) => SumCountsUpdate(groups, i, StatusCount(key, groups[i].count + 1));
    case None => assert (groups + [StatusCount(key, 1)])[..|groups|] == groups;
  }

  lemma TallyCountOf(groups: seq<StatusCount>, key: string, k: string)
    requires DistinctKeys(groups) && PositiveCounts(groups)
    ensures CountOf(Tally(groups, key), k) == CountOf(groups, k) + (if k == key then 1 else 0)
  {
    match FindFirst(groups, (c: StatusCount) => c.key == key)
    case Some(i) => CountOfUpdate(groups, i, StatusCount(key, groups[i].count + 1), k);
    case None => assert (groups + [StatusCount(key, 1)])[..|groups|] == groups;
  }

  /** The groups count every record once. */
  lemma {:induction false} GroupSum(gs: seq<Grievance>)
    ensures SumCounts(GroupByStatus(gs)) == |gs|
  {
    if |gs| > 0 {
      GroupSum(gs[1..]);
      TallySum(GroupByStatus(gs[1..]), StatsKey(gs[0].status));
    }
  }

  /** The groups count, under each key, the records normalised to it. */
  lemma {:induction false} GroupCountOf(gs: seq<Grievance>, k: string)
    ensures CountOf(GroupByStatus(gs), k) == Count(gs, (g: Grievance) => StatsKey(g.status) == k)
  {
    if |gs| > 0 {
      GroupCountOf(gs[1..], k);
      TallyCountOf(GroupByStatus(gs[1..]), StatsKey(gs[0].status), k);
    }
  }

  /** A key holds a positive count exactly when some group has it. */
  lemma {:induction false} CountOfKeys(groups: seq<StatusCount>, k: string)
    requires PositiveCounts(groups)
    ensures CountOf(groups, k) > 0 <==> exists i :: 0 <= i < |groups| && groups[i].key == k
  {
    var n := |groups|;
    if n > 0 {
      CountOfKeys(groups[..n - 1], k);
      var init := groups[..n - 1];
      if exists i :: 0 <= i < |init| && init[i].key == k {
        var i :| 0 <= i < |init| && init[i].key == k;
        assert groups[i].key == k;
      }
      if exists i :: 0 <= i < n && groups[i].key == k {
        var i :| 0 <= i < n && groups[i].key == k;
        if i < n - 1 {
          assert init[i].key == k;
        }
      }
    }
  }

  /** The full group map has a key exactly when some group has it. */
  lemma {:induction false} GroupMapKeys(groups: seq<StatusCount>, k: string)
    ensures k in GroupMap(groups) <==> exists i :: 0 <= i < |groups| && groups[i].key == k
  {
    var n := |groups|;
    if n > 0 {
      GroupMapKeys(groups[..n - 1], k);
      var init := groups[..n - 1];
      if exists i :: 0 <= i < |init| && init[i].key == k {
        var i :| 0 <= i < |init| && init[i].key == k;
        assert groups[i].key == k;
      }
      if exists i :: 0 <= i < n && groups[i].key == k {
        var i :| 0 <= i < n && groups[i].key == k;
        if i < n - 1 {
          assert init[i].key == k;
        }
      }
    }
  }

  /** With distinct keys, the full group map holds each group's count. */
  lemma {:induction false} GroupMapIsCountOf(groups: seq<StatusCount>, k: string)
    requires DistinctKeys(groups) && PositiveCounts(groups)
    requires k in GroupMap(groups)
    ensures GroupMap(groups)[k] == CountOf(groups, k)
  {
    var n := |groups|;
    var init := groups[..n - 1];
    var last := groups[n - 1];
    if k == last.key {
      assert forall i :: 0 <= i < n - 1 ==> init[i].key != k;
      CountOfKeys(init, k);
    } else {
      GroupMapIsCountOf(init, k);
    }
  }

  lemma MapSumRemove(m: map<string, nat>, k: string)
    requires k in m
    ensures MapSum(m) == m[k] + MapSum(m - {k})
    decreases |m|
  {
    var k0 := Pick(m);
    if k0 != k {
      var a := m - {k0};
      var b := m - {k};
      assert a.Keys == m.Keys - {k0};
      assert b.Keys == m.Keys - {k};
      assert |a| < |m|;
      assert |b| < |m|;
      MapSumRemove(a, k);
      MapSumRemove(b, k0);
      assert a - {k} == b - {k0};
    }
  }

  /** With distinct keys, the sum of the full group map's values is the
      sum of the group counts. */
  lemma {:induction false} GroupMapSum(groups: seq<StatusCount>)
    requires DistinctKeys(groups)
    ensures MapSum(GroupMap(groups)) == SumCounts(groups)
  {
    var n := |groups|;
    if n > 0 {
      var init := groups[..n - 1];
      var last := groups[n - 1];
      GroupMapSum(init);
      GroupMapKeys(init, last.key);
      var m := GroupMap(groups);
      MapSumRemove(m, last.key);
      assert m - {last.key} == GroupMap(init);
    }
  }

  /** The object the route builds is the full group map without
      `__proto__`. */
  lemma {:induction false} ByStatusDropsProto(groups: seq<StatusCount>)
    ensures ByStatus(groups) == GroupMap(groups) - {ProtoKey}
  {
    var n := |groups|;
    if n > 0 {
      var init := groups[..n - 1];
      var last := groups[n - 1];
      ByStatusDropsProto(init);
      if last.key == ProtoKey {
        assert GroupMap(groups) - {ProtoKey} == GroupMap(init) - {ProtoKey};
      } else {
        assert GroupMap(groups) - {ProtoKey} == (GroupMap(init) - {ProtoKey})[last.key := last.count];
      }
    }
  }

  /** The route's object has a key exactly when some group has it and it
      is not `__proto__`. */
  lemma ByStatusKeys(groups: seq<StatusCount>, k: string)
    ensures k in ByStatus(groups) <==> k != ProtoKey && exists i :: 0 <= i < |groups| && groups[i].key == k
  {
    ByStatusDropsProto(groups);
    GroupMapKeys(groups, k);
  }

  /** With distinct keys, each key of the route's object holds that
      group's count. */
  lemma ByStatusIsCountOf(groups: seq<StatusCount>, k: string)
    requires DistinctKeys(groups) && PositiveCounts(groups)
    requires k in ByStatus(groups)
    ensures ByStatus(groups)[k] == CountOf(groups, k)
  {
    ByStatusDropsProto(groups);
    GroupMapIsCountOf(groups, k);
  }

  /** With distinct keys, the values of the route's object sum to the
      group counts less the count under `__proto__`. */
  lemma ByStatusSum(groups: seq<StatusCount>)
    requires DistinctKeys(groups) && PositiveCounts(groups)
    ensures MapSum(ByStatus(groups)) + CountOf(groups, ProtoKey) == SumCounts(groups)
  {
    var m := GroupMap(groups);
    GroupMapSum(groups);
    ByStatusDropsProto(groups);
    GroupMapKeys(groups, ProtoKey);
    CountOfKeys(groups, ProtoKey);
    if ProtoKey in m {
      MapSumRemove(m, ProtoKey);
      GroupMapIsCountOf(groups, ProtoKey);
    } else {
      assert m - {ProtoKey} == m;
    }
  }
}
