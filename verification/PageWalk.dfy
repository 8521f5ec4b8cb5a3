/** Normalising, ordering and paging a run list, and walking all its pages. */
module PageWalk {
  import opened Wrappers
  import opened LikePatterns
  import opened ListQuery
  import opened Sorting

  // ---- Normalising a request ----

  const DEFAULT_LIMIT := 50
  const MAX_LIMIT := 200

  function Bounds<T>(inOrder: (T, T) -> bool, lo: Option<T>, hi: Option<T>): (Option<T>, Option<T>) {
    if lo.Some? && hi.Some? && !inOrder(lo.value, hi.value) then (hi, lo) else (lo, hi)
  }

  function RealBounds(lo: Option<real>, hi: Option<real>): (Option<real>, Option<real>) {
    Bounds((x: real, y: real) => x <= y, lo, hi)
  }

  function TimeBounds(lo: Option<int>, hi: Option<int>): (Option<int>, Option<int>) {
    Bounds((x: int, y: int) => x <= y, lo, hi)
  }

  function EffectiveLimit(limit: int): (r: int) {
    if limit <= 0 then DEFAULT_LIMIT else if limit > MAX_LIMIT then MAX_LIMIT else limit
  }

  function Normalize(trim: string -> string, req: Request): Request {
    var score := RealBounds(req.minScore, req.maxScore);
    var accuracy := RealBounds(req.minAccuracy, req.maxAccuracy);
    var played := TimeBounds(req.fromPlayedAt, req.toPlayedAt);
    var uploaded := TimeBounds(req.fromUploaded, req.toUploaded);
    req.(
      scenarioName := trim(req.scenarioName), steamID := trim(req.steamID),
      steamUsername := trim(req.steamUsername), query := trim(req.query),
      limit := EffectiveLimit(req.limit), offset := if req.offset < 0 then 0 else req.offset,
      sort := if req.sort == OtherSort then UploadedAtDesc else req.sort,
      minScore := score.0, maxScore := score.1, minAccuracy := accuracy.0, maxAccuracy := accuracy.1,
      fromPlayedAt := played.0, toPlayedAt := played.1, fromUploaded := uploaded.0, toUploaded := uploaded.1)
  }

  /** A request that means what it says: a usable limit and offset, a known order, no range upside down. */
  predicate Normal(req: Request) {
    && 1 <= req.limit <= MAX_LIMIT && req.offset >= 0 && req.sort != OtherSort
    && (req.minScore.Some? && req.maxScore.Some? ==> req.minScore.value <= req.maxScore.value)
    && (req.minAccuracy.Some? && req.maxAccuracy.Some? ==> req.minAccuracy.value <= req.maxAccuracy.value)
    && (req.fromPlayedAt.Some? && req.toPlayedAt.Some? ==> req.fromPlayedAt.value <= req.toPlayedAt.value)
    && (req.fromUploaded.Some? && req.toUploaded.Some? ==> req.fromUploaded.value <= req.toUploaded.value)
  }

  /** No white space around any needle. */
  predicate Trimmed(trim: string -> string, req: Request) {
    && trim(req.scenarioName) == req.scenarioName && trim(req.steamID) == req.steamID
    && trim(req.steamUsername) == req.steamUsername && trim(req.query) == req.query
  }

  /** Normalising changes exactly the requests that are not normal, and what it returns is normal. */
  lemma NormalizeExactly(trim: string -> string, req: Request)
    requires forall s :: trim(trim(s)) == trim(s)
    ensures Normal(Normalize(trim, req)) && Trimmed(trim, Normalize(trim, req))
    ensures Normalize(trim, req) == req <==> Normal(req) && Trimmed(trim, req)
    ensures Normalize(trim, Normalize(trim, req)) == Normalize(trim, req)
  {}

  /** Both ends of a range, the lower one first if both are given. */
  predicate InOrder(lo: Option<real>, hi: Option<real>, lo': Option<real>, hi': Option<real>) {
    if lo.Some? && hi.Some? then
      && lo' == Some(if lo.value < hi.value then lo.value else hi.value)
      && hi' == Some(if lo.value < hi.value then hi.value else lo.value)
    else lo' == lo && hi' == hi
  }

  predicate InTimeOrder(lo: Option<int>, hi: Option<int>, lo': Option<int>, hi': Option<int>) {
    if lo.Some? && hi.Some? then
      && lo' == Some(if lo.value < hi.value then lo.value else hi.value)
      && hi' == Some(if lo.value < hi.value then hi.value else lo.value)
    else lo' == lo && hi' == hi
  }

  /** What normalising makes of each value of a request. */
  lemma NormalizeValues(trim: string -> string, req: Request)
    ensures var n := Normalize(trim, req);
      && n.limit == (if req.limit <= 0 then 50 else if req.limit > 200 then 200 else req.limit)
      && n.offset == (if req.offset < 0 then 0 else req.offset)
      && n.sort == (if req.sort.OtherSort? then UploadedAtDesc else req.sort)
      && n.scenarioID == req.scenarioID && n.hasMouseTrace == req.hasMouseTrace
      && n.scenarioName == trim(req.scenarioName) && n.query == trim(req.query)
      && n.steamID == trim(req.steamID) && n.steamUsername == trim(req.steamUsername)
      && InOrder(req.minScore, req.maxScore, n.minScore, n.maxScore)
      && InOrder(req.minAccuracy, req.maxAccuracy, n.minAccuracy, n.maxAccuracy)
      && InTimeOrder(req.fromPlayedAt, req.toPlayedAt, n.fromPlayedAt, n.toPlayedAt)
      && InTimeOrder(req.fromUploaded, req.toUploaded, n.fromUploaded, n.toUploaded)
  {}

  // ---- The order of a list ----

  datatype OrderColumn = ByUploadedAt | ByPlayedAt | ByScore | ByAccuracy | ByAvgTTK

  /** ORDER BY col, id, both in the same direction, NULLs last. */
  datatype OrderBy = OrderBy(col: OrderColumn, descending: bool)

  function RunsOrderBy(sort: SortKey): OrderBy {
    match sort
    case UploadedAtAsc => OrderBy(ByUploadedAt, false)
    case PlayedAtDesc => OrderBy(ByPlayedAt, true)
    case PlayedAtAsc => OrderBy(ByPlayedAt, false)
    case ScoreDesc => OrderBy(ByScore, true)
    case ScoreAsc => OrderBy(ByScore, false)
    case AccuracyDesc => OrderBy(ByAccuracy, true)
    case AccuracyAsc => OrderBy(ByAccuracy, false)
    case AvgTTKDesc => OrderBy(ByAvgTTK, true)
    case AvgTTKAsc => OrderBy(ByAvgTTK, false)
    case _ => OrderBy(ByUploadedAt, true)
  }

  /** The sort key of a row; only the two time columns are never NULL. */
  function KeyOf(col: OrderColumn, row: Row): Option<real> {
    match col
    case ByUploadedAt => Some(row.uploadedAt as real)
    case ByPlayedAt => Some(row.playedAt as real)
    case ByScore => row.score
    case ByAccuracy => row.accuracy
    case ByAvgTTK => row.avgTTK
  }

  predicate KeyBefore(descending: bool, a: Option<real>, b: Option<real>) {
    a.Some? && (b.None? || if descending then a.value > b.value else a.value < b.value)
  }

  predicate Before(o: OrderBy, a: Row, b: Row) {
    var (x, y) := (KeyOf(o.col, a), KeyOf(o.col, b));
    KeyBefore(o.descending, x, y) || (x == y && if o.descending then a.id > b.id else a.id < b.id)
  }

  function Order(sort: SortKey): (Row, Row) -> bool {
    (a, b) => Before(RunsOrderBy(sort), a, b)
  }

  ghost predicate UniqueIds(rows: set<Row>) {
    forall a, b | a in rows && b in rows && a.id == b.id :: a == b
  }

  /** Every sort key orders rows with distinct ids strictly and totally. */
  lemma OrderIsTotal(sort: SortKey, rows: set<Row>)
    requires UniqueIds(rows)
    ensures StrictTotalOn(Order(sort), rows)
  {
    hide RunsOrderBy;
    var o, less := RunsOrderBy(sort), Order(sort);
    forall a, b, c | a in rows && b in rows && c in rows && less(a, b) && less(b, c) ensures less(a, c) {
      BeforeTransitive(o, a, b, c);
    }
    forall a, b | a in rows && b in rows && a != b ensures less(a, b) || less(b, a) {
      BeforeTotal(o, a, b);
    }
  }

  lemma BeforeTransitive(o: OrderBy, a: Row, b: Row, c: Row)
    requires Before(o, a, b) && Before(o, b, c)
    ensures Before(o, a, c)
  {
    hide KeyOf;
  }

  lemma BeforeTotal(o: OrderBy, a: Row, b: Row)
    requires a.id != b.id
    ensures Before(o, a, b) || Before(o, b, a)
  {
    hide KeyOf;
  }

  // ---- What the query returns ----

  function Filtered(fold: char -> char, q: Query, table: seq<Row>): seq<Row> {
    if |table| == 0 then []
    else (if Accepts(fold, q, table[0]) then [table[0]] else []) + Filtered(fold, q, table[1..])
  }

  lemma {:induction false} FilteredIsSubsequence(fold: char -> char, q: Query, table: seq<Row>)
    ensures forall row :: row in Filtered(fold, q, table) <==> row in table && Accepts(fold, q, row)
    ensures Distinct(table) ==> Distinct(Filtered(fold, q, table))
  {
    hide Accepts;
    if |table| > 0 {
      FilteredIsSubsequence(fold, q, table[1..]);
      assert table == [table[0]] + table[1..];
      if Distinct(table) {
        DistinctTail(table);
        DistinctCons(table[0], Filtered(fold, q, table[1..]));
      }
    }
  }

  lemma DistinctTail(s: seq<Row>)
    requires |s| > 0 && Distinct(s)
    ensures Distinct(s[1..]) && s[0] !in s[1..]
  {}

  lemma DistinctCons(row: Row, s: seq<Row>)
    requires Distinct(s) && row !in s
    ensures Distinct([row] + s)
  {}

  /** All the rows the clauses accept, in the requested order. */
  function Selected(fold: char -> char, q: Query, table: seq<Row>): seq<Row> {
    Sort(Order(q.sort), Filtered(fold, q, table))
  }

  function Slice<T>(s: seq<T>, offset: nat, limit: nat): seq<T> {
    if offset >= |s| then [] else if offset + limit >= |s| then s[offset..] else s[offset..offset + limit]
  }

  /** Runs the query: LIMIT and OFFSET come from their placeholders; a negative one is refused. */
  function Execute(fold: char -> char, q: Query, table: seq<Row>): Option<seq<Row>> {
    var (limit, offset) := (Argument(q.args, q.limitPos), Argument(q.args, q.offsetPos));
    if limit.IntValue? && offset.IntValue? && limit.i >= 0 && offset.i >= 0
    then Some(Slice(Selected(fold, q, table), offset.i, limit.i)) else None
  }

  /** A table of runs: the primary keys are distinct. */
  ghost predicate Table(table: seq<Row>) {
    Distinct(table) && UniqueIds(Elements(table))
  }

  /** The rows that meet the request, each once, in order. */
  ghost predicate Lists(fold: char -> char, req: Request, table: seq<Row>, rows: seq<Row>) {
    && StrictlySorted(Order(req.sort), rows) && Distinct(rows)
    && forall row :: row in rows <==> row in table && Meets(LikeTest(fold), req, row)
  }

  lemma SelectedLists(fold: char -> char, req: Request, table: seq<Row>)
    requires Table(table)
    ensures Lists(fold, req, table, Selected(fold, Compile(req), table))
  {
    var q := Compile(req);
    var rows := Filtered(fold, q, table);
    FilteredIsSubsequence(fold, q, table);
    assert Elements(rows) <= Elements(table);
    OrderIsTotal(req.sort, Elements(table));
    OrderIsTotal(req.sort, Elements(rows));
    SortSorts(Order(req.sort), rows, Elements(table));
    assert q.sort == req.sort;
    var sorted := Selected(fold, q, table);
    hide Compile, Accepts, Order, LikeTest, Meets, Filtered;
    SortedIsDistinct(Order(req.sort), sorted);
    forall row ensures row in sorted <==> row in table && Meets(LikeTest(fold), req, row) {
      QueryMeansRequest(fold, req, row);
      assert row in sorted <==> row in Elements(sorted);
    }
  }

  /** Only one list of rows is in order and holds the rows that meet the request, so the database has no choice. */
  lemma ListIsUnique(fold: char -> char, req: Request, table: seq<Row>, a: seq<Row>, b: seq<Row>)
    requires Table(table) && Lists(fold, req, table, a) && Lists(fold, req, table, b)
    ensures a == b
  {
    hide Order, LikeTest, Meets;
    assert Elements(a) == Elements(b) && Elements(a) <= Elements(table);
    OrderIsTotal(req.sort, Elements(a));
    SortedUnique(Order(req.sort), a, b);
  }

  lemma {:induction false} SortedPairs(less: (Row, Row) -> bool, s: seq<Row>, i: nat, j: nat)
    requires StrictlySorted(less, s) && i < j < |s|
    ensures less(s[i], s[j])
  {
    if i == 0 {
      assert s[1..][j - 1] == s[j];
    } else {
      SortedPairs(less, s[1..], i - 1, j - 1);
    }
  }

  /** What may stand before what: a row without a value comes after all that have one, in either direction. */
  predicate NullsLast(descending: bool, a: Option<real>, b: Option<real>) {
    b.Some? ==> a.Some? && if descending then a.value >= b.value else a.value <= b.value
  }

  /** What a sort key promises about an earlier row a and a later row b of a list. */
  predicate Follows(sort: SortKey, a: Row, b: Row) {
    match sort
    case UploadedAtAsc => a.uploadedAt <= b.uploadedAt && (a.uploadedAt == b.uploadedAt ==> a.id < b.id)
    case PlayedAtDesc => a.playedAt >= b.playedAt && (a.playedAt == b.playedAt ==> a.id > b.id)
    case PlayedAtAsc => a.playedAt <= b.playedAt && (a.playedAt == b.playedAt ==> a.id < b.id)
    case ScoreDesc => NullsLast(true, a.score, b.score) && (a.score == b.score ==> a.id > b.id)
    case ScoreAsc => NullsLast(false, a.score, b.score) && (a.score == b.score ==> a.id < b.id)
    case AccuracyDesc => NullsLast(true, a.accuracy, b.accuracy) && (a.accuracy == b.accuracy ==> a.id > b.id)
    case AccuracyAsc => NullsLast(false, a.accuracy, b.accuracy) && (a.accuracy == b.accuracy ==> a.id < b.id)
    case AvgTTKDesc => NullsLast(true, a.avgTTK, b.avgTTK) && (a.avgTTK == b.avgTTK ==> a.id > b.id)
    case AvgTTKAsc => NullsLast(false, a.avgTTK, b.avgTTK) && (a.avgTTK == b.avgTTK ==> a.id < b.id)
    case _ => a.uploadedAt >= b.uploadedAt && (a.uploadedAt == b.uploadedAt ==> a.id > b.id)
  }

  /** A list keeps, for any two of its rows, what its sort key promises. */
  lemma ListFollowsItsSort(sort: SortKey, s: seq<Row>, i: nat, j: nat)
    requires StrictlySorted(Order(sort), s) && i < j < |s|
    ensures Follows(sort, s[i], s[j])
  {
    SortedPairs(Order(sort), s, i, j);
  }

  // ---- The service: one page, found by fetching one row too many ----

  datatype Response = Response(runs: seq<Row>, limit: int, offset: int, count: int, hasMore: bool,
                               nextOffset: Option<int>)

  /** What the caller of a page is promised, given the whole list. */
  function PageOf(all: seq<Row>, offset: nat, limit: nat): Response {
    var runs := Slice(all, offset, limit);
    var hasMore := offset + limit < |all|;
    Response(runs, limit, offset, |runs|, hasMore, if hasMore then Some(offset + limit) else None)
  }

  function FullList(fold: char -> char, trim: string -> string, table: seq<Row>, req: Request): seq<Row> {
    Selected(fold, Compile(Normalize(trim, req)), table)
  }

  function Page(fold: char -> char, trim: string -> string, table: seq<Row>, req: Request): Response {
    NormalizedPaging(trim, req);
    var n := Normalize(trim, req);
    PageOf(FullList(fold, trim, table, req), n.offset, n.limit)
  }

  lemma OverFetch<T>(all: seq<T>, offset: nat, limit: nat)
    ensures var more := Slice(all, offset, limit + 1);
      && (|more| > limit <==> offset + limit < |all|)
      && (if |more| > limit then more[..limit] else more) == Slice(all, offset, limit)
  {}

  /** The repository's answer depends on the limit and offset only through the slice. */
  lemma ExecuteIsSlice(fold: char -> char, req: Request, table: seq<Row>)
    requires req.limit >= 0 && req.offset >= 0
    ensures Execute(fold, Compile(req), table) ==
        Some(Slice(Selected(fold, Compile(req), table), req.offset, req.limit))
  {
    PlaceholdersExact(req);
    hide Selected, Slice, Filters, WellTyped;
  }

  lemma {:induction false} SameFilters(fold: char -> char, q: Query, q': Query, table: seq<Row>)
    requires forall row :: Accepts(fold, q, row) <==> Accepts(fold, q', row)
    ensures Filtered(fold, q, table) == Filtered(fold, q', table)
  {
    hide Accepts;
    if |table| > 0 {
      SameFilters(fold, q, q', table[1..]);
    }
  }

  /** Changing the limit or the offset does not change the list. */
  lemma SelectedIgnoresPaging(fold: char -> char, req: Request, table: seq<Row>, limit: int, offset: int)
    ensures Selected(fold, Compile(req.(limit := limit, offset := offset)), table) ==
        Selected(fold, Compile(req), table)
  {
    var req' := req.(limit := limit, offset := offset);
    var q, q' := Compile(req), Compile(req');
    forall row ensures Accepts(fold, q, row) <==> Accepts(fold, q', row) {
      QueryMeansRequest(fold, req, row);
      QueryMeansRequest(fold, req', row);
      SameMeaning(LikeTest(fold), req, limit, offset, row);
      hide *;
    }
    assert q.sort == q'.sort;
    hide Accepts, Compile, Order;
    SameFilters(fold, q, q', table);
  }

  lemma SameMeaning(matches: (string, string) -> bool, req: Request, limit: int, offset: int, row: Row)
    ensures Meets(matches, req.(limit := limit, offset := offset), row) == Meets(matches, req, row)
  {}

  lemma NormalizedPaging(trim: string -> string, req: Request)
    ensures 1 <= Normalize(trim, req).limit <= MAX_LIMIT && Normalize(trim, req).offset >= 0
  {}

  /** What a client gets from a list for the limit and offset it asked for. */
  predicate IsPage(r: Response, all: seq<Row>, limit: int, offset: int) {
    var size := if limit <= 0 then 50 else if limit > 200 then 200 else limit;
    var from := if offset < 0 then 0 else offset;
    && r.limit == size && r.offset == from && r.count == |r.runs| <= size
    && r.runs == (if from >= |all| then [] else if from + size >= |all| then all[from..] else all[from..from + size])
    && (r.hasMore <==> from + size < |all|)
    && r.nextOffset == if r.hasMore then Some(from + r.count) else None
  }

  /** It is that page of every list of the rows the request asks for. There is one such list. */
  ghost predicate PagesTheList(fold: char -> char, trim: string -> string, table: seq<Row>, req: Request, r: Response) {
    forall all :: Lists(fold, Normalize(trim, req), table, all) ==> IsPage(r, all, req.limit, req.offset)
  }

  lemma PageOfIsPage(all: seq<Row>, limit: int, offset: int)
    ensures IsPage(PageOf(all, if offset < 0 then 0 else offset, EffectiveLimit(limit)), all, limit, offset)
  {}

  lemma PagesAreRight(fold: char -> char, trim: string -> string, table: seq<Row>, req: Request)
    requires Table(table)
    ensures PagesTheList(fold, trim, table, req, Page(fold, trim, table, req))
  {
    var n, full := Normalize(trim, req), FullList(fold, trim, table, req);
    assert n.limit == EffectiveLimit(req.limit) && n.offset == if req.offset < 0 then 0 else req.offset;
    SelectedLists(fold, n, table);
    PageOfIsPage(full, req.limit, req.offset);
    hide Normalize, Selected, Lists, Table, IsPage, PageOf, EffectiveLimit;
    forall all | Lists(fold, n, table, all) ensures IsPage(Page(fold, trim, table, req), all, req.limit, req.offset) {
      ListIsUnique(fold, n, table, all, full);
    }
  }

  /**
   * One page of the list of the rows that the request asks for, in its order. `available` is false when the query
   * fails.
   */
  method ListRuns(fold: char -> char, trim: string -> string, table: seq<Row>, raw: Request, available: bool)
    returns (r: Option<Response>)
    ensures r == if available then Some(Page(fold, trim, table, raw)) else None
    ensures r.Some? <==> available
    ensures available && Table(table) ==> PagesTheList(fold, trim, table, raw, r.value)
  {
    hide Normalize, Compile, Execute, Selected, Slice, Table, PagesTheList;
    NormalizedPaging(trim, raw);
    var query := Normalize(trim, raw);
    var effective := query.limit;
    query := query.(limit := query.limit + 1);
    if !available {
      return None;
    }
    ExecuteIsSlice(fold, query, table);
    SelectedIgnoresPaging(fold, Normalize(trim, raw), table, effective + 1, query.offset);
    OverFetch(FullList(fold, trim, table, raw), query.offset, effective);
    var q := BuildQuery(query);
    var fetched := Execute(fold, q, table);
    var runs := fetched.value;
    var hasMore := |runs| > effective;
    if hasMore {
      runs := runs[..effective];
      SliceLength(FullList(fold, trim, table, raw), query.offset, effective);
    }
    var nextOffset := if hasMore then Some(query.offset + |runs|) else None;
    r := Some(Response(runs, effective, query.offset, |runs|, hasMore, nextOffset));
    assert r.value == Page(fold, trim, table, raw);
    if Table(table) {
      PagesAreRight(fold, trim, table, raw);
    }
  }

  lemma SliceLength<T>(s: seq<T>, offset: nat, limit: nat)
    ensures |Slice(s, offset, limit)| == if offset >= |s| then 0 else if offset + limit >= |s| then |s| - offset
        else limit
  {}

  // ---- Walking the pages ----

  /** Moving to another page of a request changes neither the list nor the page size. */
  lemma NextPageOfTheSameList(fold: char -> char, trim: string -> string, table: seq<Row>, req: Request, offset: nat)
    ensures var next := req.(offset := offset);
      && FullList(fold, trim, table, next) == FullList(fold, trim, table, req)
      && Normalize(trim, next) == Normalize(trim, req).(offset := offset)
  {
    var n := Normalize(trim, req);
    assert Normalize(trim, req.(offset := offset)) == n.(limit := n.limit, offset := offset);
    hide Normalize, Selected, Compile;
    SelectedIgnoresPaging(fold, n, table, n.limit, offset);
  }

  function Remaining(fold: char -> char, trim: string -> string, table: seq<Row>, req: Request): nat {
    var (all, offset) := (FullList(fold, trim, table, req), Normalize(trim, req).offset);
    if offset >= |all| then 0 else |all| - offset
  }

  /** The rows a client collects by following the next offsets until there is none. */
  function Follow(fold: char -> char, trim: string -> string, table: seq<Row>, req: Request): seq<Row>
    decreases Remaining(fold, trim, table, req)
  {
    var page := Page(fold, trim, table, req);
    if page.nextOffset.None? then page.runs
    else
      NormalizedPaging(trim, req);
      NextPageOfTheSameList(fold, trim, table, req, page.nextOffset.value);
      page.runs + Follow(fold, trim, table, req.(offset := page.nextOffset.value))
  }

  /** Following the next offsets from any offset yields exactly the rest of the list. */
  lemma {:induction false} FollowYieldsTheRest(fold: char -> char, trim: string -> string, table: seq<Row>,
                                               req: Request)
    ensures var (all, offset) := (FullList(fold, trim, table, req), Normalize(trim, req).offset);
      Follow(fold, trim, table, req) == if offset >= |all| then [] else all[offset..]
    decreases Remaining(fold, trim, table, req)
  {
    hide Normalize, FullList;
    NormalizedPaging(trim, req);
    var page := Page(fold, trim, table, req);
    if page.nextOffset.Some? {
      NextPageOfTheSameList(fold, trim, table, req, page.nextOffset.value);
      FollowYieldsTheRest(fold, trim, table, req.(offset := page.nextOffset.value));
      var all, n := FullList(fold, trim, table, req), Normalize(trim, req);
      assert all[n.offset..] == all[n.offset..n.offset + n.limit] + all[n.offset + n.limit..];
    }
  }

  /** From offset 0 the walk meets every row the normalised request asks for, once each and in order. */
  lemma WalkListsEveryRow(fold: char -> char, trim: string -> string, table: seq<Row>, req: Request)
    requires Table(table) && req.offset <= 0
    ensures Lists(fold, Normalize(trim, req), table, Follow(fold, trim, table, req))
  {
    FollowYieldsTheRest(fold, trim, table, req);
    assert Normalize(trim, req).offset == 0;
    hide Normalize, Selected, Lists, Table, Follow;
    SelectedLists(fold, Normalize(trim, req), table);
    var all := FullList(fold, trim, table, req);
    assert all[0..] == all;
  }
}
