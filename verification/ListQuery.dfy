/** Compiling a list request to SQL clauses with positional placeholders, and what the clauses mean. */
module ListQuery {
  import opened Wrappers
  import opened LikePatterns

  // ---- Rows and requests ----

  /** A run joined with its scenario and, if it has one, its player. Times are in microseconds. */
  datatype Row = Row(
    id: int,
    scenarioID: int,
    scenarioName: string,
    steamID: Option<string>,
    steamUsername: Option<string>,
    fileName: string,
    hasMouseTrace: bool,
    score: Option<real>,
    accuracy: Option<real>,
    avgTTK: Option<real>,
    playedAt: int,
    uploadedAt: int)

  datatype SortKey =
    | UploadedAtDesc | UploadedAtAsc | PlayedAtDesc | PlayedAtAsc | ScoreDesc | ScoreAsc
    | AccuracyDesc | AccuracyAsc | AvgTTKDesc | AvgTTKAsc | OtherSort

  /** Times in a request are in milliseconds. */
  datatype Request = Request(
    limit: int,
    offset: int,
    sort: SortKey,
    scenarioID: int,
    scenarioName: string,
    steamID: string,
    steamUsername: string,
    query: string,
    hasMouseTrace: Option<bool>,
    minScore: Option<real>,
    maxScore: Option<real>,
    minAccuracy: Option<real>,
    maxAccuracy: Option<real>,
    fromPlayedAt: Option<int>,
    toPlayedAt: Option<int>,
    fromUploaded: Option<int>,
    toUploaded: Option<int>)

  // ---- A fragment of SQL ----

  datatype Value = Null | IntValue(i: int) | RealValue(r: real) | TextValue(s: string) | BoolValue(b: bool)

  datatype Truth = True | False | Unknown

  /** The expressions the clauses compare; the two player columns are wrapped in COALESCE(…, ''). */
  datatype Column =
    | ScenarioID | ScenarioName | SteamIDOrEmpty | SteamUsernameOrEmpty | FileName | HasMouseTrace
    | Score | Accuracy | PlayedAt | UploadedAt

  datatype Op = Equals | ILikes | AtLeast | AtMost

  /** A clause: one comparison with placeholder p, or a disjunction of ILIKEs that share it. */
  datatype Clause = Compare(op: Op, col: Column, p: nat) | AnyILikes(cols: seq<Column>, p: nat)

  function ColumnValue(row: Row, col: Column): Value {
    match col
    case ScenarioID => IntValue(row.scenarioID)
    case ScenarioName => TextValue(row.scenarioName)
    case SteamIDOrEmpty => TextValue(row.steamID.GetOr(""))
    case SteamUsernameOrEmpty => TextValue(row.steamUsername.GetOr(""))
    case FileName => TextValue(row.fileName)
    case HasMouseTrace => BoolValue(row.hasMouseTrace)
    case Score => if row.score.Some? then RealValue(row.score.value) else Null
    case Accuracy => if row.accuracy.Some? then RealValue(row.accuracy.value) else Null
    case PlayedAt => IntValue(row.playedAt)
    case UploadedAt => IntValue(row.uploadedAt)
  }

  function Truth2(b: bool): Truth {
    if b then True else False
  }

  /** A comparison with NULL, or of values of different types, is unknown. */
  function CompareValues(fold: char -> char, op: Op, v: Value, arg: Value): Truth {
    match (op, v, arg)
    case (Equals, IntValue(x), IntValue(y)) => Truth2(x == y)
    case (Equals, BoolValue(x), BoolValue(y)) => Truth2(x == y)
    case (ILikes, TextValue(t), TextValue(p)) => Truth2(ILike(fold, p, t))
    case (AtLeast, RealValue(x), RealValue(y)) => Truth2(x >= y)
    case (AtLeast, IntValue(x), IntValue(y)) => Truth2(x >= y)
    case (AtMost, RealValue(x), RealValue(y)) => Truth2(x <= y)
    case (AtMost, IntValue(x), IntValue(y)) => Truth2(x <= y)
    case _ => Unknown
  }

  function And(a: Truth, b: Truth): Truth {
    if a == False || b == False then False else if a == Unknown || b == Unknown then Unknown else True
  }

  function Or(a: Truth, b: Truth): Truth {
    if a == True || b == True then True else if a == Unknown || b == Unknown then Unknown else False
  }

  /** The argument of placeholder $p, counting from 1. */
  function Argument(args: seq<Value>, p: nat): Value {
    if 1 <= p <= |args| then args[p - 1] else Null
  }

  function AnyColumn(fold: char -> char, row: Row, cols: seq<Column>, arg: Value): Truth {
    if |cols| == 0 then False
    else Or(CompareValues(fold, ILikes, ColumnValue(row, cols[0]), arg), AnyColumn(fold, row, cols[1..], arg))
  }

  function Eval(fold: char -> char, row: Row, c: Clause, args: seq<Value>): Truth {
    match c
    case Compare(op, col, p) => CompareValues(fold, op, ColumnValue(row, col), Argument(args, p))
    case AnyILikes(cols, p) => AnyColumn(fold, row, cols, Argument(args, p))
  }

  /** The WHERE condition: the conjunction of the clauses, true if there are none. */
  function Where(fold: char -> char, row: Row, clauses: seq<Clause>, args: seq<Value>): Truth {
    if |clauses| == 0 then True
    else And(Eval(fold, row, clauses[0], args), Where(fold, row, clauses[1..], args))
  }

  // ---- The compiler, as the list of filters a request asks for ----

  datatype Filter = One(op: Op, col: Column, value: Value) | Any(cols: seq<Column>, value: Value)

  const SEARCHED := [FileName, ScenarioName, SteamUsernameOrEmpty, SteamIDOrEmpty]

  function IDFilter(id: int): seq<Filter> {
    if id > 0 then [One(Equals, ScenarioID, IntValue(id))] else []
  }

  function SearchFilter(needle: string): seq<Filter> {
    if needle == "" then [] else [Any(SEARCHED, TextValue(Around(needle)))]
  }

  function TraceFilter(trace: Option<bool>): seq<Filter> {
    if trace.None? then [] else [One(Equals, HasMouseTrace, BoolValue(trace.value))]
  }

  function TextFilter(col: Column, needle: string): seq<Filter> {
    if needle == "" then [] else [One(ILikes, col, TextValue(Around(needle)))]
  }

  function RealFilter(op: Op, col: Column, bound: Option<real>): seq<Filter> {
    if bound.None? then [] else [One(op, col, RealValue(bound.value))]
  }

  function TimeFilter(op: Op, col: Column, millis: Option<int>): seq<Filter> {
    if millis.None? then [] else [One(op, col, IntValue(millis.value * 1000))]
  }

  function NameFilters(req: Request): seq<Filter> {
    IDFilter(req.scenarioID)
    + TextFilter(ScenarioName, req.scenarioName)
    + TextFilter(SteamIDOrEmpty, req.steamID)
    + TextFilter(SteamUsernameOrEmpty, req.steamUsername)
    + SearchFilter(req.query)
    + TraceFilter(req.hasMouseTrace)
  }

  function RangeFilters(req: Request): seq<Filter> {
    RealFilter(AtLeast, Score, req.minScore)
    + RealFilter(AtMost, Score, req.maxScore)
    + RealFilter(AtLeast, Accuracy, req.minAccuracy)
    + RealFilter(AtMost, Accuracy, req.maxAccuracy)
    + TimeFilter(AtLeast, PlayedAt, req.fromPlayedAt)
    + TimeFilter(AtMost, PlayedAt, req.toPlayedAt)
    + TimeFilter(AtLeast, UploadedAt, req.fromUploaded)
    + TimeFilter(AtMost, UploadedAt, req.toUploaded)
  }

  function Filters(req: Request): seq<Filter> {
    NameFilters(req) + RangeFilters(req)
  }

  function Instantiate(f: Filter, p: nat): Clause {
    match f
    case One(op, col, _) => Compare(op, col, p)
    case Any(cols, _) => AnyILikes(cols, p)
  }

  /** The k-th filter becomes the k-th clause, with placeholder $k, and its value the k-th argument. */
  function Clauses(fs: seq<Filter>): seq<Clause> {
    seq(|fs|, i requires 0 <= i < |fs| => Instantiate(fs[i], i + 1))
  }

  function Args(fs: seq<Filter>): seq<Value> {
    seq(|fs|, i requires 0 <= i < |fs| => fs[i].value)
  }

  class QueryBuilder {
    var clauses: seq<Clause>
    var args: seq<Value>
    ghost var filters: seq<Filter>

    ghost predicate Valid()
      reads this
    {
      clauses == Clauses(filters) && args == Args(filters)
    }

    constructor ()
      ensures Valid() && filters == []
    {
      clauses, args, filters := [], [], [];
    }

    method AddArgClause(op: Op, col: Column, value: Value)
      requires Valid()
      modifies this
      ensures Valid() && filters == old(filters) + [One(op, col, value)]
    {
      args := args + [value];
      clauses := clauses + [Compare(op, col, |args|)];
      filters := filters + [One(op, col, value)];
    }

    method AddSearchClause(value: Value)
      requires Valid()
      modifies this
      ensures Valid() && filters == old(filters) + [Any(SEARCHED, value)]
    {
      args := args + [value];
      var p := |args|;
      clauses := clauses + [AnyILikes(SEARCHED, p)];
      filters := filters + [Any(SEARCHED, value)];
    }

    method AddText(col: Column, needle: string)
      requires Valid()
      modifies this
      ensures Valid() && filters == old(filters) + TextFilter(col, needle)
    {
      if needle != "" {
        AddArgClause(ILikes, col, TextValue("%" + needle + "%"));
      }
    }

    method AddReal(op: Op, col: Column, bound: Option<real>)
      requires Valid()
      modifies this
      ensures Valid() && filters == old(filters) + RealFilter(op, col, bound)
    {
      if bound.Some? {
        AddArgClause(op, col, RealValue(bound.value));
      }
    }

    method AddTime(op: Op, col: Column, millis: Option<int>)
      requires Valid()
      modifies this
      ensures Valid() && filters == old(filters) + TimeFilter(op, col, millis)
    {
      if millis.Some? {
        AddArgClause(op, col, IntValue(millis.value * 1000));
      }
    }

    method AddNameFilters(req: Request)
      requires Valid() && filters == []
      modifies this
      ensures Valid() && filters == NameFilters(req)
    {
      hide TextFilter, Clauses, Args;
      if req.scenarioID > 0 {
        AddArgClause(Equals, ScenarioID, IntValue(req.scenarioID));
      }
      AddText(ScenarioName, req.scenarioName);
      AddText(SteamIDOrEmpty, req.steamID);
      AddText(SteamUsernameOrEmpty, req.steamUsername);
      if req.query != "" {
        AddSearchClause(TextValue("%" + req.query + "%"));
      }
      if req.hasMouseTrace.Some? {
        AddArgClause(Equals, HasMouseTrace, BoolValue(req.hasMouseTrace.value));
      }
    }

    method AddRangeFilters(req: Request)
      requires Valid()
      modifies this
      ensures Valid() && filters == old(filters) + RangeFilters(req)
    {
      hide RealFilter, TimeFilter, Clauses, Args;
      AddReal(AtLeast, Score, req.minScore);
      AddReal(AtMost, Score, req.maxScore);
      AddReal(AtLeast, Accuracy, req.minAccuracy);
      AddReal(AtMost, Accuracy, req.maxAccuracy);
      AddTime(AtLeast, PlayedAt, req.fromPlayedAt);
      AddTime(AtMost, PlayedAt, req.toPlayedAt);
      AddTime(AtLeast, UploadedAt, req.fromUploaded);
      AddTime(AtMost, UploadedAt, req.toUploaded);
    }
  }

  datatype Query = Query(clauses: seq<Clause>, args: seq<Value>, limitPos: nat, offsetPos: nat, sort: SortKey)

  function Compile(req: Request): Query {
    var fs := Filters(req);
    Query(Clauses(fs), Args(fs) + [IntValue(req.limit), IntValue(req.offset)], |fs| + 1, |fs| + 2, req.sort)
  }

  method BuildQuery(req: Request) returns (q: Query)
    ensures q == Compile(req)
  {
    var b := new QueryBuilder();
    b.AddNameFilters(req);
    b.AddRangeFilters(req);
    var args := b.args + [IntValue(req.limit)];
    var limitPos := |args|;
    args := args + [IntValue(req.offset)];
    q := Query(b.clauses, args, limitPos, |args|, req.sort);
  }

  // ---- Placeholders ----

  function TypeMatches(col: Column, arg: Value): bool {
    match col
    case ScenarioID => arg.IntValue?
    case PlayedAt => arg.IntValue?
    case UploadedAt => arg.IntValue?
    case HasMouseTrace => arg.BoolValue?
    case Score => arg.RealValue?
    case Accuracy => arg.RealValue?
    case _ => arg.TextValue?
  }

  /** The clause compares columns with an argument of their type. */
  predicate WellTyped(c: Clause, args: seq<Value>) {
    match c
    case Compare(_, col, p) => 1 <= p <= |args| && TypeMatches(col, args[p - 1])
    case AnyILikes(cols, p) => 1 <= p <= |args| && forall col <- cols :: TypeMatches(col, args[p - 1])
  }

  predicate FilterTyped(f: Filter) {
    match f
    case One(_, col, value) => TypeMatches(col, value)
    case Any(cols, value) => forall col <- cols :: TypeMatches(col, value)
  }

  lemma NamesTyped(req: Request)
    ensures forall f <- NameFilters(req) :: FilterTyped(f)
  {
    hide Around;
    assert forall f <- IDFilter(req.scenarioID) + SearchFilter(req.query) + TraceFilter(req.hasMouseTrace) ::
        FilterTyped(f);
    TextTyped(ScenarioName, req.scenarioName);
    TextTyped(SteamIDOrEmpty, req.steamID);
    TextTyped(SteamUsernameOrEmpty, req.steamUsername);
    hide IDFilter, SearchFilter, TraceFilter, TextFilter, FilterTyped;
  }

  lemma TextTyped(col: Column, needle: string)
    requires TypeMatches(col, TextValue(Around(needle)))
    ensures forall f <- TextFilter(col, needle) :: FilterTyped(f)
  {
    hide Around;
  }

  lemma RangesTyped(req: Request)
    ensures forall f <- RangeFilters(req) :: FilterTyped(f)
  {}

  lemma FiltersTyped(req: Request)
    ensures forall f <- Filters(req) :: FilterTyped(f)
  {
    NamesTyped(req);
    RangesTyped(req);
    hide NameFilters, RangeFilters, FilterTyped;
  }

  /**
   * The placeholders are exactly $1 to $n in order, the last two for LIMIT and OFFSET, and each has an argument of
   * its type.
   */
  lemma PlaceholdersExact(req: Request)
    ensures var q := Compile(req);
      && |q.clauses| == |q.args| - 2 && q.limitPos == |q.args| - 1 && q.offsetPos == |q.args|
      && (forall i | 0 <= i < |q.clauses| :: q.clauses[i].p == i + 1 && WellTyped(q.clauses[i], q.args))
      && q.args[q.limitPos - 1] == IntValue(req.limit) && q.args[q.offsetPos - 1] == IntValue(req.offset)
  {
    FiltersTyped(req);
    hide Filters, TypeMatches;
    var fs, q := Filters(req), Compile(req);
    forall i | 0 <= i < |fs| ensures q.clauses[i].p == i + 1 && WellTyped(q.clauses[i], q.args) {
      assert fs[i] in fs && q.args[i] == fs[i].value;
    }
  }

  // ---- Meaning ----

  predicate MeetsNames(matches: (string, string) -> bool, req: Request, row: Row) {
    && (req.scenarioID > 0 ==> row.scenarioID == req.scenarioID)
    && (req.scenarioName == "" || matches(req.scenarioName, row.scenarioName))
    && (req.steamID == "" || matches(req.steamID, row.steamID.GetOr("")))
    && (req.steamUsername == "" || matches(req.steamUsername, row.steamUsername.GetOr("")))
    && (req.query == ""
        || matches(req.query, row.fileName) || matches(req.query, row.scenarioName)
        || matches(req.query, row.steamUsername.GetOr("")) || matches(req.query, row.steamID.GetOr("")))
    && (req.hasMouseTrace.Some? ==> row.hasMouseTrace == req.hasMouseTrace.value)
  }

  predicate MeetsRanges(req: Request, row: Row) {
    && (req.minScore.Some? ==> row.score.Some? && row.score.value >= req.minScore.value)
    && (req.maxScore.Some? ==> row.score.Some? && row.score.value <= req.maxScore.value)
    && (req.minAccuracy.Some? ==> row.accuracy.Some? && row.accuracy.value >= req.minAccuracy.value)
    && (req.maxAccuracy.Some? ==> row.accuracy.Some? && row.accuracy.value <= req.maxAccuracy.value)
    && (req.fromPlayedAt.Some? ==> row.playedAt >= req.fromPlayedAt.value * 1000)
    && (req.toPlayedAt.Some? ==> row.playedAt <= req.toPlayedAt.value * 1000)
    && (req.fromUploaded.Some? ==> row.uploadedAt >= req.fromUploaded.value * 1000)
    && (req.toUploaded.Some? ==> row.uploadedAt <= req.toUploaded.value * 1000)
  }

  /** What a request asks of a row, with `matches(needle, text)` as the meaning of the text filters. */
  predicate Meets(matches: (string, string) -> bool, req: Request, row: Row) {
    MeetsNames(matches, req, row) && MeetsRanges(req, row)
  }

  function EvalFilter(fold: char -> char, row: Row, f: Filter): Truth {
    match f
    case One(op, col, value) => CompareValues(fold, op, ColumnValue(row, col), value)
    case Any(cols, value) => AnyColumn(fold, row, cols, value)
  }

  predicate AllHold(fold: char -> char, row: Row, fs: seq<Filter>) {
    forall f <- fs :: EvalFilter(fold, row, f) == True
  }

  lemma {:induction false} WhereIsAll(fold: char -> char, row: Row, clauses: seq<Clause>, args: seq<Value>)
    ensures Where(fold, row, clauses, args) == True <==> forall i | 0 <= i < |clauses| ::
        Eval(fold, row, clauses[i], args) == True
  {
    hide Eval;
    if |clauses| > 0 {
      WhereIsAll(fold, row, clauses[1..], args);
      forall i | 0 < i < |clauses| ensures clauses[i] == clauses[1..][i - 1] {}
      if Where(fold, row, clauses, args) == True {
        forall i | 0 <= i < |clauses| ensures Eval(fold, row, clauses[i], args) == True {
          if i > 0 {
            assert clauses[i] == clauses[1..][i - 1];
          }
        }
      }
    }
  }

  lemma CompiledIsAllHold(fold: char -> char, row: Row, fs: seq<Filter>, more: seq<Value>)
    ensures Where(fold, row, Clauses(fs), Args(fs) + more) == True <==> AllHold(fold, row, fs)
  {
    var clauses, args := Clauses(fs), Args(fs) + more;
    WhereIsAll(fold, row, clauses, args);
    hide CompareValues, AnyColumn, ColumnValue;
    forall i | 0 <= i < |fs| ensures Eval(fold, row, clauses[i], args) == EvalFilter(fold, row, fs[i]) {
      assert args[i] == fs[i].value;
    }
    if AllHold(fold, row, fs) {
      forall i | 0 <= i < |fs| ensures Eval(fold, row, clauses[i], args) == True {
        assert fs[i] in fs;
      }
    }
    if forall i | 0 <= i < |clauses| :: Eval(fold, row, clauses[i], args) == True {
      forall f <- fs ensures EvalFilter(fold, row, f) == True {
        var i :| 0 <= i < |fs| && fs[i] == f;
        assert Eval(fold, row, clauses[i], args) == True;
      }
    }
  }

  lemma AllHoldConcat(fold: char -> char, row: Row, a: seq<Filter>, b: seq<Filter>)
    ensures AllHold(fold, row, a + b) <==> AllHold(fold, row, a) && AllHold(fold, row, b)
  {
    hide EvalFilter;
    assert forall f <- a :: f in a + b;
    assert forall f <- b :: f in a + b;
  }

  lemma TextHolds(fold: char -> char, row: Row, col: Column, needle: string)
    requires ColumnValue(row, col).TextValue?
    ensures AllHold(fold, row, TextFilter(col, needle)) <==>
        needle == "" || ILike(fold, Around(needle), ColumnValue(row, col).s)
  {
    hide ILike, Around;
    if needle != "" {
      assert One(ILikes, col, TextValue(Around(needle))) in TextFilter(col, needle);
    }
  }

  lemma OneHolds(fold: char -> char, row: Row, f: Filter)
    ensures AllHold(fold, row, [f]) <==> EvalFilter(fold, row, f) == True
    ensures AllHold(fold, row, [])
  {
    hide EvalFilter;
    assert f in [f];
  }

  lemma RealHolds(fold: char -> char, row: Row, op: Op, col: Column, bound: Option<real>)
    requires op == AtLeast || op == AtMost
    requires col == Score || col == Accuracy
    ensures AllHold(fold, row, RealFilter(op, col, bound)) <==>
            (bound.Some? ==>
               var v := if col == Score then row.score else row.accuracy;
               v.Some? && if op == AtLeast then v.value >= bound.value else v.value <= bound.value)
  {
    OneHolds(fold, row, One(op, col, RealValue(bound.GetOr(0.0))));
  }

  lemma TimeHolds(fold: char -> char, row: Row, op: Op, col: Column, millis: Option<int>)
    requires op == AtLeast || op == AtMost
    requires col == PlayedAt || col == UploadedAt
    ensures AllHold(fold, row, TimeFilter(op, col, millis)) <==>
            (millis.Some? ==>
               var v := if col == PlayedAt then row.playedAt else row.uploadedAt;
               if op == AtLeast then v >= millis.value * 1000 else v <= millis.value * 1000)
  {
    OneHolds(fold, row, One(op, col, IntValue(millis.GetOr(0) * 1000)));
  }

  function LikeTest(fold: char -> char): (string, string) -> bool {
    (n, t) => ILike(fold, Around(n), t)
  }

  lemma NameFiltersMean(fold: char -> char, req: Request, row: Row)
    ensures AllHold(fold, row, NameFilters(req)) <==> MeetsNames(LikeTest(fold), req, row)
  {
    var f1, f5, f6 := IDFilter(req.scenarioID), SearchFilter(req.query), TraceFilter(req.hasMouseTrace);
    var f2 := TextFilter(ScenarioName, req.scenarioName);
    var f3 := TextFilter(SteamIDOrEmpty, req.steamID);
    var f4 := TextFilter(SteamUsernameOrEmpty, req.steamUsername);
    EqualityHolds(fold, row, req.scenarioID, req.hasMouseTrace);
    SearchHolds(fold, row, req.query);
    TextHolds(fold, row, ScenarioName, req.scenarioName);
    TextHolds(fold, row, SteamIDOrEmpty, req.steamID);
    TextHolds(fold, row, SteamUsernameOrEmpty, req.steamUsername);
    hide ILike, Around, AllHold, TextFilter, IDFilter, SearchFilter, TraceFilter;
    AllHoldConcat(fold, row, f1, f2);
    AllHoldConcat(fold, row, f1 + f2, f3);
    AllHoldConcat(fold, row, f1 + f2 + f3, f4);
    AllHoldConcat(fold, row, f1 + f2 + f3 + f4, f5);
    AllHoldConcat(fold, row, f1 + f2 + f3 + f4 + f5, f6);
  }

  lemma EqualityHolds(fold: char -> char, row: Row, id: int, trace: Option<bool>)
    ensures AllHold(fold, row, IDFilter(id)) <==> (id > 0 ==> row.scenarioID == id)
    ensures AllHold(fold, row, TraceFilter(trace)) <==> (trace.Some? ==> row.hasMouseTrace == trace.value)
  {
    OneHolds(fold, row, One(Equals, ScenarioID, IntValue(id)));
    OneHolds(fold, row, One(Equals, HasMouseTrace, BoolValue(trace.GetOr(false))));
    hide AllHold;
  }

  lemma SearchHolds(fold: char -> char, row: Row, needle: string)
    ensures AllHold(fold, row, SearchFilter(needle)) <==>
            || needle == ""
            || ILike(fold, Around(needle), row.fileName) || ILike(fold, Around(needle), row.scenarioName)
            || ILike(fold, Around(needle), row.steamUsername.GetOr(""))
                || ILike(fold, Around(needle), row.steamID.GetOr(""))
  {
    hide ILike, Around;
    var arg := TextValue(Around(needle));
    OneHolds(fold, row, Any(SEARCHED, arg));
    hide AllHold;
    var c3 := [SteamIDOrEmpty];
    var c2 := [SteamUsernameOrEmpty, SteamIDOrEmpty];
    var c1 := [ScenarioName, SteamUsernameOrEmpty, SteamIDOrEmpty];
    assert SEARCHED[1..] == c1 && c1[1..] == c2 && c2[1..] == c3 && c3[1..] == [];
    assert AnyColumn(fold, row, c3, arg) == CompareValues(fold, ILikes, ColumnValue(row, SteamIDOrEmpty), arg);
    assert AnyColumn(fold, row, c2, arg) ==
        Or(CompareValues(fold, ILikes, ColumnValue(row, SteamUsernameOrEmpty), arg), AnyColumn(fold, row, c3, arg));
    assert AnyColumn(fold, row, c1, arg) ==
        Or(CompareValues(fold, ILikes, ColumnValue(row, ScenarioName), arg), AnyColumn(fold, row, c2, arg));
  }

  lemma RangeFiltersMean(fold: char -> char, req: Request, row: Row)
    ensures AllHold(fold, row, RangeFilters(req)) <==> MeetsRanges(req, row)
  {
    var f1 := RealFilter(AtLeast, Score, req.minScore);
    var f2 := RealFilter(AtMost, Score, req.maxScore);
    var f3 := RealFilter(AtLeast, Accuracy, req.minAccuracy);
    var f4 := RealFilter(AtMost, Accuracy, req.maxAccuracy);
    var f5 := TimeFilter(AtLeast, PlayedAt, req.fromPlayedAt);
    var f6 := TimeFilter(AtMost, PlayedAt, req.toPlayedAt);
    var f7 := TimeFilter(AtLeast, UploadedAt, req.fromUploaded);
    var f8 := TimeFilter(AtMost, UploadedAt, req.toUploaded);
    RealHolds(fold, row, AtLeast, Score, req.minScore);
    RealHolds(fold, row, AtMost, Score, req.maxScore);
    RealHolds(fold, row, AtLeast, Accuracy, req.minAccuracy);
    RealHolds(fold, row, AtMost, Accuracy, req.maxAccuracy);
    TimeHolds(fold, row, AtLeast, PlayedAt, req.fromPlayedAt);
    TimeHolds(fold, row, AtMost, PlayedAt, req.toPlayedAt);
    TimeHolds(fold, row, AtLeast, UploadedAt, req.fromUploaded);
    TimeHolds(fold, row, AtMost, UploadedAt, req.toUploaded);
    hide AllHold, RealFilter, TimeFilter;
    AllHoldConcat(fold, row, f1, f2);
    AllHoldConcat(fold, row, f1 + f2, f3);
    AllHoldConcat(fold, row, f1 + f2 + f3, f4);
    AllHoldConcat(fold, row, f1 + f2 + f3 + f4, f5);
    AllHoldConcat(fold, row, f1 + f2 + f3 + f4 + f5, f6);
    AllHoldConcat(fold, row, f1 + f2 + f3 + f4 + f5 + f6, f7);
    AllHoldConcat(fold, row, f1 + f2 + f3 + f4 + f5 + f6 + f7, f8);
  }

  predicate Accepts(fold: char -> char, q: Query, row: Row) {
    Where(fold, row, q.clauses, q.args) == True
  }

  /** The compiled query accepts a row exactly when the row meets every filter of the request. */
  lemma QueryMeansRequest(fold: char -> char, req: Request, row: Row)
    ensures Accepts(fold, Compile(req), row) <==> Meets(LikeTest(fold), req, row)
  {
    hide Filters, NameFilters, RangeFilters, AllHold, LikeTest, Where;
    CompiledIsAllHold(fold, row, Filters(req), [IntValue(req.limit), IntValue(req.offset)]);
    FiltersSplit(fold, req, row);
    NameFiltersMean(fold, req, row);
    RangeFiltersMean(fold, req, row);
  }

  lemma FiltersSplit(fold: char -> char, req: Request, row: Row)
    ensures AllHold(fold, row, Filters(req)) <==>
        AllHold(fold, row, NameFilters(req)) && AllHold(fold, row, RangeFilters(req))
  {
    hide NameFilters, RangeFilters, AllHold;
    AllHoldConcat(fold, row, NameFilters(req), RangeFilters(req));
  }

  predicate PlainRequest(req: Request) {
    Plain(req.scenarioName) && Plain(req.steamID) && Plain(req.steamUsername) && Plain(req.query)
  }

  function ContainsTest(fold: char -> char): (string, string) -> bool {
    (n, t) => ContainsFold(fold, t, n)
  }

  /** Without %, _ or backslash in its needles, a request asks for rows that contain them, ignoring case. */
  lemma PlainQueryMeansContains(fold: char -> char, req: Request, row: Row)
    requires CaseFold(fold) && PlainRequest(req)
    ensures Accepts(fold, Compile(req), row) <==> Meets(ContainsTest(fold), req, row)
  {
    QueryMeansRequest(fold, req, row);
    PlainTests(fold, req.scenarioName);
    PlainTests(fold, req.steamID);
    PlainTests(fold, req.steamUsername);
    PlainTests(fold, req.query);
    hide Accepts, Compile, LikeTest, ContainsTest;
  }

  lemma PlainTests(fold: char -> char, n: string)
    requires CaseFold(fold) && Plain(n)
    ensures forall t :: LikeTest(fold)(n, t) == ContainsTest(fold)(n, t)
  {
    ContainsExactlyWhenPlain(fold, n);
    hide ILike, ContainsFold, CaseFold, Around;
  }
}
