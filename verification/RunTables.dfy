/** Inserting a run as one transaction over the players, scenarios and runs tables. */
module RunTables {
  import opened Wrappers
  import opened Bytes
  import opened RunFile
  import opened Uploads

  // "unknown"
  const UNKNOWN_SCENARIO: Text := [0x75, 0x6E, 0x6B, 0x6E, 0x6F, 0x77, 0x6E]

  datatype Player = Player(id: nat, username: Option<Text>)

  datatype Scenario = Scenario(id: nat, runCount: nat)

  datatype RunRow = RunRow(playerID: Option<nat>, scenarioID: nat, meta: RunMetadata)

  /** The committed tables; the counters supply fresh row identifiers. */
  datatype Tables = Tables(
    players: map<Text, Player>,
    scenarios: map<Text, Scenario>,
    runs: map<Hash, RunRow>,
    nextPlayer: nat,
    nextScenario: nat)

  const NO_TABLES := Tables(map[], map[], map[], 0, 0)

  /** The statement of the transaction that fails, if any. */
  datatype Fault = NoFault | BeginFault | PlayerFault | ScenarioFault | InsertFault | CountFault | CommitFault

  function PlayerKey(meta: RunMetadata): Text {
    TrimSpace(meta.steamID)
  }

  function UsernameOf(meta: RunMetadata): Text {
    TrimSpace(meta.steamUsername)
  }

  function ScenarioKey(meta: RunMetadata): Text {
    if TrimSpace(meta.scenarioName) == [] then UNKNOWN_SCENARIO else TrimSpace(meta.scenarioName)
  }

  // ---- What each statement does to the tables ----

  /** `INSERT ... ON CONFLICT (steam_id) DO UPDATE`: an empty name keeps the one stored. */
  function WithPlayer(t: Tables, meta: RunMetadata): Tables {
    var key, name := PlayerKey(meta), UsernameOf(meta);
    if key == [] then t
    else if key in t.players then
      var p := t.players[key];
      t.(players := t.players[key := Player(p.id, if name == [] then p.username else Some(name))])
    else
      t.(players := t.players[key := Player(t.nextPlayer, if name == [] then None else Some(name))],
         nextPlayer := t.nextPlayer + 1)
  }

  function PlayerIDOf(t: Tables, meta: RunMetadata): Option<nat> {
    if PlayerKey(meta) in t.players && PlayerKey(meta) != [] then Some(t.players[PlayerKey(meta)].id) else None
  }

  function WithScenario(t: Tables, meta: RunMetadata): (r: Tables)
    ensures ScenarioKey(meta) in r.scenarios
  {
    var key := ScenarioKey(meta);
    if key in t.scenarios then t
    else t.(scenarios := t.scenarios[key := Scenario(t.nextScenario, 0)], nextScenario := t.nextScenario + 1)
  }

  function WithRun(t: Tables, meta: RunMetadata): Tables
    requires ScenarioKey(meta) in t.scenarios
  {
    var s := t.scenarios[ScenarioKey(meta)];
    t.(runs := t.runs[meta.hash := RunRow(PlayerIDOf(t, meta), s.id, meta)],
       scenarios := t.scenarios[ScenarioKey(meta) := s.(runCount := s.runCount + 1)])
  }

  datatype Inserted = Inserted(tables: Tables, result: Option<bool>)

  /** The whole transaction: all of it or nothing. A duplicate hash is rolled back, not committed. */
  function Insert(t: Tables, meta: RunMetadata, fault: Fault): Inserted {
    if fault.BeginFault? || fault.ScenarioFault? || fault.InsertFault?
       || (fault.PlayerFault? && PlayerKey(meta) != []) then
      Inserted(t, None)
    else if meta.hash in t.runs then Inserted(t, Some(false))
    else if fault.CountFault? || fault.CommitFault? then Inserted(t, None)
    else Inserted(WithRun(WithScenario(WithPlayer(t, meta), meta), meta), Some(true))
  }

  // ---- The transaction as the program runs it ----

  class Database {
    var players: map<Text, Player>
    var scenarios: map<Text, Scenario>
    var runs: map<Hash, RunRow>
    var nextPlayer: nat
    var nextScenario: nat

    function Value(): Tables
      reads this
    {
      Tables(players, scenarios, runs, nextPlayer, nextScenario)
    }

    constructor (t: Tables)
      ensures Value() == t
    {
      players, scenarios, runs, nextPlayer, nextScenario := t.players, t.scenarios, t.runs, t.nextPlayer,
          t.nextScenario;
    }

    method EnsurePlayer(meta: RunMetadata) returns (id: Option<nat>)
      modifies this
      ensures Value() == WithPlayer(old(Value()), meta)
      ensures id == PlayerIDOf(Value(), meta)
    {
      hide TrimSpace;
      var steamID := TrimSpace(meta.steamID);
      if steamID == [] {
        return None;
      }
      var name := TrimSpace(meta.steamUsername);
      if steamID in players {
        var p := players[steamID];
        players := players[steamID := p.(username := if name == [] then p.username else Some(name))];
      } else {
        players := players[steamID := Player(nextPlayer, if name == [] then None else Some(name))];
        nextPlayer := nextPlayer + 1;
      }
      id := Some(players[steamID].id);
    }

    method EnsureScenario(meta: RunMetadata) returns (id: nat)
      modifies this
      ensures Value() == WithScenario(old(Value()), meta)
      ensures ScenarioKey(meta) in scenarios && id == scenarios[ScenarioKey(meta)].id
    {
      hide TrimSpace;
      var name := TrimSpace(meta.scenarioName);
      if name == [] {
        name := UNKNOWN_SCENARIO;
      }
      if name !in scenarios {
        scenarios := scenarios[name := Scenario(nextScenario, 0)];
        nextScenario := nextScenario + 1;
      }
      id := scenarios[name].id;
    }

    /** Makes the state of a transaction the committed one. */
    method Commit(tx: Database)
      modifies this
      ensures Value() == old(tx.Value())
    {
      players, scenarios, runs, nextPlayer, nextScenario := tx.players, tx.scenarios, tx.runs, tx.nextPlayer,
          tx.nextScenario;
    }

    method InsertRun(meta: RunMetadata, fault: Fault) returns (inserted: Option<bool>)
      modifies this
      ensures Inserted(Value(), inserted) == Insert(old(Value()), meta, fault)
    {
      hide PlayerKey, ScenarioKey, UsernameOf, WithPlayer, WithScenario;
      if fault == BeginFault {
        return None;
      }
      // Leaving without a commit rolls the transaction back.
      var tx := new Database(Value());
      ghost var before := Value();
      if fault == PlayerFault && PlayerKey(meta) != [] {
        return None;
      }
      var playerID := tx.EnsurePlayer(meta);
      PlayerKeepsRuns(before, meta);
      if fault == ScenarioFault {
        return None;
      }
      var scenarioID := tx.EnsureScenario(meta);
      ScenarioKeepsRest(WithPlayer(before, meta), meta);
      if fault == InsertFault {
        return None;
      }
      if meta.hash in tx.runs {
        return Some(false);
      }
      tx.runs := tx.runs[meta.hash := RunRow(playerID, scenarioID, meta)];
      if fault == CountFault {
        return None;
      }
      var key := ScenarioKey(meta);
      tx.scenarios := tx.scenarios[key := Scenario(scenarioID, tx.scenarios[key].runCount + 1)];
      if fault == CommitFault {
        return None;
      }
      Commit(tx);
      return Some(true);
    }
  }

  lemma PlayerKeepsRuns(t: Tables, meta: RunMetadata)
    ensures var r := WithPlayer(t, meta);
      r.runs == t.runs && r.scenarios == t.scenarios && r.nextScenario == t.nextScenario
  {
    hide PlayerKey, UsernameOf;
  }

  lemma ScenarioKeepsRest(t: Tables, meta: RunMetadata)
    ensures var r := WithScenario(t, meta);
      r.runs == t.runs && r.players == t.players && r.nextPlayer == t.nextPlayer
  {
    hide ScenarioKey;
  }

  // ---- What a call does, in terms of its metadata ----

  /** The name a run's scenario is stored under. */
  function ScenarioName(meta: RunMetadata): Text {
    if TrimSpace(meta.scenarioName) == [] then [0x75, 0x6E, 0x6B, 0x6E, 0x6F, 0x77, 0x6E]
    else TrimSpace(meta.scenarioName)
  }

  /** The players after a committed run: the run's own player, if it names one, is there and renamed. */
  predicate BooksPlayer(t: Tables, r: Tables, meta: RunMetadata) {
    var (id, name) := (TrimSpace(meta.steamID), TrimSpace(meta.steamUsername));
    if id == [] then r.players == t.players && r.nextPlayer == t.nextPlayer
    else
      && id in r.players && r.players == t.players[id := r.players[id]]
      && (id in t.players ==>
            && r.players[id].id == t.players[id].id && r.nextPlayer == t.nextPlayer
            && r.players[id].username == if name == [] then t.players[id].username else Some(name))
      && (id !in t.players ==>
            && r.players[id].id == t.nextPlayer && r.nextPlayer == t.nextPlayer + 1
            && r.players[id].username == if name == [] then None else Some(name))
  }

  /** The scenarios after it: the run's own scenario has one run more. */
  predicate BooksScenario(t: Tables, r: Tables, name: Text) {
    && name in r.scenarios && r.scenarios == t.scenarios[name := r.scenarios[name]]
    && (name in t.scenarios ==>
          && r.scenarios[name] == Scenario(t.scenarios[name].id, t.scenarios[name].runCount + 1)
          && r.nextScenario == t.nextScenario)
    && (name !in t.scenarios ==>
          r.scenarios[name] == Scenario(t.nextScenario, 1) && r.nextScenario == t.nextScenario + 1)
  }

  /** The runs after it: the run refers to its player and its scenario. */
  predicate BooksRun(t: Tables, r: Tables, meta: RunMetadata) {
    var (id, name) := (TrimSpace(meta.steamID), ScenarioName(meta));
    && name in r.scenarios && (id != [] ==> id in r.players)
    && r.runs == t.runs[meta.hash := RunRow(if id == [] then None else Some(r.players[id].id),
                                            r.scenarios[name].id, meta)]
  }

  /** A statement that the call comes to fails. The player statement is only run for a run that names a player. */
  predicate Fails(t: Tables, meta: RunMetadata, fault: Fault) {
    match fault
    case NoFault => false
    case BeginFault => true
    case PlayerFault => TrimSpace(meta.steamID) != []
    case ScenarioFault => true
    case InsertFault => true
    case CountFault => meta.hash !in t.runs
    case CommitFault => meta.hash !in t.runs
  }

  /**
   * A call fails exactly if a statement it comes to fails, reports a duplicate exactly if the hash is there, and in
   * both cases changes nothing. Otherwise it books the run, its player and its scenario.
   */
  lemma InsertBooks(t: Tables, meta: RunMetadata, fault: Fault)
    ensures var Inserted(r, result) := Insert(t, meta, fault);
      && (result == None <==> Fails(t, meta, fault))
      && (result == Some(false) <==> !Fails(t, meta, fault) && meta.hash in t.runs)
      && (result != Some(true) ==> r == t)
      && (result == Some(true) ==>
            BooksPlayer(t, r, meta) && BooksScenario(t, r, ScenarioName(meta)) && BooksRun(t, r, meta))
  {
    hide TrimSpace, WithPlayer, WithScenario, WithRun;
    KeysAreNames(meta);
    var p := WithPlayer(t, meta);
    var s := WithScenario(p, meta);
    var r := WithRun(s, meta);
    PlayerKeepsRuns(t, meta);
    ScenarioKeepsRest(p, meta);
    PlayerBooked(t, meta);
    ScenarioBooked(p, meta);
    RunBooked(t, s, meta);
  }

  lemma RunBooked(t: Tables, s: Tables, meta: RunMetadata)
    requires s.runs == t.runs && ScenarioKey(meta) in s.scenarios
    requires TrimSpace(meta.steamID) != [] ==> TrimSpace(meta.steamID) in s.players
    ensures BooksRun(t, WithRun(s, meta), meta)
  {
    hide TrimSpace, ScenarioName;
    KeysAreNames(meta);
  }

  lemma KeysAreNames(meta: RunMetadata)
    ensures ScenarioKey(meta) == ScenarioName(meta)
  {
    hide TrimSpace;
  }

  lemma PlayerBooked(t: Tables, meta: RunMetadata)
    ensures BooksPlayer(t, WithPlayer(t, meta), meta)
  {
    hide TrimSpace;
  }

  lemma ScenarioBooked(t: Tables, meta: RunMetadata)
    ensures var r := WithRun(WithScenario(t, meta), meta);
      BooksScenario(t, r, ScenarioKey(meta)) && r.players == t.players && r.nextPlayer == t.nextPlayer
  {
    hide ScenarioKey, PlayerIDOf;
  }

  // ---- Accounting ----

  function RunsOf(t: Tables, scenarioID: nat): set<Hash> {
    set h | h in t.runs && t.runs[h].scenarioID == scenarioID
  }

  predicate DistinctScenarios(t: Tables) {
    && (forall n <- t.scenarios :: t.scenarios[n].id < t.nextScenario)
    && (forall m, n | m in t.scenarios && n in t.scenarios && t.scenarios[m].id == t.scenarios[n].id :: m == n)
  }

  predicate DistinctPlayers(t: Tables) {
    && (forall n <- t.players :: t.players[n].id < t.nextPlayer)
    && (forall m, n | m in t.players && n in t.players && t.players[m].id == t.players[n].id :: m == n)
  }

  /** Every run refers to the scenario and the player its metadata name. */
  ghost predicate RunsRefer(t: Tables) {
    forall h <- t.runs ::
      var row := t.runs[h];
      && row.meta.hash == h
      && ScenarioKey(row.meta) in t.scenarios && t.scenarios[ScenarioKey(row.meta)].id == row.scenarioID
      && (PlayerKey(row.meta) == [] <==> row.playerID.None?)
      && (PlayerKey(row.meta) != [] ==>
            PlayerKey(row.meta) in t.players && row.playerID == Some(t.players[PlayerKey(row.meta)].id))
  }

  /** Each scenario counts its runs. */
  ghost predicate CountsRuns(t: Tables) {
    forall n <- t.scenarios :: t.scenarios[n].runCount == |RunsOf(t, t.scenarios[n].id)|
  }

  ghost predicate Accounted(t: Tables) {
    DistinctScenarios(t) && DistinctPlayers(t) && RunsRefer(t) && CountsRuns(t)
  }

  /** The player statement keeps every player's identifier and touches nothing else. */
  lemma PlayerKeepsIDs(t: Tables, meta: RunMetadata)
    ensures var r := WithPlayer(t, meta);
      && (forall n <- t.players :: n in r.players && r.players[n].id == t.players[n].id)
      && r.players.Keys == t.players.Keys + (if PlayerKey(meta) == [] then {} else {PlayerKey(meta)})
  {
    hide PlayerKey, UsernameOf;
  }

  /** Tables with the same runs, in which players and scenarios keep their identifiers, keep the references. */
  predicate KeepsIDs(t: Tables, r: Tables) {
    && (forall n <- t.players :: n in r.players && r.players[n].id == t.players[n].id)
    && (forall n <- t.scenarios :: n in r.scenarios && r.scenarios[n].id == t.scenarios[n].id)
  }

  lemma ReferencesStay(t: Tables, r: Tables)
    requires RunsRefer(t) && r.runs == t.runs && KeepsIDs(t, r)
    ensures RunsRefer(r)
  {
    hide PlayerKey, ScenarioKey;
  }

  lemma CountsStay(t: Tables, r: Tables)
    requires CountsRuns(t) && r.runs == t.runs && r.scenarios == t.scenarios
    ensures CountsRuns(r)
  {
    assert forall id :: RunsOf(r, id) == RunsOf(t, id);
  }

  lemma PlayerAccounts(t: Tables, meta: RunMetadata)
    requires Accounted(t)
    ensures Accounted(WithPlayer(t, meta))
    ensures PlayerKey(meta) != [] ==> PlayerKey(meta) in WithPlayer(t, meta).players
  {
    hide WithPlayer, PlayerKey, DistinctPlayers, RunsRefer, CountsRuns;
    PlayerKeepsIDs(t, meta);
    PlayerKeepsRuns(t, meta);
    PlayersStayDistinct(t, meta);
    ReferencesStay(t, WithPlayer(t, meta));
    CountsStay(t, WithPlayer(t, meta));
  }

  lemma PlayersStayDistinct(t: Tables, meta: RunMetadata)
    requires DistinctPlayers(t)
    ensures DistinctPlayers(WithPlayer(t, meta))
  {
    hide PlayerKey, UsernameOf;
  }

  lemma ScenarioAccounts(t: Tables, meta: RunMetadata)
    requires Accounted(t)
    ensures Accounted(WithScenario(t, meta))
  {
    hide WithScenario, ScenarioKey, DistinctScenarios, RunsRefer, CountsRuns;
    ScenarioKeepsRest(t, meta);
    ScenarioStaysDistinct(t, meta);
    ScenarioCounts(t, meta);
    ReferencesStay(t, WithScenario(t, meta));
  }

  lemma ScenarioStaysDistinct(t: Tables, meta: RunMetadata)
    requires DistinctScenarios(t)
    ensures DistinctScenarios(WithScenario(t, meta)) && KeepsIDs(t, WithScenario(t, meta))
  {
    hide ScenarioKey;
  }

  lemma ScenarioCounts(t: Tables, meta: RunMetadata)
    requires DistinctScenarios(t) && RunsRefer(t) && CountsRuns(t)
    ensures CountsRuns(WithScenario(t, meta))
  {
    hide PlayerKey, ScenarioKey, RunsRefer;
    var r := WithScenario(t, meta);
    forall id ensures RunsOf(r, id) == RunsOf(t, id) {}
    if ScenarioKey(meta) !in t.scenarios {
      NoRunsYet(t, t.nextScenario);
    }
  }

  lemma NoRunsYet(t: Tables, id: nat)
    requires DistinctScenarios(t) && RunsRefer(t) && id >= t.nextScenario
    ensures RunsOf(t, id) == {}
  {
    hide PlayerKey, ScenarioKey;
  }

  lemma RunAccounts(t: Tables, meta: RunMetadata)
    requires Accounted(t) && ScenarioKey(meta) in t.scenarios && meta.hash !in t.runs
    requires PlayerKey(meta) != [] ==> PlayerKey(meta) in t.players
    ensures Accounted(WithRun(t, meta))
  {
    hide WithRun, RunsRefer, CountsRuns, ScenarioKey, PlayerKey;
    RunKeepsIDs(t, meta);
    RunCounts(t, meta);
    RunRefers(t, meta);
  }

  lemma RunKeepsIDs(t: Tables, meta: RunMetadata)
    requires ScenarioKey(meta) in t.scenarios
    ensures var r := WithRun(t, meta);
      && r.scenarios.Keys == t.scenarios.Keys && (forall n <- t.scenarios :: r.scenarios[n].id == t.scenarios[n].id)
      && r.players == t.players && r.nextPlayer == t.nextPlayer && r.nextScenario == t.nextScenario
  {
    hide ScenarioKey, PlayerIDOf;
  }

  lemma RunRefers(t: Tables, meta: RunMetadata)
    requires RunsRefer(t) && ScenarioKey(meta) in t.scenarios
    requires PlayerKey(meta) != [] ==> PlayerKey(meta) in t.players
    ensures RunsRefer(WithRun(t, meta))
  {
    hide ScenarioKey, PlayerKey;
    var r := WithRun(t, meta);
    RunKeepsIDs(t, meta);
    forall h <- r.runs | h != meta.hash ensures r.runs[h] == t.runs[h] {}
    assert r.runs[meta.hash].meta == meta;
  }

  lemma RunCounts(t: Tables, meta: RunMetadata)
    requires DistinctScenarios(t) && CountsRuns(t) && ScenarioKey(meta) in t.scenarios && meta.hash !in t.runs
    ensures CountsRuns(WithRun(t, meta))
  {
    hide ScenarioKey, PlayerIDOf;
    var r := WithRun(t, meta);
    var id := t.scenarios[ScenarioKey(meta)].id;
    assert RunsOf(r, id) == RunsOf(t, id) + {meta.hash};
    forall n <- t.scenarios | n != ScenarioKey(meta)
      ensures RunsOf(r, t.scenarios[n].id) == RunsOf(t, t.scenarios[n].id) {
      assert t.scenarios[n].id != id;
    }
  }

  lemma InsertAccounts(t: Tables, meta: RunMetadata, fault: Fault)
    requires Accounted(t)
    ensures Accounted(Insert(t, meta, fault).tables)
  {
    hide Accounted, WithPlayer, WithScenario, WithRun, PlayerKey, ScenarioKey;
    PlayerAccounts(t, meta);
    ScenarioAccounts(WithPlayer(t, meta), meta);
    PlayerKeepsRuns(t, meta);
    ScenarioKeepsRest(WithPlayer(t, meta), meta);
    if Insert(t, meta, fault).result == Some(true) {
      RunAccounts(WithScenario(WithPlayer(t, meta), meta), meta);
    }
  }

  // ---- Over a sequence of calls ----

  datatype Request = Request(meta: RunMetadata, fault: Fault)

  function InsertAll(t: Tables, requests: seq<Request>): Tables
    decreases |requests|
  {
    if |requests| == 0 then t
    else
      var r := requests[|requests| - 1];
      Insert(InsertAll(t, requests[..|requests| - 1]), r.meta, r.fault).tables
  }

  /** The metadata of the requests that committed, in order. */
  function Committed(t: Tables, requests: seq<Request>): seq<RunMetadata>
    decreases |requests|
  {
    if |requests| == 0 then []
    else
      var earlier, r := requests[..|requests| - 1], requests[|requests| - 1];
      Committed(t, earlier) + if Insert(InsertAll(t, earlier), r.meta, r.fault).result == Some(true) then [r.meta]
          else []
  }

  /** The last non-empty username a player committed. */
  function LastUsername(log: seq<RunMetadata>, steamID: Text): Option<Text> {
    if |log| == 0 then None
    else
      var m := log[|log| - 1];
      if PlayerKey(m) == steamID && UsernameOf(m) != [] then Some(UsernameOf(m))
          else LastUsername(log[..|log| - 1], steamID)
  }

  ghost predicate HashesReflect(t: Tables, log: seq<RunMetadata>) {
    forall h: Hash :: h in t.runs <==> exists m <- log :: m.hash == h
  }

  ghost predicate PlayersReflect(t: Tables, log: seq<RunMetadata>) {
    forall key :: key in t.players <==> key != [] && exists m <- log :: PlayerKey(m) == key
  }

  ghost predicate ScenariosReflect(t: Tables, log: seq<RunMetadata>) {
    forall key :: key in t.scenarios <==> exists m <- log :: ScenarioKey(m) == key
  }

  predicate UsernamesReflect(t: Tables, log: seq<RunMetadata>) {
    forall key <- t.players :: t.players[key].username == LastUsername(log, key)
  }

  /** The tables reflect the committed runs and nothing else. */
  ghost predicate Reflects(t: Tables, log: seq<RunMetadata>) {
    HashesReflect(t, log) && PlayersReflect(t, log) && ScenariosReflect(t, log) && UsernamesReflect(t, log)
  }

  function Inserting(t: Tables, meta: RunMetadata): Tables {
    WithRun(WithScenario(WithPlayer(t, meta), meta), meta)
  }

  lemma InsertedKeys(t: Tables, meta: RunMetadata)
    ensures var r := Inserting(t, meta);
      && r.runs.Keys == t.runs.Keys + {meta.hash}
      && r.players.Keys == t.players.Keys + (if PlayerKey(meta) == [] then {} else {PlayerKey(meta)})
      && r.scenarios.Keys == t.scenarios.Keys + {ScenarioKey(meta)}
      && r.players == WithPlayer(t, meta).players
  {
    PlayerKeepsIDs(t, meta);
    PlayerKeepsRuns(t, meta);
    ScenarioKeepsRest(WithPlayer(t, meta), meta);
    hide WithPlayer, PlayerKey, ScenarioKey, PlayerIDOf;
  }

  lemma ReflectsInsert(t: Tables, log: seq<RunMetadata>, meta: RunMetadata)
    requires Reflects(t, log)
    ensures Reflects(Inserting(t, meta), log + [meta])
  {
    InsertedKeys(t, meta);
    ReflectHashes(t, log, meta);
    ReflectPlayers(t, log, meta);
    ReflectScenarios(t, log, meta);
    ReflectUsernames(t, log, meta);
    hide Inserting, WithPlayer, HashesReflect, PlayersReflect, ScenariosReflect, UsernamesReflect;
  }

  lemma ReflectHashes(t: Tables, log: seq<RunMetadata>, meta: RunMetadata)
    requires HashesReflect(t, log) && Inserting(t, meta).runs.Keys == t.runs.Keys + {meta.hash}
    ensures HashesReflect(Inserting(t, meta), log + [meta])
  {
    hide Inserting;
    assert meta in log + [meta] && forall m <- log :: m in log + [meta];
  }

  lemma ReflectPlayers(t: Tables, log: seq<RunMetadata>, meta: RunMetadata)
    requires PlayersReflect(t, log)
    requires Inserting(t, meta).players.Keys ==
        t.players.Keys + (if PlayerKey(meta) == [] then {} else {PlayerKey(meta)})
    ensures PlayersReflect(Inserting(t, meta), log + [meta])
  {
    hide Inserting, PlayerKey;
    assert meta in log + [meta] && forall m <- log :: m in log + [meta];
  }

  lemma ReflectScenarios(t: Tables, log: seq<RunMetadata>, meta: RunMetadata)
    requires ScenariosReflect(t, log)
    requires Inserting(t, meta).scenarios.Keys == t.scenarios.Keys + {ScenarioKey(meta)}
    ensures ScenariosReflect(Inserting(t, meta), log + [meta])
  {
    hide Inserting, ScenarioKey;
    assert meta in log + [meta] && forall m <- log :: m in log + [meta];
  }

  lemma ReflectUsernames(t: Tables, log: seq<RunMetadata>, meta: RunMetadata)
    requires PlayersReflect(t, log) && UsernamesReflect(t, log)
    requires Inserting(t, meta).players == WithPlayer(t, meta).players
    ensures UsernamesReflect(Inserting(t, meta), log + [meta])
  {
    hide PlayerKey, UsernameOf, Inserting;
    var r := WithPlayer(t, meta);
    assert (log + [meta])[..|log|] == log;
    forall key <- r.players ensures r.players[key].username == LastUsername(log + [meta], key) {
      if key !in t.players {
        NeverNamed(log, key);
      }
    }
  }

  lemma {:induction false} NeverNamed(log: seq<RunMetadata>, key: Text)
    requires forall m <- log :: PlayerKey(m) != key
    ensures LastUsername(log, key).None?
  {
    hide PlayerKey, UsernameOf;
    if |log| > 0 {
      NeverNamed(log[..|log| - 1], key);
    }
  }

  /**
   * After any sequence of inserts, each scenario's run count is its number of runs, and the tables hold exactly
   * what the committed runs brought: rejected and failed inserts leave no trace, and each player carries the
   * last non-empty name committed.
   */
  lemma {:induction false} InsertsAccountForRuns(requests: seq<Request>)
    ensures Accounted(InsertAll(NO_TABLES, requests))
    ensures Reflects(InsertAll(NO_TABLES, requests), Committed(NO_TABLES, requests))
    decreases |requests|
  {
    hide Accounted, Reflects, Insert, Inserting;
    if |requests| == 0 {
      NothingInserted();
    } else {
      var earlier, r := requests[..|requests| - 1], requests[|requests| - 1];
      InsertsAccountForRuns(earlier);
      var t := InsertAll(NO_TABLES, earlier);
      InsertAccounts(t, r.meta, r.fault);
      InsertCases(t, r.meta, r.fault);
      if Insert(t, r.meta, r.fault).result == Some(true) {
        ReflectsInsert(t, Committed(NO_TABLES, earlier), r.meta);
      } else {
        assert Committed(NO_TABLES, earlier) + [] == Committed(NO_TABLES, earlier);
      }
    }
  }

  lemma NothingInserted()
    ensures Accounted(NO_TABLES) && Reflects(NO_TABLES, [])
  {}

  lemma InsertCases(t: Tables, meta: RunMetadata, fault: Fault)
    ensures var r := Insert(t, meta, fault); r.tables == if r.result == Some(true) then Inserting(t, meta) else t
  {
    hide WithPlayer, WithScenario, WithRun, PlayerKey;
  }

  /** Seen from the service, the transaction is the insert of the upload protocol. */
  function RowsOf(t: Tables): map<Hash, RunMetadata> {
    map h | h in t.runs :: t.runs[h].meta
  }

  lemma InsertRefinesProtocol(t: Tables, meta: RunMetadata, fault: Fault)
    ensures var r := Insert(t, meta, fault);
      && (r.result == None || r.result == Some(meta.hash !in RowsOf(t)))
      && RowsOf(r.tables) == (if r.result == Some(true) then RowsOf(t)[meta.hash := meta] else RowsOf(t))
      && (fault == NoFault ==> r.result.Some?)
  {
    PlayerKeepsRuns(t, meta);
    ScenarioKeepsRest(WithPlayer(t, meta), meta);
    hide WithPlayer, WithScenario, PlayerKey, ScenarioKey;
  }
}
