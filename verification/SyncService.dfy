/** The service as one client sees it: syncing one file, syncing a batch, downloading. */
module SyncService {
  import opened Wrappers
  import opened Bytes
  import opened RunFile
  import opened Uploads

  /**
   * What the outside world does during one call: the replies it gives, and the rows that other clients commit
   * after the duplicate check and before the insert.
   */
  datatype Script = Script(check: Reply, decide: Reply, put: Reply, insert: Reply, clean: Reply,
                           rivals: map<Hash, RunMetadata>)

  datatype SyncResult = SyncResult(
    hash: Hash, alreadyPresent: bool, stored: bool, fileName: Text, playedAt: int64, sizeBytes: nat)

  datatype SyncOutcome = Synced(result: SyncResult) | SyncFailed | SyncCrashed

  // ---- One file, as steps of the upload protocol ----

  function ReplyTo(script: Script, pc: Pc): Reply {
    match pc
    case Checking => script.check
    case Deciding => script.decide
    case Putting => script.put
    case Inserting(_) => script.insert
    case _ => script.clean
  }

  /** Rows committed by others join the table; rows already there stay. */
  function Join(db: Db, rivals: map<Hash, RunMetadata>): Db {
    db.(rows := rivals + db.rows)
  }

  function Rank(pc: Pc): nat {
    match pc
    case Checking => 5
    case Deciding => 4
    case Putting => 3
    case Inserting(_) => 2
    case Cleaning(_, _) => 1
    case Done(_) => 0
  }

  lemma StepsGoDown(cfg: Config, db: Db, u: Upload, reply: Reply)
    ensures u.pc.Done? || Rank(Step(cfg, db, u, reply).pc) < Rank(u.pc)
  {
    hide MetadataOf, KeyOf, HashOf, ShouldStore;
  }

  /** Takes a call to its end. */
  function Play(cfg: Config, db: Db, u: Upload, script: Script): After
    decreases Rank(u.pc)
  {
    if u.pc.Done? then After(db, u.pc)
    else
      StepsGoDown(cfg, if u.pc.Inserting? then Join(db, script.rivals) else db, u, ReplyTo(script, u.pc));
      var after := Step(cfg, if u.pc.Inserting? then Join(db, script.rivals) else db, u, ReplyTo(script, u.pc));
      Play(cfg, after.db, u.(pc := after.pc), script)
  }

  function ResultOf(cfg: Config, u: Upload, end: End): SyncOutcome {
    if end == Error then SyncFailed
    else Synced(SyncResult(HashOf(cfg, u), end == Duplicate, end == Stored, EnsureExtension(u.parsed.fileName),
                           u.parsed.playedAt, |u.raw|))
  }

  datatype Synchronized = Synchronized(db: Db, outcome: SyncOutcome)

  function SyncFile(cfg: Config, db: Db, raw: Text, now: int64, script: Script): Synchronized {
    if raw == [] then Synchronized(db, SyncFailed)
    else
      match ParseFile(cfg.codec, raw)
      case Failed(_) => Synchronized(db, SyncFailed)
      case Crashed => Synchronized(db, SyncCrashed)
      case Ok(parsed) =>
        var u := Upload(raw, parsed, now, Checking);
        var after := Play(cfg, db, u, script);
        PlayEnds(cfg, db, u, script);
        Synchronized(after.db, ResultOf(cfg, u, after.pc.end))
  }

  lemma {:induction false} PlayEnds(cfg: Config, db: Db, u: Upload, script: Script)
    ensures Play(cfg, db, u, script).pc.Done?
    decreases Rank(u.pc)
  {
    hide Step;
    if !u.pc.Done? {
      var before := if u.pc.Inserting? then Join(db, script.rivals) else db;
      StepsGoDown(cfg, before, u, ReplyTo(script, u.pc));
      var after := Step(cfg, before, u, ReplyTo(script, u.pc));
      PlayEnds(cfg, after.db, u.(pc := after.pc), script);
    }
  }

  lemma PlayStep(cfg: Config, db: Db, u: Upload, script: Script)
    requires !u.pc.Done?
    ensures var after := Step(cfg, if u.pc.Inserting? then Join(db, script.rivals) else db, u, ReplyTo(script, u.pc));
      Play(cfg, db, u, script) == Play(cfg, after.db, u.(pc := after.pc), script)
  {
    hide Step;
  }

  // ---- The service ----

  class Service {
    const cfg: Config
    var rows: map<Hash, RunMetadata>
    var objects: map<Text, Text>

    function State(): Db
      reads this
    {
      Db(rows, objects)
    }

    constructor (cfg: Config)
      ensures this.cfg == cfg && State() == EMPTY.db
    {
      this.cfg, rows, objects := cfg, map[], map[];
    }

    method ExistingHash(hash: Hash, reply: Reply) returns (r: Option<bool>)
      ensures r == if reply.Failure? then None else Some(hash in rows)
    {
      r := if reply.Failure? then None else Some(hash in rows);
    }

    method LoadAndDecide(parsed: ParsedRefleksFile, reply: Reply) returns (r: Option<bool>)
      ensures r == if reply.Failure? && cfg.hasSettings then None
                   else
                     var settings := if reply.Success? then reply.settings else Settings(true, false, false);
                     Some(ShouldStore(cfg, settings, parsed))
    {
      if !cfg.hasSettings {
        return Some(cfg.hasStore);
      }
      if reply.Failure? {
        return None;
      }
      if !reply.settings.storeRunsEnabled {
        return Some(false);
      }
      if reply.settings.storeNonAnonOnly && TrimSpace(parsed.steamID) == [] {
        return Some(false);
      }
      if reply.settings.storeWithMouseTraceOnly && !parsed.hasMouseTrace {
        return Some(false);
      }
      return Some(true);
    }

    method Put(key: Text, raw: Text, reply: Reply) returns (ok: bool)
      modifies this`objects
      ensures ok == reply.Success?
      ensures objects == if ok || Leaves(reply) then old(objects)[key := raw] else old(objects)
    {
      ok := reply.Success?;
      if ok || Leaves(reply) {
        objects := objects[key := raw];
      }
    }

    method InsertRun(meta: RunMetadata, reply: Reply) returns (inserted: Option<bool>)
      modifies this`rows
      ensures inserted == if reply.Failure? then None else Some(meta.hash !in old(rows))
      ensures rows == if inserted == Some(true) then old(rows)[meta.hash := meta] else old(rows)
    {
      if reply.Failure? {
        return None;
      }
      if meta.hash in rows {
        return Some(false);
      }
      rows := rows[meta.hash := meta];
      return Some(true);
    }

    method Delete(key: Text, reply: Reply)
      modifies this`objects
      ensures objects == if Leaves(reply) then old(objects) else old(objects) - {key}
    {
      if !Leaves(reply) {
        objects := objects - {key};
      }
    }

    /** Verifies a file and stores it if it is not there yet. */
    method SyncOne(raw: Text, now: int64, script: Script) returns (outcome: SyncOutcome)
      modifies this
      ensures Synchronized(State(), outcome) == SyncFile(cfg, old(State()), raw, now, script)
    {
      hide ParseFile, Step, Play, MetadataOf, KeyOf, EnsureExtension;
      if raw == [] {
        return SyncFailed;
      }
      var parse := ParseRefleksFile(cfg.codec, raw);
      if parse.Failed? {
        return SyncFailed;
      }
      if parse.Crashed? {
        return SyncCrashed;
      }
      ghost var u := Upload(raw, parse.value, now, Checking);
      outcome := UploadParsed(parse.value, raw, now, script);
    }

    /** The part of a sync that talks to the row table and the object store. */
    method UploadParsed(parsed: ParsedRefleksFile, raw: Text, now: int64, script: Script) returns (outcome: SyncOutcome)
      modifies this
      ensures var u := Upload(raw, parsed, now, Checking);
        var after := Play(cfg, old(State()), u, script);
        after.pc.Done? && State() == after.db && outcome == ResultOf(cfg, u, after.pc.end)
    {
      hide Play, MetadataOf, KeyOf, EnsureExtension, ShouldStore;
      ghost var u := Upload(raw, parsed, now, Checking);
      ghost var db := State();
      PlayEnds(cfg, db, u, script);
      PlayStep(cfg, db, u, script);
      var hash := cfg.sha(raw);
      var existing := ExistingHash(hash, script.check);
      if existing.None? {
        PlayDone(cfg, db, u.(pc := Done(Error)), script);
        return SyncFailed;
      }
      var result := SyncResult(hash, true, false, EnsureExtension(parsed.fileName), parsed.playedAt, |raw|);
      if existing.value {
        PlayDone(cfg, db, u.(pc := Done(Duplicate)), script);
        return Synced(result);
      }

      PlayStep(cfg, db, u.(pc := Deciding), script);
      var store := LoadAndDecide(parsed, script.decide);
      if store.None? {
        PlayDone(cfg, db, u.(pc := Done(Error)), script);
        return SyncFailed;
      }
      var key: Text := [];
      if store.value && cfg.hasStore {
        PlayStep(cfg, db, u.(pc := Putting), script);
        key := BuildObjectKey(cfg.keyPrefix, cfg.datePath(parsed.playedAt), hash);
        KeyOfUpload(cfg, u.(pc := Putting));
        var ok := Put(key, raw, script.put);
        if !ok {
          PlayDone(cfg, State(), u.(pc := Done(Error)), script);
          return SyncFailed;
        }
      }
      outcome := InsertOrCleanUp(u, key, raw, parsed, now, script);
    }

    /** Inserts the row, and deletes the object again if that fails or another client was first. */
    method InsertOrCleanUp(ghost u: Upload, key: Text, raw: Text, parsed: ParsedRefleksFile, now: int64, script: Script)
      returns (outcome: SyncOutcome)
      requires u == Upload(raw, parsed, now, Checking)
      modifies this
      ensures var after := Play(cfg, old(State()), u.(pc := Inserting(key)), script);
        after.pc.Done? && State() == after.db && outcome == ResultOf(cfg, u, after.pc.end)
    {
      hide Play, EnsureExtension, TrimSpace;
      ghost var db := State();
      PlayEnds(cfg, db, u.(pc := Inserting(key)), script);
      PlayStep(cfg, db, u.(pc := Inserting(key)), script);
      var hash := cfg.sha(raw);
      var meta := RunMetadata(
        hash, EnsureExtension(parsed.fileName), TrimSpace(parsed.scenarioName), TrimSpace(parsed.steamID),
        TrimSpace(parsed.steamUsername), parsed.playedAt, |raw|, key, now, parsed.formatVersion, parsed.score,
            parsed.accuracy,
        parsed.avgTTKSeconds, parsed.durationSecs, parsed.sensCM360, parsed.hasMouseTrace, parsed.avgMouseSpeed,
        TrimSpace(parsed.mouseVID), TrimSpace(parsed.mousePID));
      // Other clients commit here.
      rows := script.rivals + rows;
      var inserted := InsertRun(meta, script.insert);
      var result := SyncResult(hash, false, true, EnsureExtension(parsed.fileName), parsed.playedAt, |raw|);
      if inserted == Some(true) {
        PlayDone(cfg, State(), u.(pc := Done(Stored)), script);
        return Synced(result);
      }
      var end := if inserted.None? then Error else Duplicate;
      if key != [] {
        PlayStep(cfg, State(), u.(pc := Cleaning(key, end)), script);
        Delete(key, script.clean);
      }
      PlayDone(cfg, State(), u.(pc := Done(end)), script);
      return if inserted.None? then SyncFailed else Synced(result.(alreadyPresent := true, stored := false));
    }
  }

  lemma PlayDone(cfg: Config, db: Db, u: Upload, script: Script)
    requires u.pc.Done?
    ensures Play(cfg, db, u, script) == After(db, u.pc)
  {}

  lemma KeyOfUpload(cfg: Config, u: Upload)
    ensures KeyOf(cfg, u) == BuildObjectKey(cfg.keyPrefix, cfg.datePath(u.parsed.playedAt), cfg.sha(u.raw))
  {}

  // ---- A sync alone, and among others ----

  /** Rows committed by other clients arrive in the table. */
  function Joined(w: World, rivals: map<Hash, RunMetadata>): World {
    w.(db := Join(w.db, rivals))
  }

  /** The run of one call that ends where `after` says: nothing but that call moves. */
  predicate EndsAs(w: World, w': World, id: nat, after: After) {
    id in w.uploads && w'.db == after.db && w'.uploads == w.uploads[id := w.uploads[id].(pc := after.pc)]
  }

  predicate OnlyAdvances(actions: seq<Action>, id: nat) {
    forall a <- actions :: a.Advance? && a.id == id
  }

  /**
   * Playing a call is a run of the many-call machine in which only that call moves, except that the rows of other
   * clients arrive once, right before its insert.
   */
  lemma {:induction false} PlayIsRun(cfg: Config, w: World, id: nat, script: Script)
    returns (pre: seq<Action>, post: seq<Action>)
    requires id in w.uploads
    ensures OnlyAdvances(pre, id) && OnlyAdvances(post, id)
    ensures id in Run(cfg, w, pre).uploads
    ensures var w1, after := Run(cfg, w, pre), Play(cfg, w.db, w.uploads[id], script);
      if w1.uploads[id].pc.Inserting? then EndsAs(w, Run(cfg, Joined(w1, script.rivals), post), id, after)
      else post == [] && EndsAs(w, w1, id, after)
    decreases Rank(w.uploads[id].pc)
  {
    var u := w.uploads[id];
    if u.pc.Inserting? {
      pre := [];
      post := FromInsert(cfg, w, id, script);
    } else if u.pc.Done? {
      pre, post := [], [];
      PlayDone(cfg, w.db, u, script);
      assert w.uploads[id := u.(pc := u.pc)] == w.uploads;
    } else {
      var go := Advance(id, ReplyTo(script, u.pc));
      StepsGoDown(cfg, w.db, u, ReplyTo(script, u.pc));
      PlayStep(cfg, w.db, u, script);
      hide Step, Play;
      var rest;
      rest, post := PlayIsRun(cfg, Do(cfg, w, go), id, script);
      pre := [go] + rest;
      assert pre[1..] == rest;
    }
  }

  /** From its insert on, a call meets nobody. */
  lemma FromInsert(cfg: Config, w: World, id: nat, script: Script) returns (actions: seq<Action>)
    requires id in w.uploads && w.uploads[id].pc.Inserting?
    ensures OnlyAdvances(actions, id)
    ensures EndsAs(w, Run(cfg, Joined(w, script.rivals), actions), id, Play(cfg, w.db, w.uploads[id], script))
  {
    var u := w.uploads[id];
    var w0 := Joined(w, script.rivals);
    var go := Advance(id, script.insert);
    PlayStep(cfg, w.db, u, script);
    var w1 := Do(cfg, w0, go);
    var u1 := w1.uploads[id];
    assert !u1.pc.Inserting? && (u1.pc.Cleaning? || u1.pc.Done?);
    hide Step, Play;
    if u1.pc.Done? {
      PlayDone(cfg, w1.db, u1, script);
      actions := [go];
      assert actions[1..] == [] && Run(cfg, w1, []) == w1;
    } else {
      CleanToTheEnd(cfg, w1, id, script);
      actions := [go, Advance(id, script.clean)];
      assert actions[1..] == [Advance(id, script.clean)] && actions[1..][1..] == [];
      assert Run(cfg, w0, actions) == Run(cfg, w1, actions[1..]);
    }
  }

  lemma CleanToTheEnd(cfg: Config, w: World, id: nat, script: Script)
    requires id in w.uploads && w.uploads[id].pc.Cleaning?
    ensures EndsAs(w, Do(cfg, w, Advance(id, script.clean)), id, Play(cfg, w.db, w.uploads[id], script))
    ensures Run(cfg, w, [Advance(id, script.clean)]) == Do(cfg, w, Advance(id, script.clean))
  {
    var u := w.uploads[id];
    PlayStep(cfg, w.db, u, script);
    var after := Step(cfg, w.db, u, script.clean);
    hide Play;
    PlayDone(cfg, after.db, u.(pc := after.pc), script);
    assert [Advance(id, script.clean)][1..] == [];
  }

  /** A file synced as stored was new, and if its row names an object, the file can be downloaded byte for byte. */
  lemma StoredFilesDownload(cfg: Config, db: Db, raw: Text, now: int64, script: Script)
    ensures var s := SyncFile(cfg, db, raw, now, script);
      s.outcome.Synced? && s.outcome.result.stored ==>
        && cfg.sha(raw) !in db.rows && cfg.sha(raw) in s.db.rows
        && (s.db.rows[cfg.sha(raw)].objectKey != [] ==> Download(s.db, cfg.sha(raw)) == Some(raw))
  {
    hide ParseFile, Play, BuildObjectKey, EnsureExtension;
    var s := SyncFile(cfg, db, raw, now, script);
    if s.outcome.Synced? && s.outcome.result.stored {
      var u := Upload(raw, ParseFile(cfg.codec, raw).value, now, Checking);
      PlayEnds(cfg, db, u, script);
      StoredPath(cfg, db, u, script);
    }
  }

  /** The one path of a call that ends as stored. */
  lemma StoredPath(cfg: Config, db: Db, u: Upload, script: Script)
    requires u.pc == Checking && Play(cfg, db, u, script).pc == Done(Stored)
    ensures var after := Play(cfg, db, u, script);
      && HashOf(cfg, u) !in db.rows && HashOf(cfg, u) in after.db.rows
      && (var key := after.db.rows[HashOf(cfg, u)].objectKey;
          key != [] ==> key == KeyOf(cfg, u) && key in after.db.objects && after.db.objects[key] == u.raw)
      && after.db.rows.Keys == db.rows.Keys + script.rivals.Keys + {HashOf(cfg, u)}
  {
    hide Play, MetadataOf, ShouldStore, BuildObjectKey;
    PlayStep(cfg, db, u, script);
    var u1 := u.(pc := Step(cfg, db, u, script.check).pc);
    if u1.pc.Done? {
      PlayDone(cfg, db, u1, script);
      assert false;
    }
    PlayStep(cfg, db, u1, script);
    var u2 := u.(pc := Step(cfg, db, u1, script.decide).pc);
    if u2.pc.Done? {
      PlayDone(cfg, db, u2, script);
      assert false;
    }
    if u2.pc.Putting? {
      PlayStep(cfg, db, u2, script);
      var after := Step(cfg, db, u2, script.put);
      if after.pc.Done? {
        PlayDone(cfg, after.db, u.(pc := after.pc), script);
        assert false;
      }
      InsertPath(cfg, after.db, u, after.pc.key, script);
    } else {
      InsertPath(cfg, db, u, [], script);
    }
  }

  lemma InsertPath(cfg: Config, db: Db, u: Upload, key: Text, script: Script)
    requires Play(cfg, db, u.(pc := Inserting(key)), script).pc == Done(Stored)
    ensures var after := Play(cfg, db, u.(pc := Inserting(key)), script);
      && after.db.rows.Keys == db.rows.Keys + script.rivals.Keys + {HashOf(cfg, u)} && HashOf(cfg, u) in after.db.rows
      && after.db.rows[HashOf(cfg, u)].objectKey == key && after.db.objects == db.objects
  {
    hide Play, EnsureExtension, TrimSpace;
    var u1 := u.(pc := Inserting(key));
    PlayStep(cfg, db, u1, script);
    var a := Step(cfg, Join(db, script.rivals), u1, script.insert);
    if a.pc.Done? {
      PlayDone(cfg, a.db, u.(pc := a.pc), script);
    } else {
      PlayStep(cfg, a.db, u.(pc := a.pc), script);
      PlayDone(cfg, Step(cfg, a.db, u.(pc := a.pc), script.clean).db, u.(pc := Done(a.pc.end)), script);
      assert false;
    }
  }

  /** The rows grow by what a call stores, and by nothing that no rival committed. */
  predicate Grows(before: set<Hash>, after: set<Hash>, stored: set<Hash>, rivals: set<Hash>) {
    before + stored <= after <= before + stored + rivals && stored !! before
  }

  lemma GrowsAgain(a: set<Hash>, b: set<Hash>, c: set<Hash>, stored: set<Hash>, rivals: set<Hash>)
    requires Grows(a, b, {}, rivals) && Grows(b, c, stored, rivals)
    ensures Grows(a, c, stored, rivals)
  {}

  lemma JoinGrows(db: Db, rivals: map<Hash, RunMetadata>, after: set<Hash>, stored: set<Hash>)
    requires after == Join(db, rivals).rows.Keys + stored && stored !! Join(db, rivals).rows.Keys
    ensures Grows(db.rows.Keys, after, stored, rivals.Keys)
  {
    assert Join(db, rivals).rows.Keys == rivals.Keys + db.rows.Keys;
  }

  lemma StepGrows(cfg: Config, db: Db, u: Upload, script: Script)
    requires u.pc != Done(Stored) && (u.pc.Cleaning? ==> u.pc.end != Stored)
    ensures var after := Step(cfg, if u.pc.Inserting? then Join(db, script.rivals) else db, u, ReplyTo(script, u.pc));
      var stored := if after.pc == Done(Stored) then {HashOf(cfg, u)} else {};
      && Grows(db.rows.Keys, after.db.rows.Keys, stored, script.rivals.Keys)
      && (after.pc.Cleaning? ==> after.pc.end != Stored)
  {
    hide Step, Grows, HashOf, Join;
    var joined := if u.pc.Inserting? then Join(db, script.rivals) else db;
    StepCommits(cfg, joined, u, ReplyTo(script, u.pc));
    var after := Step(cfg, joined, u, ReplyTo(script, u.pc));
    var stored := if after.pc == Done(Stored) then {HashOf(cfg, u)} else {};
    assert after.db.rows.Keys == joined.rows.Keys + stored && stored !! joined.rows.Keys;
    if u.pc.Inserting? {
      JoinGrows(db, script.rivals, after.db.rows.Keys, stored);
    } else {
      AloneGrows(db.rows.Keys, after.db.rows.Keys, stored, script.rivals.Keys);
    }
  }

  lemma AloneGrows(before: set<Hash>, after: set<Hash>, stored: set<Hash>, rivals: set<Hash>)
    requires after == before + stored && stored !! before
    ensures Grows(before, after, stored, rivals)
  {}

  /** A call adds the row of its hash if it ends as stored, and no row but its rivals' otherwise. */
  lemma {:induction false} PlayRows(cfg: Config, db: Db, u: Upload, script: Script)
    requires u.pc != Done(Stored) && (u.pc.Cleaning? ==> u.pc.end != Stored)
    ensures var after := Play(cfg, db, u, script);
      var stored := if after.pc == Done(Stored) then {HashOf(cfg, u)} else {};
      Grows(db.rows.Keys, after.db.rows.Keys, stored, script.rivals.Keys)
    decreases Rank(u.pc)
  {
    hide Step, Play, Grows;
    if u.pc.Done? {
      PlayDone(cfg, db, u, script);
      AloneGrows(db.rows.Keys, db.rows.Keys, {}, script.rivals.Keys);
    } else {
      var joined := if u.pc.Inserting? then Join(db, script.rivals) else db;
      var after := Step(cfg, joined, u, ReplyTo(script, u.pc));
      var u1 := u.(pc := after.pc);
      StepsGoDown(cfg, joined, u, ReplyTo(script, u.pc));
      StepGrows(cfg, db, u, script);
      PlayStep(cfg, db, u, script);
      if after.pc == Done(Stored) {
        PlayDone(cfg, after.db, u1, script);
      } else {
        PlayRows(cfg, after.db, u1, script);
        var end := Play(cfg, after.db, u1, script);
        GrowsAgain(db.rows.Keys, after.db.rows.Keys, end.db.rows.Keys,
                   if end.pc == Done(Stored) then {HashOf(cfg, u)} else {}, script.rivals.Keys);
      }
    }
  }
}
