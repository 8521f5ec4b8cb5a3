/** How one sync ends and what it leaves behind, in terms of its script and the tables it finds. */
module SyncOutcomes {
  import opened Wrappers
  import opened Bytes
  import opened RunFile
  import opened Uploads
  import opened SyncService

  /** The call gets past the duplicate check: the table answers, and does not have the hash. */
  predicate PassesCheck(cfg: Config, db: Db, raw: Text, script: Script) {
    script.check.Success? && cfg.sha(raw) !in db.rows
  }

  /** The settings, where there are any, do not answer. */
  predicate Undecided(cfg: Config, script: Script) {
    cfg.hasSettings && script.decide.Failure?
  }

  /** There is a store, and the settings, where there are any, want this file in it. */
  predicate Wants(cfg: Config, parsed: ParsedRefleksFile, script: Script) {
    && cfg.hasStore
    && (cfg.hasSettings && script.decide.Success? ==>
          var s := script.decide.settings;
          && s.storeRunsEnabled
          && (s.storeNonAnonOnly ==> TrimSpace(parsed.steamID) != [])
          && (s.storeWithMouseTraceOnly ==> parsed.hasMouseTrace))
  }

  /** The call comes as far as its insert. */
  predicate ReachesInsert(cfg: Config, db: Db, raw: Text, parsed: ParsedRefleksFile, script: Script) {
    && PassesCheck(cfg, db, raw, script) && !Undecided(cfg, script)
    && (Wants(cfg, parsed, script) ==> script.put.Success?)
  }

  /** An operation that the call uses fails. */
  predicate Fails(cfg: Config, db: Db, raw: Text, parsed: ParsedRefleksFile, script: Script) {
    || script.check.Failure?
    || (cfg.sha(raw) !in db.rows
        && (Undecided(cfg, script)
            || (Wants(cfg, parsed, script) && script.put.Failure?)
            || script.insert.Failure?))
  }

  /** The hash is there already, or another client commits it first. */
  predicate Known(cfg: Config, db: Db, raw: Text, script: Script) {
    cfg.sha(raw) in db.rows || cfg.sha(raw) in script.rivals
  }

  /** The object key of a file: prefix, date and hash, with the extension. */
  function FullKey(cfg: Config, raw: Text, playedAt: int64): Text {
    (if cfg.keyPrefix == [] then [] else cfg.keyPrefix + [0x2F]) + cfg.datePath(playedAt) + [0x2F] + cfg.sha(raw)
    + [0x2E, 0x72, 0x65, 0x66, 0x6C, 0x65, 0x6B, 0x73]
  }

  /** The row says what the file says: names trimmed, all other values as they were parsed. */
  predicate Describes(row: RunMetadata, hash: Hash, size: nat, parsed: ParsedRefleksFile, now: int64, key: Text) {
    && row.hash == hash && row.sizeBytes == size && row.objectKey == key && row.uploadedAt == now
    && row.fileName == EnsureExtension(parsed.fileName)
    && row.scenarioName == TrimSpace(parsed.scenarioName)
    && row.steamID == TrimSpace(parsed.steamID) && row.steamUsername == TrimSpace(parsed.steamUsername)
    && row.playedAt == parsed.playedAt && row.formatVersion == parsed.formatVersion
    && row.score == parsed.score && row.accuracy == parsed.accuracy && row.avgTTKSeconds == parsed.avgTTKSeconds
    && row.durationSecs == parsed.durationSecs && row.sensCM360 == parsed.sensCM360
    && row.hasMouseTrace == parsed.hasMouseTrace && row.avgMouseSpeed == parsed.avgMouseSpeed
    && row.mouseVID == TrimSpace(parsed.mouseVID) && row.mousePID == TrimSpace(parsed.mousePID)
  }

  /** The three ends of a call, each with its exact condition. */
  predicate EndsRight(cfg: Config, db: Db, raw: Text, parsed: ParsedRefleksFile, script: Script, o: SyncOutcome) {
    var fails, known := Fails(cfg, db, raw, parsed, script), Known(cfg, db, raw, script);
    && (o == SyncFailed <==> fails)
    && (o.Synced? <==> !fails)
    && (o.Synced? ==>
          var r := o.result;
          && r.alreadyPresent == known && r.stored == !known
          && r.hash == cfg.sha(raw) && r.sizeBytes == |raw| && r.playedAt == parsed.playedAt
          && r.fileName == EnsureExtension(parsed.fileName))
  }

  /** The rows after a call: other clients' rows if it came to insert, and its own exactly if it stored the file. */
  predicate RowsRight(cfg: Config, db: Db, raw: Text, parsed: ParsedRefleksFile, now: int64, script: Script,
                      rows: map<Hash, RunMetadata>) {
    var h := cfg.sha(raw);
    var met := if ReachesInsert(cfg, db, raw, parsed, script) then script.rivals + db.rows else db.rows;
    if Fails(cfg, db, raw, parsed, script) || Known(cfg, db, raw, script) then rows == met
    else
      && h in rows && rows == met[h := rows[h]]
      && Describes(rows[h], h, |raw|, parsed, now,
                   if Wants(cfg, parsed, script) then FullKey(cfg, raw, parsed.playedAt) else [])
  }

  /** The objects after a call: its own exactly if it stored the file or could not clean up. */
  predicate ObjectsRight(cfg: Config, db: Db, raw: Text, parsed: ParsedRefleksFile, script: Script,
                         objects: map<Text, Text>) {
    var key := FullKey(cfg, raw, parsed.playedAt);
    if !PassesCheck(cfg, db, raw, script) || Undecided(cfg, script) || !Wants(cfg, parsed, script) then
      objects == db.objects
    else if script.put.Failure? then
      objects == if script.put.bytesLeft then db.objects[key := raw] else db.objects
    else if script.insert.Success? && cfg.sha(raw) !in script.rivals then
      objects == db.objects[key := raw]
    else if script.clean.Failure? && script.clean.bytesLeft then
      objects == db.objects[key := raw]
    else
      objects == db.objects - {key}
  }

  // ---- The proof, from the insert backwards ----

  lemma KeyIsFull(cfg: Config, u: Upload)
    ensures KeyOf(cfg, u) == FullKey(cfg, u.raw, u.parsed.playedAt) != []
  {
    var name := cfg.sha(u.raw) + EXTENSION;
    var date := cfg.datePath(u.parsed.playedAt);
    assert EXTENSION == [0x2E, 0x72, 0x65, 0x66, 0x6C, 0x65, 0x6B, 0x73] && SLASH == [0x2F];
    assert [] + date == date;
    assert KeyOf(cfg, u) == FullKey(cfg, u.raw, u.parsed.playedAt);
  }

  lemma MetadataDescribes(cfg: Config, u: Upload, key: Text)
    ensures Describes(MetadataOf(cfg, u, key), cfg.sha(u.raw), |u.raw|, u.parsed, u.now, key)
  {
    hide TrimSpace, EnsureExtension;
  }

  /** From its insert on. */
  lemma InsertEnds(cfg: Config, db: Db, u: Upload, key: Text, script: Script)
    ensures var h := HashOf(cfg, u); var met := script.rivals + db.rows;
      var after := Play(cfg, db, u.(pc := Inserting(key)), script);
      && after.pc == Done(if script.insert.Failure? then Error else if h in met then Duplicate else Stored)
      && after.db.rows == (if script.insert.Failure? || h in met then met else met[h := MetadataOf(cfg, u, key)])
      && (if key == [] || (script.insert.Success? && h !in met) || Leaves(script.clean) then
            after.db.objects == db.objects
          else after.db.objects == db.objects - {key})
  {
    hide Play, MetadataOf, KeyOf;
    PcIsNoMatter(cfg, u, Inserting(key), key);
    var u1 := u.(pc := Inserting(key));
    PlayStep(cfg, db, u1, script);
    var a := Step(cfg, Join(db, script.rivals), u1, script.insert);
    var u2 := u.(pc := a.pc);
    if a.pc.Done? {
      PlayDone(cfg, a.db, u2, script);
    } else {
      PlayStep(cfg, a.db, u2, script);
      var b := Step(cfg, a.db, u2, script.clean);
      PlayDone(cfg, b.db, u.(pc := b.pc), script);
    }
  }

  /** Outcome, rows and objects together. */
  predicate AllRight(cfg: Config, db: Db, u: Upload, script: Script, after: After) {
    && after.pc.Done?
    && EndsRight(cfg, db, u.raw, u.parsed, script, ResultOf(cfg, u, after.pc.end))
    && RowsRight(cfg, db, u.raw, u.parsed, u.now, script, after.db.rows)
    && ObjectsRight(cfg, db, u.raw, u.parsed, script, after.db.objects)
  }

  /** A call that is over before its insert. */
  lemma EarlyEnd(cfg: Config, db: Db, u: Upload, script: Script, after: After)
    requires after.pc.Done? && !ReachesInsert(cfg, db, u.raw, u.parsed, script)
    requires after.pc.end == if script.check.Success? && HashOf(cfg, u) in db.rows then Duplicate else Error
    requires after.db.rows == db.rows && ObjectsRight(cfg, db, u.raw, u.parsed, script, after.db.objects)
    ensures AllRight(cfg, db, u, script, after)
  {
    hide Wants, ObjectsRight, FullKey, EnsureExtension, Describes;
  }

  /** A call that comes to its insert with this key. */
  lemma LateEnd(cfg: Config, db: Db, objects: map<Text, Text>, u: Upload, key: Text, script: Script)
    requires ReachesInsert(cfg, db, u.raw, u.parsed, script)
    requires key == if Wants(cfg, u.parsed, script) then FullKey(cfg, u.raw, u.parsed.playedAt) else []
    requires objects == if key == [] then db.objects else db.objects[key := u.raw]
    ensures AllRight(cfg, db, u, script, Play(cfg, Db(db.rows, objects), u.(pc := Inserting(key)), script))
  {
    hide Wants, FullKey, EnsureExtension, Describes, MetadataOf, Play;
    InsertEnds(cfg, Db(db.rows, objects), u, key, script);
    MetadataDescribes(cfg, u, key);
    KeyIsFull(cfg, u);
    hide KeyOf;
    var full := FullKey(cfg, u.raw, u.parsed.playedAt);
    assert db.objects[full := u.raw] - {full} == db.objects - {full};
  }

  lemma PlayEndsRight(cfg: Config, db: Db, u: Upload, script: Script)
    requires u.pc == Checking
    ensures AllRight(cfg, db, u, script, Play(cfg, db, u, script))
  {
    hide Play, AllRight, MetadataOf, FullKey, KeyOf, EnsureExtension, TrimSpace, RowsRight, EndsRight;
    PlayStep(cfg, db, u, script);
    var u1 := u.(pc := Step(cfg, db, u, script.check).pc);
    if u1.pc.Done? {
      PlayDone(cfg, db, u1, script);
      EarlyEnd(cfg, db, u, script, After(db, u1.pc));
      return;
    }
    PlayStep(cfg, db, u1, script);
    var u2 := u.(pc := Step(cfg, db, u1, script.decide).pc);
    if u2.pc.Done? {
      PlayDone(cfg, db, u2, script);
      EarlyEnd(cfg, db, u, script, After(db, u2.pc));
    } else if u2.pc.Putting? {
      PlayStep(cfg, db, u2, script);
      var after := Step(cfg, db, u2, script.put);
      KeyIsFull(cfg, u);
      PcIsNoMatter(cfg, u, Putting, []);
      if after.pc.Done? {
        PlayDone(cfg, after.db, u.(pc := after.pc), script);
        EarlyEnd(cfg, db, u, script, after);
      } else {
        LateEnd(cfg, db, after.db.objects, u, after.pc.key, script);
      }
    } else {
      LateEnd(cfg, db, db.objects, u, [], script);
    }
  }

  /**
   * A sync of a file that parses: it fails exactly if an operation it uses fails, reports a duplicate exactly if the
   * hash is there or another client commits it first, and otherwise stores the file, with or without an object.
   */
  lemma SyncEndsExactly(cfg: Config, db: Db, raw: Text, now: int64, script: Script)
    requires raw != [] && ParseFile(cfg.codec, raw).Ok?
    ensures var s := SyncFile(cfg, db, raw, now, script); var parsed := ParseFile(cfg.codec, raw).value;
      && EndsRight(cfg, db, raw, parsed, script, s.outcome)
      && RowsRight(cfg, db, raw, parsed, now, script, s.db.rows)
      && ObjectsRight(cfg, db, raw, parsed, script, s.db.objects)
  {
    hide ParseFile, Play, EndsRight, RowsRight, ObjectsRight, ResultOf;
    PlayEndsRight(cfg, db, Upload(raw, ParseFile(cfg.codec, raw).value, now, Checking), script);
  }

  /** Anything else is refused, or crashes the parser, and leaves no trace. */
  lemma BadFilesLeaveNoTrace(cfg: Config, db: Db, raw: Text, now: int64, script: Script)
    ensures var s := SyncFile(cfg, db, raw, now, script);
      && (raw == [] || ParseFile(cfg.codec, raw).Failed? ==> s == Synchronized(db, SyncFailed))
      && (raw != [] && ParseFile(cfg.codec, raw).Crashed? ==> s == Synchronized(db, SyncCrashed))
      && (s.outcome == SyncCrashed ==> raw != [] && ParseFile(cfg.codec, raw).Crashed?)
  {
    hide ParseFile, Play, EnsureExtension;
  }
}
