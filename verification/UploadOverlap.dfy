/** When overlapping calls can lose an object: the exact condition, and the two-client run that does it. */
module UploadOverlap {
  import opened Wrappers
  import opened Bytes
  import opened RunFile
  import opened RunFileFormat
  import opened Uploads

  /** The call can still come to hold an object of its own. */
  predicate CanHold(cfg: Config, u: Upload) {
    match u.pc
    case Checking => cfg.hasStore
    case Deciding => cfg.hasStore
    case Putting => true
    case Inserting(key) => key != []
    case _ => false
  }

  /** The call can still come to delete its object. */
  predicate CanClean(cfg: Config, u: Upload) {
    CanHold(cfg, u) || u.pc.Cleaning?
  }

  /** A call is past its check while the row of its hash names the very object it may delete. */
  predicate ThreatensRow(cfg: Config, w: World, id: nat) {
    && id in w.uploads
    && (var u := w.uploads[id];
        && PastCheck(u) && CanClean(cfg, u)
        && HashOf(cfg, u) in w.db.rows && w.db.rows[HashOf(cfg, u)].objectKey == KeyOf(cfg, u))
  }

  /** A call is about to insert a row for an object that is gone. */
  predicate HoldsNothing(cfg: Config, w: World, id: nat) {
    && id in w.uploads
    && (var u := w.uploads[id];
        u.pc.Inserting? && u.pc.key != [] && u.pc.key !in w.db.objects && HashOf(cfg, u) !in w.db.rows)
  }

  /** Two calls in flight share an object: one may commit it, the other may delete it. */
  predicate ShareObject(cfg: Config, w: World, i: nat, j: nat) {
    && i in w.uploads && j in w.uploads && i != j
    && (var c, d := w.uploads[i], w.uploads[j];
        && CanHold(cfg, c) && CanClean(cfg, d)
        && KeyOf(cfg, c) == KeyOf(cfg, d) && HashOf(cfg, c) !in w.db.rows && HashOf(cfg, d) !in w.db.rows)
  }

  ghost predicate Hazard(cfg: Config, w: World) {
    || (exists id :: ThreatensRow(cfg, w, id))
    || (exists id :: HoldsNothing(cfg, w, id))
    || (exists i, j :: ShareObject(cfg, w, i, j))
  }

  predicate AdvancesOnly(actions: seq<Action>) {
    forall a <- actions :: a.Advance?
  }

  /** The calls already in flight can be scheduled so that some row ends up without its object. */
  ghost predicate CanDangle(cfg: Config, w: World) {
    exists actions :: AdvancesOnly(actions) && !NoDangling(Run(cfg, w, actions).db)
  }

  // ---- Without a hazard, nothing is lost ----

  lemma SameKeySameHash(cfg: Config, u: Upload, v: Upload)
    requires KeyOf(cfg, u) == KeyOf(cfg, v)
    ensures HashOf(cfg, u) == HashOf(cfg, v)
  {
    KeyDeterminesHash(cfg.keyPrefix, cfg.datePath(u.parsed.playedAt), HashOf(cfg, u));
    KeyDeterminesHash(cfg.keyPrefix, cfg.datePath(v.parsed.playedAt), HashOf(cfg, v));
    hide BuildObjectKey, HashOfKey;
  }

  lemma RowOfKey(cfg: Config, w: World, u: Upload, h: Hash)
    requires Integrity(cfg, w) && h in w.db.rows && w.db.rows[h].objectKey == KeyOf(cfg, u)
    ensures h == HashOf(cfg, u)
  {
    KeyDeterminesHash(cfg.keyPrefix, cfg.datePath(u.parsed.playedAt), HashOf(cfg, u));
    assert GoodRow(h, w.db.rows[h]);
    hide BuildObjectKey, HashOfKey;
  }

  /** A step moves one call on, and only towards its end. */
  lemma StepShape(cfg: Config, w: World, id: nat, reply: Reply)
    requires id in w.uploads
    ensures var w' := Do(cfg, w, Advance(id, reply));
      && w'.uploads.Keys == w.uploads.Keys
      && (forall i <- w.uploads :: i != id ==> w'.uploads[i] == w.uploads[i])
      && HashOf(cfg, w'.uploads[id]) == HashOf(cfg, w.uploads[id])
      && KeyOf(cfg, w'.uploads[id]) == KeyOf(cfg, w.uploads[id])
      && (CanHold(cfg, w'.uploads[id]) ==> CanHold(cfg, w.uploads[id]))
      && (CanClean(cfg, w'.uploads[id]) ==> CanClean(cfg, w.uploads[id]))
      && (PastCheck(w'.uploads[id]) ==> PastCheck(w.uploads[id]) || HashOf(cfg, w.uploads[id]) !in w.db.rows)
      && (w'.uploads[id].pc.Inserting? && w'.uploads[id].pc.key != [] ==>
          w.uploads[id].pc.Putting? && w'.uploads[id].pc.key in w'.db.objects)
  {
    hide EnsureExtension, TrimSpace, BuildObjectKey, ShouldStore, MetadataOf;
  }

  /** Rows are only added, and only a clean-up takes an object away. */
  lemma StepKeeps(cfg: Config, w: World, id: nat, reply: Reply)
    requires id in w.uploads
    ensures var w' := Do(cfg, w, Advance(id, reply));
      && (forall h <- w.db.rows :: h in w'.db.rows && w'.db.rows[h] == w.db.rows[h])
      && (forall h <- w'.db.rows :: h in w.db.rows || h == HashOf(cfg, w.uploads[id]))
      && (forall k <- w.db.objects :: k in w'.db.objects || (w.uploads[id].pc.Cleaning? && k == w.uploads[id].pc.key))
  {
    hide EnsureExtension, TrimSpace, BuildObjectKey, ShouldStore, MetadataOf;
  }

  /** A new row is the row of the call that inserted it, and names its object. */
  lemma NewRow(cfg: Config, w: World, id: nat, reply: Reply, h: Hash)
    requires id in w.uploads && h in Do(cfg, w, Advance(id, reply)).db.rows && h !in w.db.rows
    ensures var u := w.uploads[id];
      && u.pc.Inserting? && h == HashOf(cfg, u) && !Live(Do(cfg, w, Advance(id, reply)).uploads[id])
      && Do(cfg, w, Advance(id, reply)).db.rows[h].objectKey == u.pc.key
      && Do(cfg, w, Advance(id, reply)).db.objects == w.db.objects
  {
    hide EnsureExtension, TrimSpace, BuildObjectKey, ShouldStore;
  }

  lemma SafeStepKeepsRows(cfg: Config, w: World, id: nat, reply: Reply)
    requires Integrity(cfg, w) && NoDangling(w.db) && !Hazard(cfg, w) && id in w.uploads
    ensures NoDangling(Do(cfg, w, Advance(id, reply)).db)
  {
    var w' := Do(cfg, w, Advance(id, reply));
    var u := w.uploads[id];
    StepShape(cfg, w, id, reply);
    StepKeeps(cfg, w, id, reply);
    assert GoodUpload(cfg, u);
    assert !ThreatensRow(cfg, w, id);
    hide Step, Do, KeyOf, HashOf, Integrity;
    forall h <- w'.db.rows ensures !Dangling(w'.db, h) {
      if h in w.db.rows {
        assert !Dangling(w.db, h);
        if Dangling(w'.db, h) {
          RowOfKey(cfg, w, u, h);
        }
      } else {
        NewRow(cfg, w, id, reply, h);
        assert !HoldsNothing(cfg, w, id);
      }
    }
  }

  lemma SafeStepMakesNoThreat(cfg: Config, w: World, id: nat, reply: Reply, i: nat)
    requires Integrity(cfg, w) && !Hazard(cfg, w) && id in w.uploads
    ensures !ThreatensRow(cfg, Do(cfg, w, Advance(id, reply)), i)
  {
    var w' := Do(cfg, w, Advance(id, reply));
    StepShape(cfg, w, id, reply);
    StepKeeps(cfg, w, id, reply);
    hide Step, Do, KeyOf, HashOf, Integrity, CanHold, CanClean;
    assert !ThreatensRow(cfg, w, i) && !ShareObject(cfg, w, id, i);
    if ThreatensRow(cfg, w', i) {
      var h := HashOf(cfg, w'.uploads[i]);
      if h !in w.db.rows {
        NewRow(cfg, w, id, reply, h);
        InserterSharesKey(cfg, w, id, i, w'.db.rows[h].objectKey);
      }
    }
  }

  /** The inserter of a row with an object holds that object, and it is the object of its key. */
  lemma InserterSharesKey(cfg: Config, w: World, id: nat, i: nat, key: Text)
    requires Integrity(cfg, w) && id in w.uploads && i in w.uploads
    requires w.uploads[id].pc.Inserting? && w.uploads[id].pc.key == key && key == KeyOf(cfg, w.uploads[i])
    ensures KeyOf(cfg, w.uploads[id]) == key && CanHold(cfg, w.uploads[id])
    ensures HashOf(cfg, w.uploads[id]) == HashOf(cfg, w.uploads[i])
  {
    assert GoodUpload(cfg, w.uploads[id]);
    assert key != [];
    hide BuildObjectKey;
    SameKeySameHash(cfg, w.uploads[id], w.uploads[i]);
  }

  lemma SafeStepKeepsHolders(cfg: Config, w: World, id: nat, reply: Reply, i: nat)
    requires Integrity(cfg, w) && !Hazard(cfg, w) && id in w.uploads
    ensures !HoldsNothing(cfg, Do(cfg, w, Advance(id, reply)), i)
  {
    var w' := Do(cfg, w, Advance(id, reply));
    StepShape(cfg, w, id, reply);
    StepKeeps(cfg, w, id, reply);
    assert !HoldsNothing(cfg, w, i) && !ShareObject(cfg, w, i, id);
    if HoldsNothing(cfg, w', i) {
      assert i in w.uploads && i != id;
      assert GoodUpload(cfg, w.uploads[i]) && GoodUpload(cfg, w.uploads[id]);
      hide Step, Do, KeyOf, HashOf, Integrity;
      SameKeySameHash(cfg, w.uploads[i], w.uploads[id]);
    }
  }

  lemma SafeStepSharesNothing(cfg: Config, w: World, id: nat, reply: Reply, i: nat, j: nat)
    requires !Hazard(cfg, w) && id in w.uploads
    ensures !ShareObject(cfg, Do(cfg, w, Advance(id, reply)), i, j)
  {
    StepShape(cfg, w, id, reply);
    StepKeeps(cfg, w, id, reply);
    hide Step, Do, KeyOf, HashOf, CanHold, CanClean;
    assert !ShareObject(cfg, w, i, j);
  }

  lemma SafeStep(cfg: Config, w: World, id: nat, reply: Reply)
    requires Integrity(cfg, w) && NoDangling(w.db) && !Hazard(cfg, w)
    ensures var w' := Do(cfg, w, Advance(id, reply)); NoDangling(w'.db) && !Hazard(cfg, w')
  {
    if id in w.uploads {
      var w' := Do(cfg, w, Advance(id, reply));
      SafeStepKeepsRows(cfg, w, id, reply);
      forall i ensures !ThreatensRow(cfg, w', i) && !HoldsNothing(cfg, w', i) {
        SafeStepMakesNoThreat(cfg, w, id, reply, i);
        SafeStepKeepsHolders(cfg, w, id, reply, i);
      }
      forall i, j ensures !ShareObject(cfg, w', i, j) {
        SafeStepSharesNothing(cfg, w, id, reply, i, j);
      }
    }
  }

  lemma {:induction false} SafeRun(cfg: Config, w: World, actions: seq<Action>)
    requires Integrity(cfg, w) && NoDangling(w.db) && !Hazard(cfg, w) && AdvancesOnly(actions)
    ensures NoDangling(Run(cfg, w, actions).db)
    decreases |actions|
  {
    hide Integrity, NoDangling, Hazard, Do;
    if |actions| > 0 {
      assert actions[0] in actions;
      IntegrityStep(cfg, w, actions[0]);
      SafeStep(cfg, w, actions[0].id, actions[0].reply);
      SafeRun(cfg, Do(cfg, w, actions[0]), actions[1..]);
    }
  }

  // ---- With a hazard, a schedule loses an object ----

  const YES := Success(Settings(true, false, false))

  lemma {:induction false} RunConcat(cfg: Config, w: World, a: seq<Action>, b: seq<Action>)
    ensures Run(cfg, w, a + b) == Run(cfg, Run(cfg, w, a), b)
    decreases |a|
  {
    hide Do;
    if |a| == 0 {
      assert a + b == b;
    } else {
      RunConcat(cfg, Do(cfg, w, a[0]), a[1..], b);
      assert (a + b)[1..] == a[1..] + b;
    }
  }

  lemma RunOne(cfg: Config, w: World, a: Action)
    ensures Run(cfg, w, [a]) == Do(cfg, w, a)
  {
    hide Do;
    assert [a][1..] == [];
    assert Run(cfg, Do(cfg, w, a), []) == Do(cfg, w, a);
  }

  /** `after` is w with only the call `id` moved on, and no row changed. */
  predicate OnlyMoved(w: World, after: World, id: nat) {
    && id in w.uploads && after.uploads.Keys == w.uploads.Keys
    && (forall i <- w.uploads :: i != id ==> after.uploads[i] == w.uploads[i])
    && after.uploads[id].(pc := w.uploads[id].pc) == w.uploads[id]
    && after.db.rows == w.db.rows
  }

  /** A call that can hold an object can be driven to the point where it does. */
  lemma {:induction false} Drive(cfg: Config, w: World, id: nat) returns (actions: seq<Action>)
    requires Integrity(cfg, w) && id in w.uploads && CanHold(cfg, w.uploads[id])
    requires w.uploads[id].pc.Checking? ==> HashOf(cfg, w.uploads[id]) !in w.db.rows
    ensures AdvancesOnly(actions) && OnlyMoved(w, Run(cfg, w, actions), id)
    ensures Run(cfg, w, actions).uploads[id].pc == Inserting(KeyOf(cfg, w.uploads[id]))
    decreases match w.uploads[id].pc case Checking => 3 case Deciding => 2 case Putting => 1 case _ => 0
  {
    var u := w.uploads[id];
    assert GoodUpload(cfg, u);
    if u.pc.Inserting? {
      actions := [];
      hide KeyOf, HashOf;
    } else {
      var w1 := Do(cfg, w, Advance(id, YES));
      DriveOne(cfg, w, id);
      IntegrityStep(cfg, w, Advance(id, YES));
      hide Do, KeyOf, HashOf, Integrity;
      var rest := Drive(cfg, w1, id);
      actions := [Advance(id, YES)] + rest;
      RunOne(cfg, w, Advance(id, YES));
      RunConcat(cfg, w, [Advance(id, YES)], rest);
    }
  }

  lemma DriveOne(cfg: Config, w: World, id: nat)
    requires id in w.uploads && CanHold(cfg, w.uploads[id]) && !w.uploads[id].pc.Inserting?
    requires w.uploads[id].pc.Checking? ==> HashOf(cfg, w.uploads[id]) !in w.db.rows
    ensures var w1 := Do(cfg, w, Advance(id, YES));
      && OnlyMoved(w, w1, id)
      && w1.uploads[id].pc == match w.uploads[id].pc
         case Checking => Deciding case Deciding => Putting case _ => Inserting(KeyOf(cfg, w.uploads[id]))
    ensures var u1 := Do(cfg, w, Advance(id, YES)).uploads[id];
      CanHold(cfg, u1) && HashOf(cfg, u1) == HashOf(cfg, w.uploads[id]) && KeyOf(cfg, u1) == KeyOf(cfg, w.uploads[id])
  {
    assert KeyOf(cfg, w.uploads[id]) != [];
    hide BuildObjectKey;
  }

  lemma OnlyMovedKeeps(cfg: Config, w: World, after: World, id: nat)
    requires OnlyMoved(w, after, id)
    ensures HashOf(cfg, after.uploads[id]) == HashOf(cfg, w.uploads[id])
    ensures KeyOf(cfg, after.uploads[id]) == KeyOf(cfg, w.uploads[id])
  {}

  /** A call that holds an object commits it if its hash is free, and turns to deleting it if the hash is taken. */
  lemma InsertNow(cfg: Config, w: World, id: nat)
    requires id in w.uploads && w.uploads[id].pc.Inserting? && w.uploads[id].pc.key != []
    ensures var u, w' := w.uploads[id], Do(cfg, w, Advance(id, YES));
      && w'.uploads.Keys == w.uploads.Keys && (forall i <- w.uploads :: i != id ==> w'.uploads[i] == w.uploads[i])
      && w'.db.objects == w.db.objects
      && (if HashOf(cfg, u) in w.db.rows then
            OnlyMoved(w, w', id) && w'.uploads[id].pc == Cleaning(u.pc.key, Duplicate)
          else HashOf(cfg, u) in w'.db.rows && w'.db.rows[HashOf(cfg, u)].objectKey == u.pc.key)
  {
    hide EnsureExtension, TrimSpace;
  }

  lemma CleanNow(cfg: Config, w: World, id: nat)
    requires id in w.uploads && w.uploads[id].pc.Cleaning?
    ensures var w' := Do(cfg, w, Advance(id, YES));
      w'.db.rows == w.db.rows && w.uploads[id].pc.key !in w'.db.objects
  {}

  lemma ThreatLosesObject(cfg: Config, w: World, id: nat) returns (actions: seq<Action>)
    requires Integrity(cfg, w) && ThreatensRow(cfg, w, id)
    ensures AdvancesOnly(actions) && Dangling(Run(cfg, w, actions).db, HashOf(cfg, w.uploads[id]))
  {
    var u := w.uploads[id];
    assert GoodUpload(cfg, u);
    KeyNotEmpty(cfg, u);
    var go := Advance(id, YES);
    if u.pc.Cleaning? {
      CleanNow(cfg, w, id);
      hide Do, KeyOf, HashOf;
      RunOne(cfg, w, go);
      actions := [go];
    } else {
      var drive := Drive(cfg, w, id);
      var w1 := Run(cfg, w, drive);
      hide Do, KeyOf, HashOf, Integrity;
      OnlyMovedKeeps(cfg, w, w1, id);
      InsertNow(cfg, w1, id);
      var w2 := Do(cfg, w1, go);
      CleanNow(cfg, w2, id);
      actions := drive + ([go] + [go]);
      RunOne(cfg, w1, go);
      RunOne(cfg, w2, go);
      RunConcat(cfg, w1, [go], [go]);
      RunConcat(cfg, w, drive, [go] + [go]);
    }
  }

  lemma KeyNotEmpty(cfg: Config, u: Upload)
    ensures KeyOf(cfg, u) != []
  {}

  lemma HolderLosesObject(cfg: Config, w: World, id: nat) returns (actions: seq<Action>)
    requires HoldsNothing(cfg, w, id)
    ensures AdvancesOnly(actions) && Dangling(Run(cfg, w, actions).db, HashOf(cfg, w.uploads[id]))
  {
    InsertNow(cfg, w, id);
    actions := [Advance(id, YES)];
    hide Do, HashOf;
    RunOne(cfg, w, actions[0]);
  }

  lemma SharingLosesObject(cfg: Config, w: World, i: nat, j: nat) returns (actions: seq<Action>)
    requires Integrity(cfg, w) && ShareObject(cfg, w, i, j)
    ensures AdvancesOnly(actions) && Dangling(Run(cfg, w, actions).db, HashOf(cfg, w.uploads[i]))
  {
    var go := Advance(j, YES);
    if w.uploads[j].pc.Checking? {
      DriveOne(cfg, w, j);
      IntegrityStep(cfg, w, go);
      var w1 := Do(cfg, w, go);
      hide Do, KeyOf, HashOf, Integrity;
      var rest := CommitThenDelete(cfg, w1, i, j);
      actions := [go] + rest;
      RunOne(cfg, w, go);
      RunConcat(cfg, w, [go], rest);
    } else {
      actions := CommitThenDelete(cfg, w, i, j);
    }
  }

  /** The winner commits; then the loser, which is past its check, deletes the winner's object. */
  lemma CommitThenDelete(cfg: Config, w: World, i: nat, j: nat) returns (actions: seq<Action>)
    requires Integrity(cfg, w) && ShareObject(cfg, w, i, j) && PastCheck(w.uploads[j])
    ensures AdvancesOnly(actions) && Dangling(Run(cfg, w, actions).db, HashOf(cfg, w.uploads[i]))
  {
    var go := Advance(i, YES);
    var drive := Drive(cfg, w, i);
    var w1 := Run(cfg, w, drive);
    KeyNotEmpty(cfg, w.uploads[i]);
    IntegrityAlways(cfg, w, drive);
    IntegrityStep(cfg, w1, go);
    hide Do, KeyOf, HashOf, Integrity, CanHold, CanClean;
    OnlyMovedKeeps(cfg, w, w1, i);
    InsertNow(cfg, w1, i);
    var w2 := Do(cfg, w1, go);
    SameKeySameHash(cfg, w.uploads[i], w.uploads[j]);
    assert ThreatensRow(cfg, w2, j);
    var rest := ThreatLosesObject(cfg, w2, j);
    RunOne(cfg, w1, go);
    RunConcat(cfg, w1, [go], rest);
    RunConcat(cfg, w, drive, [go] + rest);
    actions := drive + ([go] + rest);
  }

  /**
   * In any reachable world without dangling rows, the calls in flight can lose an object exactly when there is a
   * hazard.
   */
  lemma CanDangleExactly(cfg: Config, w: World)
    requires Integrity(cfg, w) && NoDangling(w.db)
    ensures CanDangle(cfg, w) <==> Hazard(cfg, w)
  {
    if Hazard(cfg, w) {
      var actions := LosingSchedule(cfg, w);
    } else {
      hide Hazard, Integrity, NoDangling, Run;
      forall actions | AdvancesOnly(actions) ensures NoDangling(Run(cfg, w, actions).db) {
        SafeRun(cfg, w, actions);
      }
    }
  }

  lemma LosingSchedule(cfg: Config, w: World) returns (actions: seq<Action>)
    requires Integrity(cfg, w) && Hazard(cfg, w)
    ensures AdvancesOnly(actions) && !NoDangling(Run(cfg, w, actions).db)
  {
    hide Integrity, Run, HashOf, ThreatensRow, HoldsNothing, ShareObject;
    if id :| ThreatensRow(cfg, w, id) {
      actions := ThreatLosesObject(cfg, w, id);
    } else if id :| HoldsNothing(cfg, w, id) {
      actions := HolderLosesObject(cfg, w, id);
    } else {
      var i, j :| ShareObject(cfg, w, i, j);
      actions := SharingLosesObject(cfg, w, i, j);
    }
  }

  /** Calls that do not overlap make no hazard, so the condition above is what overlap adds. */
  lemma NoOverlapNoHazard(cfg: Config, w: World)
    requires Exclusive(cfg, w) && NoOverlap(cfg, w)
    ensures !Hazard(cfg, w)
  {
    hide KeyOf, HashOf;
    forall id ensures !ThreatensRow(cfg, w, id) && !HoldsNothing(cfg, w, id) {
    }
    forall i, j ensures !ShareObject(cfg, w, i, j) {
      if ShareObject(cfg, w, i, j) {
        SameKeySameHash(cfg, w.uploads[i], w.uploads[j]);
      }
    }
  }

  /**
   * For every service with a store, two clients that upload one and the same file can leave its row without its
   * object.
   */
  lemma TwoClientsLoseTheObject(cfg: Config, raw: Text) returns (actions: seq<Action>)
    requires cfg.hasStore && raw != [] && ParseFile(cfg.codec, raw).Ok?
    ensures Dangling(Run(cfg, EMPTY, [Start(0, raw, 0), Start(1, raw, 0)] + actions).db, cfg.sha(raw))
    ensures AdvancesOnly(actions)
  {
    var starts := [Start(0, raw, 0), Start(1, raw, 0)];
    var w := Run(cfg, EMPTY, starts);
    TwoStarts(cfg, raw);
    IntegrityAlways(cfg, EMPTY, starts);
    hide ParseFile, Do, Integrity;
    actions := SharingLosesObject(cfg, w, 0, 1);
    RunConcat(cfg, EMPTY, starts, actions);
  }

  /**
   * So a call that ended as stored can lose its file: its row names an object, and a download finds none. Without
   * overlap this cannot happen.
   */
  lemma StoredFileLost(cfg: Config, raw: Text) returns (actions: seq<Action>, id: nat)
    requires cfg.hasStore && raw != [] && ParseFile(cfg.codec, raw).Ok?
    ensures var w := Run(cfg, EMPTY, actions); var h := cfg.sha(raw);
      && id in w.uploads && w.uploads[id].pc == Done(Stored) && HashOf(cfg, w.uploads[id]) == h
      && h in w.db.rows && w.db.rows[h].objectKey != [] && Download(w.db, h).None?
    ensures !NoOverlapRun(cfg, EMPTY, actions)
  {
    var more := TwoClientsLoseTheObject(cfg, raw);
    actions := [Start(0, raw, 0), Start(1, raw, 0)] + more;
    OneWinnerPerHash(cfg, actions);
    hide Run, ParseFile, HashOf, NoOverlapRun;
    var w := Run(cfg, EMPTY, actions);
    id :| id in w.uploads && Won(cfg, w.uploads[id], cfg.sha(raw));
    if NoOverlapRun(cfg, EMPTY, actions) {
      NoOverlapNoDangling(cfg, actions);
      assert false;
    }
  }

  lemma TwoStarts(cfg: Config, raw: Text)
    requires cfg.hasStore && raw != [] && ParseFile(cfg.codec, raw).Ok?
    ensures var w := Run(cfg, EMPTY, [Start(0, raw, 0), Start(1, raw, 0)]);
      ShareObject(cfg, w, 0, 1) && HashOf(cfg, w.uploads[0]) == cfg.sha(raw)
  {
    hide ParseFile, BuildObjectKey;
    var w1 := Do(cfg, EMPTY, Start(0, raw, 0));
    RunOne(cfg, EMPTY, Start(0, raw, 0));
    RunOne(cfg, w1, Start(1, raw, 0));
    RunConcat(cfg, EMPTY, [Start(0, raw, 0)], [Start(1, raw, 0)]);
    assert [Start(0, raw, 0)] + [Start(1, raw, 0)] == [Start(0, raw, 0), Start(1, raw, 0)];
  }

  /** Such a file exists for every codec: the smallest one the writer makes. */
  lemma SomeFileParses(cfg: Config) returns (raw: Text)
    ensures raw != [] && ParseFile(cfg.codec, raw).Ok?
  {
    var r := RunRecord([0x61], 0, [], [], [], []);
    hide ParseFile;
    FileRoundTrip(cfg.codec, r);
    raw := WriteFile(cfg.codec, r);
  }
}
