/** Which rows name an object: what the storage settings promise over whole runs. */
module StoragePolicy {
  import opened Wrappers
  import opened Bytes
  import opened RunFile
  import opened Uploads

  /** The settings want the object of a run with this row, judged by the row alone. */
  predicate Admits(s: Settings, row: RunMetadata) {
    && s.storeRunsEnabled
    && (s.storeNonAnonOnly ==> row.steamID != [])
    && (s.storeWithMouseTraceOnly ==> row.hasMouseTrace)
  }

  /** The settings that were answered to any call during a run. */
  function Answers(actions: seq<Action>): set<Settings> {
    set a | a in actions && a.Advance? && a.reply.Success? :: a.reply.settings
  }

  /**
   * A row names an object only if there is a store and, where there are settings, some answer admits it; and a row
   * without one, where there is a store, was refused by some answer.
   */
  ghost predicate RowFollows(cfg: Config, row: RunMetadata, answers: set<Settings>) {
    if row.objectKey != [] then cfg.hasStore && (cfg.hasSettings ==> exists s <- answers :: Admits(s, row))
    else cfg.hasStore ==> cfg.hasSettings && exists s <- answers :: !Admits(s, row)
  }

  /** The row that a call past its decision is on its way to insert follows the answers too. */
  ghost predicate CallFollows(cfg: Config, u: Upload, answers: set<Settings>) {
    match u.pc
    case Putting => RowFollows(cfg, MetadataOf(cfg, u, KeyOf(cfg, u)), answers)
    case Inserting(key) => RowFollows(cfg, MetadataOf(cfg, u, key), answers)
    case _ => true
  }

  ghost predicate Follows(cfg: Config, w: World, answers: set<Settings>) {
    && (forall h <- w.db.rows :: RowFollows(cfg, w.db.rows[h], answers))
    && (forall id <- w.uploads :: CallFollows(cfg, w.uploads[id], answers))
  }

  /** The decision on a parsed file is the one its row would justify. */
  lemma DecisionIsOnTheRow(cfg: Config, s: Settings, u: Upload, key: Text)
    ensures ShouldStore(cfg, s, u.parsed) <==>
        if cfg.hasSettings then Admits(s, MetadataOf(cfg, u, key)) else cfg.hasStore
    ensures MetadataOf(cfg, u, key).objectKey == key
  {
    hide EnsureExtension, TrimSpace;
  }

  lemma DecisionFollows(cfg: Config, db: Db, u: Upload, reply: Reply, answers: set<Settings>)
    requires u.pc.Deciding? && (reply.Success? ==> reply.settings in answers)
    ensures CallFollows(cfg, u.(pc := Step(cfg, db, u, reply).pc), answers)
  {
    hide MetadataOf, KeyOf, ShouldStore, Admits;
    var settings := if reply.Success? then reply.settings else Settings(true, false, false);
    var pc := Step(cfg, db, u, reply).pc;
    PcIsNoMatter(cfg, u, pc, KeyOf(cfg, u));
    PcIsNoMatter(cfg, u, pc, []);
    DecisionIsOnTheRow(cfg, settings, u, KeyOf(cfg, u));
    DecisionIsOnTheRow(cfg, settings, u, []);
  }

  lemma StepFollows(cfg: Config, db: Db, u: Upload, reply: Reply, answers: set<Settings>)
    requires CallFollows(cfg, u, answers) && (reply.Success? ==> reply.settings in answers)
    requires forall h <- db.rows :: RowFollows(cfg, db.rows[h], answers)
    ensures var after := Step(cfg, db, u, reply);
      && (forall h <- after.db.rows :: RowFollows(cfg, after.db.rows[h], answers))
      && CallFollows(cfg, u.(pc := after.pc), answers)
  {
    hide EnsureExtension, TrimSpace, BuildObjectKey, RowFollows, ShouldStore;
    if u.pc.Deciding? {
      DecisionFollows(cfg, db, u, reply, answers);
    }
  }

  lemma ActionFollows(cfg: Config, w: World, a: Action, answers: set<Settings>)
    requires Follows(cfg, w, answers) && Answers([a]) <= answers
    ensures Follows(cfg, Do(cfg, w, a), answers)
  {
    hide ParseFile, Step, RowFollows;
    assert a in [a];
    if a.Advance? && a.id in w.uploads {
      assert a.reply.Success? ==> a.reply.settings in Answers([a]);
      StepFollows(cfg, w.db, w.uploads[a.id], a.reply, answers);
    }
  }

  lemma {:induction false} FollowsAlways(cfg: Config, w: World, actions: seq<Action>, answers: set<Settings>)
    requires Follows(cfg, w, answers) && Answers(actions) <= answers
    ensures Follows(cfg, Run(cfg, w, actions), answers)
    decreases |actions|
  {
    hide Do, Follows;
    if |actions| > 0 {
      assert Answers([actions[0]]) <= Answers(actions) && Answers(actions[1..]) <= Answers(actions);
      ActionFollows(cfg, w, actions[0], answers);
      FollowsAlways(cfg, Do(cfg, w, actions[0]), actions[1..], answers);
    }
  }

  /** Over any run, every committed row names an object or not as the answered settings say. */
  lemma RowsFollowSettings(cfg: Config, actions: seq<Action>)
    ensures var w := Run(cfg, EMPTY, actions); forall h <- w.db.rows :: RowFollows(cfg, w.db.rows[h], Answers(actions))
  {
    hide Run, RowFollows;
    FollowsAlways(cfg, EMPTY, actions, Answers(actions));
  }

  /**
   * While the settings stay the same, a row names an object exactly when there is a store and the settings admit the
   * row. Without settings, exactly when there is a store.
   */
  lemma ConstantSettingsDecide(cfg: Config, actions: seq<Action>, settings: Settings)
    requires forall s <- Answers(actions) :: s == settings
    ensures var w := Run(cfg, EMPTY, actions); forall h <- w.db.rows ::
      w.db.rows[h].objectKey != [] <==> cfg.hasStore && (cfg.hasSettings ==> Admits(settings, w.db.rows[h]))
  {
    RowsFollowSettings(cfg, actions);
    hide Run, Answers, Admits;
  }

  /** A switch that every answer has on holds for all rows, whatever else the answers say. */
  lemma SwitchesHold(cfg: Config, actions: seq<Action>, h: Hash)
    requires cfg.hasSettings && h in Run(cfg, EMPTY, actions).db.rows
    ensures var row := Run(cfg, EMPTY, actions).db.rows[h];
      && ((forall s <- Answers(actions) :: s.storeNonAnonOnly) && row.steamID == [] ==> row.objectKey == [])
      && ((forall s <- Answers(actions) :: s.storeWithMouseTraceOnly) && !row.hasMouseTrace ==> row.objectKey == [])
      && ((forall s <- Answers(actions) :: !s.storeRunsEnabled) ==> row.objectKey == [])
  {
    RowsFollowSettings(cfg, actions);
    hide Run, Answers;
  }
}
