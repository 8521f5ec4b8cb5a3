/**
 * Uploading runs: what one call does step by step, over a table of rows and a store of objects that are not
 * updated together.
 */
module Uploads {
  import opened Wrappers
  import opened Bytes
  import opened RunFile

  const HASH_SIZE := 64
  const SLASH: Text := [0x2F]
  // ".refleks"
  const EXTENSION: Text := [0x2E, 0x72, 0x65, 0x66, 0x6C, 0x65, 0x6B, 0x73]
  // The same with the Kelvin sign for its k.
  const KELVIN_EXTENSION: Text := [0x2E, 0x72, 0x65, 0x66, 0x6C, 0x65, 0xE2, 0x84, 0xAA, 0x73]
  const KEY_TAIL := 72

  predicate IsHexDigit(c: byte) {
    0x30 <= c <= 0x39 || 0x61 <= c <= 0x66
  }

  predicate IsHash(h: Text) {
    |h| == HASH_SIZE && forall c <- h :: IsHexDigit(c)
  }

  type Hash = h: Text | IsHash(h) witness seq(HASH_SIZE, _ => 0x30)

  datatype Settings = Settings(storeRunsEnabled: bool, storeNonAnonOnly: bool, storeWithMouseTraceOnly: bool)

  /** A configured service. The hash function and the date path of a timestamp are foreign code. */
  datatype Config = Config(
    codec: Codec,
    sha: Text -> Hash,
    datePath: int64 -> Text,
    keyPrefix: Text,
    hasStore: bool,
    hasSettings: bool)

  datatype RunMetadata = RunMetadata(
    hash: Hash,
    fileName: Text,
    scenarioName: Text,
    steamID: Text,
    steamUsername: Text,
    playedAt: int64,
    sizeBytes: nat,
    objectKey: Text,
    uploadedAt: int64,
    formatVersion: byte,
    score: Option<uint64>,
    accuracy: Option<uint64>,
    avgTTKSeconds: Option<uint64>,
    durationSecs: Option<uint64>,
    sensCM360: Option<uint64>,
    hasMouseTrace: bool,
    avgMouseSpeed: Option<real>,
    mouseVID: Text,
    mousePID: Text)

  // ---- Names and keys ----

  predicate HasTail(s: Text, tail: Text) {
    |s| >= |tail| && Lower(s[|s| - |tail|..]) == tail
  }

  /** The name ends with the extension in any case; Go lower-cases the Kelvin sign to a k. */
  predicate HasExtension(s: Text) {
    HasTail(s, EXTENSION) || HasTail(s, KELVIN_EXTENSION)
  }

  function EnsureExtension(fileName: Text): Text {
    var trimmed := TrimSpace(fileName);
    if trimmed == [] || HasExtension(trimmed) then trimmed else trimmed + EXTENSION
  }

  /** The canonical form of a hash that a client sends. */
  function Canonical(raw: Text): Text {
    Lower(TrimSpace(raw))
  }

  /** The value of a hex digit in either case, or -1. */
  function HexValue(c: byte): int {
    if 0x30 <= c <= 0x39 then c - 0x30
    else if 0x41 <= c <= 0x46 then c - 0x37
    else if 0x61 <= c <= 0x66 then c - 0x57
    else -1
  }

  /** 64 hex digits. */
  predicate HexDigits(s: Text) {
    |s| == 64 && forall c <- s :: HexValue(c) >= 0
  }

  /** The same 64 digits as the hash, in any case. */
  predicate Spells(s: Text, h: Hash) {
    HexDigits(s) && forall i | 0 <= i < 64 :: HexValue(s[i]) == HexValue(h[i])
  }

  lemma CanonicalIsHash(raw: Text)
    ensures IsHash(Canonical(raw)) <==> HexDigits(TrimSpace(raw))
    ensures Canonical(raw) == [] <==> TrimSpace(raw) == []
  {
    hide TrimSpace;
    var s := TrimSpace(raw);
    forall i | 0 <= i < |s| ensures IsHexDigit(Lower(s)[i]) <==> HexValue(s[i]) >= 0 {}
    if IsHash(Lower(s)) {
      forall i | 0 <= i < |s| ensures HexValue(s[i]) >= 0 {
        assert Lower(s)[i] in Lower(s);
      }
    }
  }

  /** A client's hash means the one hash that it spells once trimmed. */
  lemma CanonicalSpells(raw: Text, h: Hash)
    ensures Canonical(raw) == h <==> Spells(TrimSpace(raw), h)
  {
    hide TrimSpace;
    CanonicalIsHash(raw);
    var s := TrimSpace(raw);
    if HexDigits(s) {
      forall i | 0 <= i < 64 ensures Lower(s)[i] == h[i] <==> HexValue(s[i]) == HexValue(h[i]) {
        assert s[i] in s && h[i] in h;
      }
    }
  }

  /** The same bytes up to the case of ASCII letters. */
  predicate SameLetters(s: Text, lower: Text) {
    |s| == |lower| && forall i | 0 <= i < |s| ::
      s[i] == lower[i] || (0x61 <= lower[i] <= 0x7A && s[i] == lower[i] - 0x20)
  }

  lemma LowerSpells(s: Text, lower: Text)
    requires forall c <- lower :: LowerByte(c) == c
    ensures Lower(s) == lower <==> SameLetters(s, lower)
  {}

  /** Which names have the extension `.refleks`, and what becomes of the others. */
  lemma ExtensionExactly(name: Text)
    ensures HasExtension(name) <==>
            || (|name| >= 8 && SameLetters(name[|name| - 8..], [0x2E, 0x72, 0x65, 0x66, 0x6C, 0x65, 0x6B, 0x73]))
            || (|name| >= 10
                && SameLetters(name[|name| - 10..], [0x2E, 0x72, 0x65, 0x66, 0x6C, 0x65, 0xE2, 0x84, 0xAA, 0x73]))
    ensures var t := TrimSpace(name);
      EnsureExtension(name) == if t == [] || HasExtension(t) then t
                               else t + [0x2E, 0x72, 0x65, 0x66, 0x6C, 0x65, 0x6B, 0x73]
  {
    hide TrimSpace, Lower, SameLetters;
    if |name| >= 8 {
      LowerSpells(name[|name| - 8..], EXTENSION);
    }
    if |name| >= 10 {
      LowerSpells(name[|name| - 10..], KELVIN_EXTENSION);
    }
  }

  function BuildObjectKey(prefix: Text, datePath: Text, hash: Hash): (key: Text)
    ensures |key| >= KEY_TAIL
  {
    var name := hash + EXTENSION;
    if prefix == [] then datePath + SLASH + name else prefix + SLASH + datePath + SLASH + name
  }

  /** The 64 bytes before the extension. */
  function HashOfKey(key: Text): Text
    requires |key| >= KEY_TAIL
  {
    key[|key| - KEY_TAIL..|key| - |EXTENSION|]
  }

  /** A key determines the hash it was built for, whatever the prefix and the date. */
  lemma KeyDeterminesHash(prefix: Text, datePath: Text, hash: Hash)
    ensures HashOfKey(BuildObjectKey(prefix, datePath, hash)) == hash
  {
    var key := BuildObjectKey(prefix, datePath, hash);
    var front := if prefix == [] then datePath + SLASH else prefix + SLASH + datePath + SLASH;
    assert key == front + hash + EXTENSION;
  }

  // ---- One call ----

  datatype End = Stored | Duplicate | Error

  /** Where a call is: the next thing it does to the row table or the object store. */
  datatype Pc =
    | Checking
    | Deciding
    | Putting
    | Inserting(key: Text)
    | Cleaning(key: Text, end: End)
    | Done(end: End)

  datatype Upload = Upload(raw: Text, parsed: ParsedRefleksFile, now: int64, pc: Pc)

  datatype Db = Db(rows: map<Hash, RunMetadata>, objects: map<Text, Text>)

  /**
   * What the table, the store or the settings answer. A put that fails may have stored the bytes all the same, and a
   * delete that fails may have removed them: `bytesLeft` says whether they are in the store afterwards.
   */
  datatype Reply = Success(settings: Settings) | Failure(bytesLeft: bool)

  function HashOf(cfg: Config, u: Upload): Hash {
    cfg.sha(u.raw)
  }

  function KeyOf(cfg: Config, u: Upload): Text {
    BuildObjectKey(cfg.keyPrefix, cfg.datePath(u.parsed.playedAt), HashOf(cfg, u))
  }

  function ShouldStore(cfg: Config, settings: Settings, parsed: ParsedRefleksFile): bool {
    if !cfg.hasSettings then cfg.hasStore
    else
      && settings.storeRunsEnabled
      && !(settings.storeNonAnonOnly && TrimSpace(parsed.steamID) == [])
      && !(settings.storeWithMouseTraceOnly && !parsed.hasMouseTrace)
  }

  function MetadataOf(cfg: Config, u: Upload, key: Text): RunMetadata {
    var p := u.parsed;
    RunMetadata(
      HashOf(cfg, u), EnsureExtension(p.fileName), TrimSpace(p.scenarioName), TrimSpace(p.steamID),
          TrimSpace(p.steamUsername),
      p.playedAt, |u.raw|, key, u.now, p.formatVersion, p.score, p.accuracy, p.avgTTKSeconds, p.durationSecs,
          p.sensCM360,
      p.hasMouseTrace, p.avgMouseSpeed, TrimSpace(p.mouseVID), TrimSpace(p.mousePID))
  }

  lemma PcIsNoMatter(cfg: Config, u: Upload, pc: Pc, key: Text)
    ensures MetadataOf(cfg, u.(pc := pc), key) == MetadataOf(cfg, u, key)
    ensures KeyOf(cfg, u.(pc := pc)) == KeyOf(cfg, u) != []
  {
    hide EnsureExtension, TrimSpace, BuildObjectKey;
  }

  datatype After = After(db: Db, pc: Pc)

  /** After a failed or conflicting insert: an uploaded object is deleted first. */
  function CleanUp(key: Text, end: End): Pc {
    if key == [] then Done(end) else Cleaning(key, end)
  }

  /** The bytes stay in the store although the operation failed. */
  predicate Leaves(reply: Reply) {
    reply.Failure? && reply.bytesLeft
  }

  /** One step of a call. */
  function Step(cfg: Config, db: Db, u: Upload, reply: Reply): After {
    match u.pc
    case Checking =>
      if reply.Failure? then After(db, Done(Error))
      else if HashOf(cfg, u) in db.rows then After(db, Done(Duplicate))
      else After(db, Deciding)
    case Deciding =>
      if reply.Failure? && cfg.hasSettings then After(db, Done(Error))
      else
        var settings := if reply.Success? then reply.settings else Settings(true, false, false);
        After(db, if ShouldStore(cfg, settings, u.parsed) && cfg.hasStore then Putting else Inserting([]))
    case Putting =>
      var put := db.(objects := db.objects[KeyOf(cfg, u) := u.raw]);
      if reply.Success? then After(put, Inserting(KeyOf(cfg, u)))
      else After(if Leaves(reply) then put else db, Done(Error))
    case Inserting(key) =>
      if reply.Failure? then After(db, CleanUp(key, Error))
      else if HashOf(cfg, u) in db.rows then After(db, CleanUp(key, Duplicate))
      else After(db.(rows := db.rows[HashOf(cfg, u) := MetadataOf(cfg, u, key)]), Done(Stored))
    case Cleaning(key, end) =>
      After(if Leaves(reply) then db else db.(objects := db.objects - {key}), Done(end))
    case Done(_) => After(db, u.pc)
  }

  // ---- Many calls ----

  /** `leaked` remembers the keys whose bytes a failed put or a failed delete left in the store. */
  datatype World = World(db: Db, uploads: map<nat, Upload>, leaked: set<Text>)

  datatype Action = Start(id: nat, raw: Text, now: int64) | Advance(id: nat, reply: Reply)

  function Leaks(cfg: Config, u: Upload, reply: Reply): set<Text> {
    if !Leaves(reply) then {}
    else if u.pc.Putting? then {KeyOf(cfg, u)}
    else if u.pc.Cleaning? then {u.pc.key}
    else {}
  }

  /** One action of one client. A file that does not parse starts nothing; a finished call does nothing more. */
  function Do(cfg: Config, w: World, a: Action): World {
    match a
    case Start(id, raw, now) =>
      if id in w.uploads || raw == [] || !ParseFile(cfg.codec, raw).Ok? then w
      else w.(uploads := w.uploads[id := Upload(raw, ParseFile(cfg.codec, raw).value, now, Checking)])
    case Advance(id, reply) =>
      if id !in w.uploads then w
      else
        var u := w.uploads[id];
        var after := Step(cfg, w.db, u, reply);
        World(after.db, w.uploads[id := u.(pc := after.pc)], w.leaked + Leaks(cfg, u, reply))
  }

  function Run(cfg: Config, w: World, actions: seq<Action>): World
    decreases |actions|
  {
    if |actions| == 0 then w else Run(cfg, Do(cfg, w, actions[0]), actions[1..])
  }

  const EMPTY := World(Db(map[], map[]), map[], {})

  predicate Live(u: Upload) {
    !u.pc.Done?
  }

  // ---- Content integrity ----

  predicate GoodRow(h: Hash, row: RunMetadata) {
    row.hash == h && (row.objectKey == [] || (|row.objectKey| >= KEY_TAIL && HashOfKey(row.objectKey) == h))
  }

  predicate GoodObject(cfg: Config, key: Text, bytes: Text) {
    |key| >= KEY_TAIL && cfg.sha(bytes) == HashOfKey(key)
  }

  predicate GoodUpload(cfg: Config, u: Upload) {
    match u.pc
    case Inserting(key) => key == [] || key == KeyOf(cfg, u)
    case Cleaning(key, end) => key == KeyOf(cfg, u) && end != Stored
    case _ => true
  }

  ghost predicate Integrity(cfg: Config, w: World) {
    && (forall h <- w.db.rows :: GoodRow(h, w.db.rows[h]))
    && (forall k <- w.db.objects :: GoodObject(cfg, k, w.db.objects[k]))
    && (forall id <- w.uploads :: GoodUpload(cfg, w.uploads[id]))
  }

  predicate GoodDb(cfg: Config, db: Db) {
    (forall h <- db.rows :: GoodRow(h, db.rows[h])) && (forall k <- db.objects :: GoodObject(cfg, k, db.objects[k]))
  }

  lemma StepKeepsGood(cfg: Config, db: Db, u: Upload, reply: Reply)
    requires GoodDb(cfg, db) && GoodUpload(cfg, u)
    ensures var after := Step(cfg, db, u, reply); GoodDb(cfg, after.db) && GoodUpload(cfg, u.(pc := after.pc))
  {
    hide EnsureExtension, TrimSpace, ShouldStore, HashOfKey, BuildObjectKey;
    KeyDeterminesHash(cfg.keyPrefix, cfg.datePath(u.parsed.playedAt), HashOf(cfg, u));
  }

  lemma IntegrityStep(cfg: Config, w: World, a: Action)
    requires Integrity(cfg, w)
    ensures Integrity(cfg, Do(cfg, w, a))
  {
    hide ParseFile, Step, GoodRow, GoodObject;
    if a.Advance? && a.id in w.uploads {
      StepKeepsGood(cfg, w.db, w.uploads[a.id], a.reply);
    }
  }

  lemma {:induction false} IntegrityAlways(cfg: Config, w: World, actions: seq<Action>)
    requires Integrity(cfg, w)
    ensures Integrity(cfg, Run(cfg, w, actions))
    decreases |actions|
  {
    hide Integrity, Do;
    if |actions| > 0 {
      IntegrityStep(cfg, w, actions[0]);
      IntegrityAlways(cfg, Do(cfg, w, actions[0]), actions[1..]);
    }
  }

  /** The row is looked up first; the object is fetched later, when other clients may have moved on. */
  function Serve(looked: Db, later: Db, hash: Hash): Option<Text> {
    if hash !in looked.rows || looked.rows[hash].objectKey == [] then None
    else
      var key := looked.rows[hash].objectKey;
      if key in later.objects then Some(later.objects[key]) else None
  }

  /** A download while nothing else happens. */
  function Download(db: Db, hash: Hash): Option<Text> {
    Serve(db, db, hash)
  }

  /** Whatever the interleaving and the failures, before and during a download, its bytes have the hash asked for. */
  lemma DownloadedBytesHaveTheHash(cfg: Config, actions: seq<Action>, more: seq<Action>, hash: Hash)
    ensures var looked := Run(cfg, EMPTY, actions);
      var d := Serve(looked.db, Run(cfg, looked, more).db, hash);
      d.Some? ==> cfg.sha(d.value) == hash
  {
    hide Run, HashOfKey;
    IntegrityAlways(cfg, EMPTY, actions);
    IntegrityAlways(cfg, Run(cfg, EMPTY, actions), more);
  }

  // ---- No orphans ----

  /** A call owns the object it has put until its insert is resolved. */
  predicate Owns(u: Upload, key: Text) {
    (u.pc.Inserting? || u.pc.Cleaning?) && u.pc.key == key
  }

  ghost predicate Accounted(w: World, key: Text) {
    || (exists h <- w.db.rows :: w.db.rows[h].objectKey == key)
    || (exists id <- w.uploads :: Owns(w.uploads[id], key))
    || key in w.leaked
  }

  ghost predicate NoOrphans(w: World) {
    forall key <- w.db.objects :: Accounted(w, key)
  }

  lemma NoOrphansStep(cfg: Config, w: World, a: Action)
    requires Integrity(cfg, w) && NoOrphans(w)
    ensures NoOrphans(Do(cfg, w, a))
  {
    hide ParseFile, EnsureExtension, TrimSpace, ShouldStore, HashOfKey, BuildObjectKey, Integrity;
    var w' := Do(cfg, w, a);
    forall key <- w'.db.objects ensures Accounted(w', key) {
      if a.Advance? && a.id in w.uploads {
        AdvanceAccounts(cfg, w, a.id, a.reply, key);
      } else {
        assert Accounted(w, key);
        StartAccounts(cfg, w, a, key);
      }
    }
  }

  lemma StartAccounts(cfg: Config, w: World, a: Action, key: Text)
    requires Accounted(w, key) && (a.Start? || a.id !in w.uploads)
    ensures Accounted(Do(cfg, w, a), key)
  {
    hide ParseFile;
    var w' := Do(cfg, w, a);
    if h :| h in w.db.rows && w.db.rows[h].objectKey == key {
      assert w'.db.rows[h].objectKey == key;
    } else if id :| id in w.uploads && Owns(w.uploads[id], key) {
      assert Owns(w'.uploads[id], key);
    }
  }

  lemma AdvanceAccounts(cfg: Config, w: World, id: nat, reply: Reply, key: Text)
    requires Integrity(cfg, w) && NoOrphans(w) && id in w.uploads
    requires key in Do(cfg, w, Advance(id, reply)).db.objects
    ensures Accounted(Do(cfg, w, Advance(id, reply)), key)
  {
    var w' := Do(cfg, w, Advance(id, reply));
    var u := w.uploads[id];
    hide EnsureExtension, TrimSpace, ShouldStore, HashOfKey, BuildObjectKey, Integrity;
    if u.pc.Putting? && key == KeyOf(cfg, u) {
      assert key != [];
      if reply.Success? {
        assert Owns(w'.uploads[id], key);
      } else if reply.bytesLeft {
        assert key in w'.leaked;
      } else {
        assert key in w.db.objects;
        OthersAccount(cfg, w, id, reply, key);
      }
    } else {
      assert key in w.db.objects;
      ObjectKeysAreNotEmpty(cfg, w, key);
      OthersAccount(cfg, w, id, reply, key);
    }
  }

  lemma ObjectKeysAreNotEmpty(cfg: Config, w: World, key: Text)
    requires Integrity(cfg, w) && key in w.db.objects
    ensures key != []
  {
    assert GoodObject(cfg, key, w.db.objects[key]);
  }

  lemma OthersAccount(cfg: Config, w: World, id: nat, reply: Reply, key: Text)
    requires NoOrphans(w) && id in w.uploads && key in w.db.objects && key != []
    requires key in Do(cfg, w, Advance(id, reply)).db.objects
    ensures Accounted(Do(cfg, w, Advance(id, reply)), key)
  {
    hide EnsureExtension, TrimSpace, ShouldStore, HashOfKey, BuildObjectKey;
    var w' := Do(cfg, w, Advance(id, reply));
    assert Accounted(w, key);
    if h :| h in w.db.rows && w.db.rows[h].objectKey == key {
      assert w'.db.rows[h].objectKey == key;
    } else if i :| i in w.uploads && Owns(w.uploads[i], key) {
      if i != id {
        assert Owns(w'.uploads[i], key);
      } else {
        OwnerAccounts(cfg, w, id, reply, key);
      }
    }
  }

  lemma OwnerAccounts(cfg: Config, w: World, id: nat, reply: Reply, key: Text)
    requires id in w.uploads && Owns(w.uploads[id], key) && key != []
    requires key in Do(cfg, w, Advance(id, reply)).db.objects
    ensures Accounted(Do(cfg, w, Advance(id, reply)), key)
  {
    hide EnsureExtension, TrimSpace, ShouldStore, HashOfKey, BuildObjectKey;
    var w' := Do(cfg, w, Advance(id, reply));
    var u := w.uploads[id];
    if u.pc.Inserting? && reply.Success? && HashOf(cfg, u) !in w.db.rows {
      assert w'.db.rows[HashOf(cfg, u)].objectKey == key;
    } else if u.pc.Inserting? && key != [] {
      assert Owns(w'.uploads[id], key);
    }
  }

  lemma {:induction false} NoOrphansAlways(cfg: Config, w: World, actions: seq<Action>)
    requires Integrity(cfg, w) && NoOrphans(w)
    ensures NoOrphans(Run(cfg, w, actions))
    decreases |actions|
  {
    hide Integrity, NoOrphans, Do;
    if |actions| > 0 {
      IntegrityStep(cfg, w, actions[0]);
      NoOrphansStep(cfg, w, actions[0]);
      NoOrphansAlways(cfg, Do(cfg, w, actions[0]), actions[1..]);
    }
  }

  predicate Quiet(w: World) {
    forall id <- w.uploads :: !Live(w.uploads[id])
  }

  predicate Referenced(db: Db, key: Text) {
    exists h <- db.rows :: db.rows[h].objectKey == key
  }

  /**
   * After any interleaving, once no call is in flight, every stored object is referenced by a row, unless a put
   * that failed or a delete that failed left it behind.
   */
  lemma QuietStoreHasNoOrphans(cfg: Config, actions: seq<Action>)
    requires Quiet(Run(cfg, EMPTY, actions))
    ensures var w := Run(cfg, EMPTY, actions); forall key <- w.db.objects :: Referenced(w.db, key) || key in w.leaked
    ensures CleanRun(cfg, EMPTY, actions) ==>
              forall key <- Run(cfg, EMPTY, actions).db.objects :: Referenced(Run(cfg, EMPTY, actions).db, key)
  {
    hide Run, CleanRun;
    NoOrphansAlways(cfg, EMPTY, actions);
    if CleanRun(cfg, EMPTY, actions) {
      CleanRunsLeakNothing(cfg, EMPTY, actions);
    }
    var w := Run(cfg, EMPTY, actions);
    forall key <- w.db.objects ensures Referenced(w.db, key) || key in w.leaked {
      assert Accounted(w, key);
    }
  }

  /** Nothing leaks in a run whose failed puts store nothing and whose deletes remove the object, failed or not. */
  predicate CleanAction(w: World, a: Action) {
    a.Advance? && a.id in w.uploads && Leaves(a.reply) ==>
      !w.uploads[a.id].pc.Putting? && !w.uploads[a.id].pc.Cleaning?
  }

  predicate CleanRun(cfg: Config, w: World, actions: seq<Action>)
    decreases |actions|
  {
    |actions| > 0 ==> CleanAction(w, actions[0]) && CleanRun(cfg, Do(cfg, w, actions[0]), actions[1..])
  }

  lemma {:induction false} CleanRunsLeakNothing(cfg: Config, w: World, actions: seq<Action>)
    requires CleanRun(cfg, w, actions)
    ensures Run(cfg, w, actions).leaked == w.leaked
    decreases |actions|
  {
    hide ParseFile, Step;
    if |actions| > 0 {
      CleanRunsLeakNothing(cfg, Do(cfg, w, actions[0]), actions[1..]);
    }
  }

  // ---- One winner per hash ----

  predicate Won(cfg: Config, u: Upload, h: Hash) {
    u.pc == Done(Stored) && HashOf(cfg, u) == h
  }

  ghost predicate EachRowWon(cfg: Config, w: World) {
    forall h <- w.db.rows :: exists id <- w.uploads :: Won(cfg, w.uploads[id], h)
  }

  ghost predicate WinnersDiffer(cfg: Config, w: World) {
    && (forall id <- w.uploads :: w.uploads[id].pc == Done(Stored) ==> HashOf(cfg, w.uploads[id]) in w.db.rows)
    && (forall i, j | i in w.uploads && j in w.uploads && w.uploads[i].pc == Done(Stored)
        && w.uploads[j].pc == Done(Stored)
          && HashOf(cfg, w.uploads[i]) == HashOf(cfg, w.uploads[j]) :: i == j)
    && (forall id <- w.uploads :: w.uploads[id].pc.Cleaning? ==> w.uploads[id].pc.end != Stored)
  }

  /** Rows and successful calls correspond one to one. */
  ghost predicate OneWinnerEach(cfg: Config, w: World) {
    EachRowWon(cfg, w) && WinnersDiffer(cfg, w)
  }

  /** A row appears exactly when a call ends as stored; rows are never changed or removed. */
  lemma StepCommits(cfg: Config, db: Db, u: Upload, reply: Reply)
    requires u.pc.Cleaning? ==> u.pc.end != Stored
    ensures var after := Step(cfg, db, u, reply);
      if u.pc != Done(Stored) && after.pc == Done(Stored) then
        HashOf(cfg, u) !in db.rows && after.db.rows.Keys == db.rows.Keys + {HashOf(cfg, u)}
      else after.db.rows == db.rows && (after.pc == Done(Stored) <==> u.pc == Done(Stored))
    ensures var after := Step(cfg, db, u, reply);
      && (forall h <- db.rows :: h in after.db.rows && after.db.rows[h] == db.rows[h])
      && (after.pc.Cleaning? ==> after.pc.end != Stored)
  {
    hide MetadataOf, KeyOf, ShouldStore;
  }

  lemma OneWinnerStep(cfg: Config, w: World, a: Action)
    requires OneWinnerEach(cfg, w)
    ensures OneWinnerEach(cfg, Do(cfg, w, a))
  {
    EachRowWonStep(cfg, w, a);
    WinnersDifferStep(cfg, w, a);
    hide Do, EachRowWon, WinnersDiffer;
  }

  lemma WinnersDifferStep(cfg: Config, w: World, a: Action)
    requires WinnersDiffer(cfg, w)
    ensures WinnersDiffer(cfg, Do(cfg, w, a))
  {
    hide ParseFile, Step, Leaks;
    if a.Advance? && a.id in w.uploads {
      StepCommits(cfg, w.db, w.uploads[a.id], a.reply);
    }
  }

  lemma EachRowWonStep(cfg: Config, w: World, a: Action)
    requires OneWinnerEach(cfg, w)
    ensures EachRowWon(cfg, Do(cfg, w, a))
  {
    hide ParseFile, Step, Leaks;
    var w' := Do(cfg, w, a);
    if a.Advance? && a.id in w.uploads {
      StepCommits(cfg, w.db, w.uploads[a.id], a.reply);
    }
    forall h <- w'.db.rows ensures exists id <- w'.uploads :: Won(cfg, w'.uploads[id], h) {
      if h in w.db.rows {
        var id :| id in w.uploads && Won(cfg, w.uploads[id], h);
        assert Won(cfg, w'.uploads[id], h);
      } else {
        assert Won(cfg, w'.uploads[a.id], h);
      }
    }
  }

  lemma {:induction false} OneWinnerAlways(cfg: Config, w: World, actions: seq<Action>)
    requires OneWinnerEach(cfg, w)
    ensures OneWinnerEach(cfg, Run(cfg, w, actions))
    decreases |actions|
  {
    hide OneWinnerEach, Do;
    if |actions| > 0 {
      OneWinnerStep(cfg, w, actions[0]);
      OneWinnerAlways(cfg, Do(cfg, w, actions[0]), actions[1..]);
    }
  }

  /** Over any run the committed hashes are the hashes of the calls that ended as stored, one call each. */
  lemma OneWinnerPerHash(cfg: Config, actions: seq<Action>)
    ensures var w := Run(cfg, EMPTY, actions);
      && (forall h: Hash :: h in w.db.rows <==> exists id <- w.uploads :: Won(cfg, w.uploads[id], h))
      && (forall i, j, h | i in w.uploads && j in w.uploads && Won(cfg, w.uploads[i], h) && Won(cfg, w.uploads[j], h) ::
          i == j)
  {
    hide Run, HashOf;
    OneWinnerAlways(cfg, EMPTY, actions);
  }

  // ---- No dangling rows ----

  predicate Dangling(db: Db, h: Hash) {
    h in db.rows && db.rows[h].objectKey != [] && db.rows[h].objectKey !in db.objects
  }

  predicate NoDangling(db: Db) {
    forall h <- db.rows :: !Dangling(db, h)
  }

  /** No two calls in flight carry the same hash. */
  predicate NoOverlap(cfg: Config, w: World) {
    forall i, j | i in w.uploads && j in w.uploads && Live(w.uploads[i]) && Live(w.uploads[j])
      && HashOf(cfg, w.uploads[i]) == HashOf(cfg, w.uploads[j]) :: i == j
  }

  predicate NoOverlapRun(cfg: Config, w: World, actions: seq<Action>)
    decreases |actions|
  {
    NoOverlap(cfg, w) && (|actions| > 0 ==> NoOverlapRun(cfg, Do(cfg, w, actions[0]), actions[1..]))
  }

  /** A call past its duplicate check. */
  predicate PastCheck(u: Upload) {
    Live(u) && !u.pc.Checking?
  }

  /**
   * A call past its check is the only one that can commit its hash, and a call holds an object only while it is
   * stored.
   */
  ghost predicate Exclusive(cfg: Config, w: World) {
    && NoDangling(w.db)
    && (forall id <- w.uploads :: PastCheck(w.uploads[id]) ==> HashOf(cfg, w.uploads[id]) !in w.db.rows)
    && (forall id <- w.uploads :: w.uploads[id].pc.Inserting? && w.uploads[id].pc.key != [] ==>
        w.uploads[id].pc.key in w.db.objects)
  }

  lemma ExclusiveStep(cfg: Config, w: World, a: Action)
    requires Integrity(cfg, w) && Exclusive(cfg, w) && NoOverlap(cfg, w)
    ensures Exclusive(cfg, Do(cfg, w, a))
  {
    if a.Advance? && a.id in w.uploads {
      var u := w.uploads[a.id];
      if u.pc.Inserting? {
        ExclusiveInsert(cfg, w, a.id, a.reply);
      } else if u.pc.Cleaning? {
        ExclusiveClean(cfg, w, a.id, a.reply);
      } else {
        ExclusiveOther(cfg, w, a.id, a.reply);
      }
    } else {
      hide ParseFile;
    }
  }

  lemma ExclusiveOther(cfg: Config, w: World, id: nat, reply: Reply)
    requires Exclusive(cfg, w)
    requires id in w.uploads && !w.uploads[id].pc.Inserting? && !w.uploads[id].pc.Cleaning?
    ensures Exclusive(cfg, Do(cfg, w, Advance(id, reply)))
  {
    hide ParseFile, ShouldStore, KeyOf;
  }

  lemma ExclusiveInsert(cfg: Config, w: World, id: nat, reply: Reply)
    requires Integrity(cfg, w) && Exclusive(cfg, w) && NoOverlap(cfg, w)
    requires id in w.uploads && w.uploads[id].pc.Inserting?
    ensures Exclusive(cfg, Do(cfg, w, Advance(id, reply)))
  {
    hide EnsureExtension, TrimSpace, KeyOf, Integrity;
  }

  /** Without overlap, the object a call puts or deletes is neither held by another call nor named by a row. */
  lemma OwnObject(cfg: Config, w: World, id: nat)
    requires Integrity(cfg, w) && Exclusive(cfg, w) && NoOverlap(cfg, w)
    requires id in w.uploads && (w.uploads[id].pc.Putting? || w.uploads[id].pc.Cleaning?)
    ensures var key := KeyOf(cfg, w.uploads[id]);
      && (w.uploads[id].pc.Cleaning? ==> w.uploads[id].pc.key == key && w.uploads[id].pc.end != Stored)
      && (forall h <- w.db.rows :: w.db.rows[h].objectKey != [] ==> w.db.rows[h].objectKey != key)
      && (forall i <- w.uploads :: w.uploads[i].pc.Inserting? && w.uploads[i].pc.key != [] ==>
          w.uploads[i].pc.key != key)
  {
    var u := w.uploads[id];
    var key := KeyOf(cfg, u);
    assert GoodUpload(cfg, u);
    KeyDeterminesHash(cfg.keyPrefix, cfg.datePath(u.parsed.playedAt), HashOf(cfg, u));
    hide BuildObjectKey, HashOfKey;
    assert PastCheck(u);
    forall h <- w.db.rows | w.db.rows[h].objectKey != [] ensures w.db.rows[h].objectKey != key {
      assert GoodRow(h, w.db.rows[h]);
    }
    forall i <- w.uploads | w.uploads[i].pc.Inserting? && w.uploads[i].pc.key != [] ensures w.uploads[i].pc.key != key {
      var v := w.uploads[i];
      assert GoodUpload(cfg, v);
      KeyDeterminesHash(cfg.keyPrefix, cfg.datePath(v.parsed.playedAt), HashOf(cfg, v));
    }
  }

  /** A delete by a call whose hash is not committed removes nobody else's object. */
  lemma ExclusiveClean(cfg: Config, w: World, id: nat, reply: Reply)
    requires Integrity(cfg, w) && Exclusive(cfg, w) && NoOverlap(cfg, w)
    requires id in w.uploads && w.uploads[id].pc.Cleaning?
    ensures Exclusive(cfg, Do(cfg, w, Advance(id, reply)))
  {
    OwnObject(cfg, w, id);
    hide BuildObjectKey, Integrity, NoOverlap;
  }

  lemma {:induction false} ExclusiveAlways(cfg: Config, w: World, actions: seq<Action>)
    requires Integrity(cfg, w) && Exclusive(cfg, w) && NoOverlapRun(cfg, w, actions)
    ensures Exclusive(cfg, Run(cfg, w, actions))
    decreases |actions|
  {
    hide Integrity, Exclusive, NoOverlap, Do;
    if |actions| > 0 {
      IntegrityStep(cfg, w, actions[0]);
      ExclusiveStep(cfg, w, actions[0]);
      ExclusiveAlways(cfg, Do(cfg, w, actions[0]), actions[1..]);
    }
  }

  /** While calls on the same hash do not overlap, every row that names an object has it, whatever fails. */
  lemma NoOverlapNoDangling(cfg: Config, actions: seq<Action>)
    requires NoOverlapRun(cfg, EMPTY, actions)
    ensures NoDangling(Run(cfg, EMPTY, actions).db)
  {
    hide Run, NoOverlapRun;
    ExclusiveAlways(cfg, EMPTY, actions);
  }

  // ---- Stored files stay downloadable ----

  /** The bytes are in the store under that key. */
  predicate Keeps(db: Db, key: Text, bytes: Text) {
    key in db.objects && db.objects[key] == bytes
  }

  /** The call's hash has a row, and the object the row names, if any, has the call's bytes. */
  predicate Downloadable(cfg: Config, db: Db, u: Upload) {
    var h := HashOf(cfg, u);
    h in db.rows && (db.rows[h].objectKey != [] ==> Keeps(db, db.rows[h].objectKey, u.raw))
  }

  /** A call about to insert has its own bytes in the store, and a call that stored its file can have it back. */
  ghost predicate Kept(cfg: Config, w: World) {
    forall id <- w.uploads :: var u := w.uploads[id];
      && (u.pc.Inserting? && u.pc.key != [] ==> Keeps(w.db, u.pc.key, u.raw))
      && (u.pc == Done(Stored) ==> Downloadable(cfg, w.db, u))
  }

  lemma KeptStep(cfg: Config, w: World, a: Action)
    requires Integrity(cfg, w) && Exclusive(cfg, w) && NoOverlap(cfg, w) && Kept(cfg, w)
    ensures Kept(cfg, Do(cfg, w, a))
  {
    if a.Advance? && a.id in w.uploads {
      hide Integrity, Exclusive, NoOverlap;
      if w.uploads[a.id].pc.Putting? || w.uploads[a.id].pc.Cleaning? {
        OwnObject(cfg, w, a.id);
        KeptStore(cfg, w, a.id, a.reply);
      } else {
        KeptOther(cfg, w, a.id, a.reply);
      }
    } else {
      hide ParseFile;
    }
  }

  lemma KeptStore(cfg: Config, w: World, id: nat, reply: Reply)
    requires Kept(cfg, w) && id in w.uploads && (w.uploads[id].pc.Putting? || w.uploads[id].pc.Cleaning?)
    requires w.uploads[id].pc.Cleaning? ==>
               w.uploads[id].pc.key == KeyOf(cfg, w.uploads[id]) && w.uploads[id].pc.end != Stored
    requires var key := KeyOf(cfg, w.uploads[id]);
      && (forall h <- w.db.rows :: w.db.rows[h].objectKey != [] ==> w.db.rows[h].objectKey != key)
      && (forall i <- w.uploads :: w.uploads[i].pc.Inserting? && w.uploads[i].pc.key != [] ==>
          w.uploads[i].pc.key != key)
    ensures Kept(cfg, Do(cfg, w, Advance(id, reply)))
  {
    hide BuildObjectKey;
  }

  lemma KeptOther(cfg: Config, w: World, id: nat, reply: Reply)
    requires Kept(cfg, w) && id in w.uploads && !w.uploads[id].pc.Putting? && !w.uploads[id].pc.Cleaning?
    ensures Kept(cfg, Do(cfg, w, Advance(id, reply)))
  {
    hide EnsureExtension, TrimSpace, ShouldStore, KeyOf;
  }

  lemma {:induction false} KeptAlways(cfg: Config, w: World, actions: seq<Action>)
    requires Integrity(cfg, w) && Exclusive(cfg, w) && Kept(cfg, w) && NoOverlapRun(cfg, w, actions)
    ensures Kept(cfg, Run(cfg, w, actions))
    decreases |actions|
  {
    hide Integrity, Exclusive, Kept, NoOverlap, Do;
    if |actions| > 0 {
      IntegrityStep(cfg, w, actions[0]);
      ExclusiveStep(cfg, w, actions[0]);
      KeptStep(cfg, w, actions[0]);
      KeptAlways(cfg, Do(cfg, w, actions[0]), actions[1..]);
    }
  }

  /**
   * While calls on the same hash do not overlap, every call that ended as stored has its row, and if the row names an
   * object, a download gives back the uploaded file byte for byte, whatever else happened and failed.
   */
  lemma StoredFilesStayDownloadable(cfg: Config, actions: seq<Action>)
    requires NoOverlapRun(cfg, EMPTY, actions)
    ensures var w := Run(cfg, EMPTY, actions); forall id <- w.uploads :: w.uploads[id].pc == Done(Stored) ==>
      var h := HashOf(cfg, w.uploads[id]);
      h in w.db.rows && (w.db.rows[h].objectKey != [] ==> Download(w.db, h) == Some(w.uploads[id].raw))
  {
    hide Run, NoOverlapRun, HashOf;
    KeptAlways(cfg, EMPTY, actions);
  }
}
