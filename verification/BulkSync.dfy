/** The batch upload: a loop over the files of a request, with a limit on their total size. */
module BulkSync {
  import opened Wrappers
  import opened Bytes
  import opened RunFile
  import opened Uploads
  import opened SyncOutcomes
  import opened SyncService

  /** One uploaded part: its name, whether it opens and reads, its content, and what happens during its sync. */
  datatype Part = Part(name: Text, canOpen: bool, canRead: bool, content: Text, now: int64, script: Script)

  datatype Item = Item(fileName: Text, outcome: Option<SyncResult>)

  datatype Limits = Limits(maxSingleFileBytes: int, maxTotalBytes: int)

  datatype BulkEnd = Completed | TooLarge | BulkCrashed

  /** The state and the results a batch leaves behind. */
  datatype Bulk = Bulk(db: Db, items: seq<Item>, end: BulkEnd)

  /** At most `max` bytes, or all of them if max is not positive. */
  function ReadBounded(p: Part, max: int): Option<Text> {
    if !p.canRead || (max > 0 && |p.content| > max) then None else Some(p.content)
  }

  function Prepend(item: Item, b: Bulk): Bulk {
    b.(items := [item] + b.items)
  }

  /** What one part does to a batch. */
  datatype Turn = Next(db: Db, total: nat, item: Item) | Halt(db: Db, end: BulkEnd)

  function TakePart(cfg: Config, limits: Limits, db: Db, p: Part, total: nat): Turn {
    var raw := ReadBounded(p, limits.maxSingleFileBytes);
    if !p.canOpen || raw.None? then Next(db, total, Item(p.name, None))
    else if total + |raw.value| > limits.maxTotalBytes then Halt(db, TooLarge)
    else
      var s := SyncFile(cfg, db, raw.value, p.now, p.script);
      match s.outcome
      case SyncCrashed => Halt(s.db, BulkCrashed)
      case SyncFailed => Next(s.db, total + |raw.value|, Item(p.name, None))
      case Synced(r) => Next(s.db, total + |raw.value|, Item(r.fileName, Some(r)))
  }

  /** A batch, after `total` bytes of earlier parts. */
  function Batch(cfg: Config, limits: Limits, db: Db, parts: seq<Part>, total: nat): Bulk
    decreases |parts|
  {
    if |parts| == 0 then Bulk(db, [], Completed)
    else
      match TakePart(cfg, limits, db, parts[0], total)
      case Halt(db1, end) => Bulk(db1, [], end)
      case Next(db1, total1, item) => Prepend(item, Batch(cfg, limits, db1, parts[1..], total1))
  }

  /** A batch with the results it already has. */
  function Resumed(items: seq<Item>, b: Bulk): Bulk {
    b.(items := items + b.items)
  }

  lemma BatchTurn(cfg: Config, limits: Limits, db: Db, parts: seq<Part>, i: nat, total: nat, items: seq<Item>)
    requires i < |parts|
    ensures Resumed(items, Batch(cfg, limits, db, parts[i..], total)) ==
            match TakePart(cfg, limits, db, parts[i], total)
            case Halt(db1, end) => Bulk(db1, items, end)
            case Next(db1, total1, item) => Resumed(items + [item], Batch(cfg, limits, db1, parts[i + 1..], total1))
  {
    hide TakePart;
    assert parts[i..][0] == parts[i] && parts[i..][1..] == parts[i + 1..];
    assert items + [] == items;
  }

  lemma BatchOver(cfg: Config, limits: Limits, db: Db, parts: seq<Part>, total: nat, items: seq<Item>)
    ensures Resumed(items, Batch(cfg, limits, db, parts[|parts|..], total)) == Bulk(db, items, Completed)
    ensures Resumed([], Batch(cfg, limits, db, parts[0..], total)) == Batch(cfg, limits, db, parts, total)
  {
    assert parts[0..] == parts && items + [] == items;
    hide TakePart;
  }

  // ---- What a batch is promised to be ----

  /** The part opens, and reads within the single-file bound. */
  predicate Arrives(limits: Limits, p: Part) {
    p.canOpen && p.canRead && (limits.maxSingleFileBytes > 0 ==> |p.content| <= limits.maxSingleFileBytes)
  }

  /** The bytes of the parts that arrive. */
  function AcceptedBytes(limits: Limits, parts: seq<Part>): nat {
    if |parts| == 0 then 0
    else (if Arrives(limits, parts[0]) then |parts[0].content| else 0) + AcceptedBytes(limits, parts[1..])
  }

  /** From `db` to `db'` over one part: it is synced if it arrives and reported as failed if it does not. */
  predicate Syncs(cfg: Config, limits: Limits, p: Part, db: Db, item: Item, db': Db) {
    if !Arrives(limits, p) then db' == db && item == Item(p.name, None)
    else
      var s := SyncFile(cfg, db, p.content, p.now, p.script);
      && db' == s.db && !s.outcome.SyncCrashed?
      && item == if s.outcome.Synced? then Item(s.outcome.result.fileName, Some(s.outcome.result))
                 else Item(p.name, None)
  }

  /** The states a batch passes through, one after each part it has a result for, and why it ends there. */
  predicate Passes(cfg: Config, limits: Limits, parts: seq<Part>, total: nat, states: seq<Db>, items: seq<Item>,
                   end: BulkEnd) {
    var n := |items|;
    && n <= |parts| && |states| == n + 1
    && (forall i | 0 <= i < n :: Syncs(cfg, limits, parts[i], states[i], items[i], states[i + 1]))
    && (forall i | 0 <= i < n && Arrives(limits, parts[i]) ::
          total + AcceptedBytes(limits, parts[..i + 1]) <= limits.maxTotalBytes)
    && (match end
        case Completed => n == |parts|
        case TooLarge =>
          && n < |parts| && Arrives(limits, parts[n])
          && total + AcceptedBytes(limits, parts[..n + 1]) > limits.maxTotalBytes
        case BulkCrashed =>
          && n < |parts| && Arrives(limits, parts[n])
          && total + AcceptedBytes(limits, parts[..n + 1]) <= limits.maxTotalBytes
          && SyncFile(cfg, states[n], parts[n].content, parts[n].now, parts[n].script).outcome.SyncCrashed?)
  }

  /** A batch passes through such states, from the one it starts in to the one it leaves. */
  lemma {:induction false} BatchPasses(cfg: Config, limits: Limits, db: Db, parts: seq<Part>, total: nat)
    returns (states: seq<Db>)
    ensures var b := Batch(cfg, limits, db, parts, total);
      && Passes(cfg, limits, parts, total, states, b.items, b.end) && |states| > 0
      && states[0] == db && states[|states| - 1] == b.db
    decreases |parts|
  {
    hide TakePart, Syncs, Arrives, SyncFile, Passes;
    states := [db];
    if |parts| == 0 {
      EndsHere(cfg, limits, db, parts, total, Completed);
    } else {
      TurnSyncs(cfg, limits, db, parts[0], total);
      var turn := TakePart(cfg, limits, db, parts[0], total);
      if turn.Next? {
        var rest := BatchPasses(cfg, limits, turn.db, parts[1..], turn.total);
        states := [db] + rest;
        PassesOn(cfg, limits, parts, total, db, turn, rest, Batch(cfg, limits, turn.db, parts[1..], turn.total));
      } else {
        EndsHere(cfg, limits, db, parts, total, turn.end);
      }
    }
  }

  /** A batch without a result. */
  lemma EndsHere(cfg: Config, limits: Limits, db: Db, parts: seq<Part>, total: nat, end: BulkEnd)
    requires if |parts| == 0 then end == Completed else HaltsAt(cfg, limits, parts[0], total, db, end)
    ensures Passes(cfg, limits, parts, total, [db], [], end)
  {
    hide Syncs, Arrives, SyncFile;
    if |parts| > 0 {
      assert parts[..1][0] == parts[0] && parts[..1][1..] == [];
      assert AcceptedBytes(limits, parts[..1]) == |parts[0].content|;
    }
  }

  /** The batch ends at this part: it is the first to exceed the total, or it crashes the parser. */
  predicate HaltsAt(cfg: Config, limits: Limits, p: Part, total: nat, db: Db, end: BulkEnd) {
    && Arrives(limits, p)
    && if end == TooLarge then total + |p.content| > limits.maxTotalBytes
       else
         && end == BulkCrashed && total + |p.content| <= limits.maxTotalBytes
         && SyncFile(cfg, db, p.content, p.now, p.script).outcome.SyncCrashed?
  }

  /** What a turn promises. */
  lemma TurnSyncs(cfg: Config, limits: Limits, db: Db, p: Part, total: nat)
    ensures var turn := TakePart(cfg, limits, db, p, total);
      var bytes := if Arrives(limits, p) then |p.content| else 0;
      match turn
      case Next(db1, total1, item) =>
        && Syncs(cfg, limits, p, db, item, db1) && total1 == total + bytes
        && (Arrives(limits, p) ==> total1 <= limits.maxTotalBytes)
      case Halt(db1, end) =>
        db1 == db && HaltsAt(cfg, limits, p, total, db, end)
  {
    hide SyncFile, ParseFile;
    BadFilesLeaveNoTrace(cfg, db, p.content, p.now, p.script);
  }

  /** One part in front of the rest. */
  lemma PassesOn(cfg: Config, limits: Limits, parts: seq<Part>, total: nat, db: Db, turn: Turn, rest: seq<Db>, b: Bulk)
    requires |parts| > 0 && turn.Next? && Syncs(cfg, limits, parts[0], db, turn.item, turn.db)
    requires turn.total == total + if Arrives(limits, parts[0]) then |parts[0].content| else 0
    requires Arrives(limits, parts[0]) ==> turn.total <= limits.maxTotalBytes
    requires Passes(cfg, limits, parts[1..], turn.total, rest, b.items, b.end) && rest[0] == turn.db
    ensures Passes(cfg, limits, parts, total, [db] + rest, [turn.item] + b.items, b.end)
  {
    hide Syncs, Arrives, SyncFile;
    var states, items := [db] + rest, [turn.item] + b.items;
    forall i | 0 <= i < |parts|
      ensures total + AcceptedBytes(limits, parts[..i + 1]) == turn.total + AcceptedBytes(limits, parts[1..][..i])
    {
      assert parts[..i + 1][0] == parts[0] && parts[..i + 1][1..] == parts[1..][..i];
    }
    forall i | 0 <= i < |items| ensures Syncs(cfg, limits, parts[i], states[i], items[i], states[i + 1]) {
      if i > 0 {
        assert Syncs(cfg, limits, parts[1..][i - 1], rest[i - 1], b.items[i - 1], rest[i]);
      }
    }
    forall i | 0 <= i < |items| && Arrives(limits, parts[i])
      ensures total + AcceptedBytes(limits, parts[..i + 1]) <= limits.maxTotalBytes
    {
      if i > 0 {
        assert Arrives(limits, parts[1..][i - 1]);
      } else {
        assert parts[1..][..0] == [];
      }
    }
  }

  method HandleBulkSync(service: Service, limits: Limits, parts: seq<Part>) returns (items: seq<Item>, end: BulkEnd)
    modifies service
    ensures var b := Batch(service.cfg, limits, old(service.State()), parts, 0);
      service.State() == b.db && end == b.end && items == b.items
    ensures exists states :: Passes(service.cfg, limits, parts, 0, states, items, end)
                             && states[0] == old(service.State()) && states[|states| - 1] == service.State()
  {
    hide SyncFile, ReadBounded, Batch, Resumed, Passes;
    ghost var all := Batch(service.cfg, limits, service.State(), parts, 0);
    ghost var states := BatchPasses(service.cfg, limits, service.State(), parts, 0);
    items := [];
    var totalBytes: nat := 0;
    var i := 0;
    BatchOver(service.cfg, limits, service.State(), parts, 0, []);
    while i < |parts|
      invariant i <= |parts|
      invariant all == Resumed(items, Batch(service.cfg, limits, service.State(), parts[i..], totalBytes))
    {
      BatchTurn(service.cfg, limits, service.State(), parts, i, totalBytes, items);
      var p := parts[i];
      i := i + 1;
      if !p.canOpen {
        items := items + [Item(p.name, None)];
        continue;
      }
      var raw := ReadBounded(p, limits.maxSingleFileBytes);
      if raw.None? {
        items := items + [Item(p.name, None)];
        continue;
      }
      totalBytes := totalBytes + |raw.value|;
      if totalBytes > limits.maxTotalBytes {
        return items, TooLarge;
      }
      var outcome := service.SyncOne(raw.value, p.now, p.script);
      match outcome
      case SyncCrashed =>
        return items, BulkCrashed;
      case SyncFailed =>
        items := items + [Item(p.name, None)];
      case Synced(r) =>
        items := items + [Item(r.fileName, Some(r))];
    }
    BatchOver(service.cfg, limits, service.State(), parts, totalBytes, items);
    end := Completed;
  }

  // ---- What a batch does ----

  predicate IsStored(item: Item) {
    item.outcome.Some? && item.outcome.value.stored
  }

  function CountStored(items: seq<Item>): nat {
    if |items| == 0 then 0 else (if IsStored(items[0]) then 1 else 0) + CountStored(items[1..])
  }

  /** A result is about its part: a part that failed is reported under the name it was sent with. */
  predicate Describes(cfg: Config, item: Item, p: Part) {
    match item.outcome
    case None => item.fileName == p.name
    case Some(r) => r.hash == cfg.sha(p.content) && r.sizeBytes == |p.content| && item.fileName == r.fileName
  }

  /** One result per part, in order, each for the content of its part; a batch that ends early has fewer. */
  lemma {:induction false} BatchInOrder(cfg: Config, limits: Limits, db: Db, parts: seq<Part>, total: nat)
    ensures var b := Batch(cfg, limits, db, parts, total);
      && |b.items| <= |parts| && (b.end == Completed <==> |b.items| == |parts|)
      && forall i | 0 <= i < |b.items| :: Describes(cfg, b.items[i], parts[i])
    decreases |parts|
  {
    if |parts| > 0 {
      TurnDescribes(cfg, limits, db, parts[0], total);
      var turn := TakePart(cfg, limits, db, parts[0], total);
      hide TakePart, Describes;
      if turn.Next? {
        BatchInOrder(cfg, limits, turn.db, parts[1..], turn.total);
      }
    }
  }

  lemma TurnDescribes(cfg: Config, limits: Limits, db: Db, p: Part, total: nat)
    ensures var turn := TakePart(cfg, limits, db, p, total);
      if turn.Next? then Describes(cfg, turn.item, p) else turn.end != Completed
  {
    ResultDescribesFile(cfg, db, p.content, p.now, p.script);
    hide SyncFile;
  }

  lemma ResultDescribesFile(cfg: Config, db: Db, raw: Text, now: int64, script: Script)
    ensures var o := SyncFile(cfg, db, raw, now, script).outcome;
      o.Synced? ==> o.result.hash == cfg.sha(raw) && o.result.sizeBytes == |raw|
  {
    hide ParseFile, Play, EnsureExtension;
  }

  function StoredIn(item: Item): set<Hash> {
    if IsStored(item) then {item.outcome.value.hash} else {}
  }

  /** The hashes a batch reports as stored. */
  function StoredHashes(items: seq<Item>): set<Hash> {
    if |items| == 0 then {} else StoredIn(items[0]) + StoredHashes(items[1..])
  }

  /** The hashes other clients commit while the parts are synced. */
  function Rivals(parts: seq<Part>): set<Hash> {
    if |parts| == 0 then {} else parts[0].script.rivals.Keys + Rivals(parts[1..])
  }

  lemma SyncRows(cfg: Config, db: Db, raw: Text, now: int64, script: Script)
    ensures var s := SyncFile(cfg, db, raw, now, script);
      var stored := if s.outcome.Synced? && s.outcome.result.stored then {s.outcome.result.hash} else {};
      Grows(db.rows.Keys, s.db.rows.Keys, stored, script.rivals.Keys)
  {
    hide ParseFile, Play, EnsureExtension;
    if raw != [] && ParseFile(cfg.codec, raw).Ok? {
      var u := Upload(raw, ParseFile(cfg.codec, raw).value, now, Checking);
      PlayEnds(cfg, db, u, script);
      PlayRows(cfg, db, u, script);
    }
  }

  lemma TurnRows(cfg: Config, limits: Limits, db: Db, p: Part, total: nat)
    ensures var turn := TakePart(cfg, limits, db, p, total);
      Grows(db.rows.Keys, turn.db.rows.Keys, if turn.Next? then StoredIn(turn.item) else {}, p.script.rivals.Keys)
  {
    SyncRows(cfg, db, p.content, p.now, p.script);
    hide SyncFile;
  }

  lemma GrowsOn(a: set<Hash>, b: set<Hash>, c: set<Hash>, s: set<Hash>, t: set<Hash>, r: set<Hash>, q: set<Hash>)
    requires Grows(a, b, s, r) && Grows(b, c, t, q)
    ensures Grows(a, c, s + t, r + q) && s !! t
  {}

  /**
   * The rows after a batch are the rows before it, the hashes reported as stored, each new and reported once, and
   * otherwise only rows that other clients committed meanwhile.
   */
  lemma {:induction false} BatchRows(cfg: Config, limits: Limits, db: Db, parts: seq<Part>, total: nat)
    ensures var b := Batch(cfg, limits, db, parts, total);
      && Grows(db.rows.Keys, b.db.rows.Keys, StoredHashes(b.items), Rivals(parts))
      && |StoredHashes(b.items)| == CountStored(b.items)
    decreases |parts|
  {
    hide TakePart, IsStored, StoredIn, CountStored, StoredHashes, Grows;
    if |parts| == 0 {
      NothingGrows(db.rows.Keys);
    } else {
      TurnRows(cfg, limits, db, parts[0], total);
      var turn := TakePart(cfg, limits, db, parts[0], total);
      var rivals := parts[0].script.rivals.Keys;
      if turn.Next? {
        BatchRows(cfg, limits, turn.db, parts[1..], turn.total);
        var b := Batch(cfg, limits, turn.db, parts[1..], turn.total);
        GrowsOn(db.rows.Keys, turn.db.rows.Keys, b.db.rows.Keys, StoredIn(turn.item), StoredHashes(b.items), rivals,
                Rivals(parts[1..]));
        PrependStored(turn.item, b.items);
      } else {
        NothingGrows(db.rows.Keys);
        GrowsMore(db.rows.Keys, turn.db.rows.Keys, rivals, Rivals(parts));
      }
    }
  }

  lemma NothingGrows(rows: set<Hash>)
    ensures Grows(rows, rows, {}, {}) && StoredHashes([]) == {} && CountStored([]) == 0
  {}

  lemma GrowsMore(a: set<Hash>, b: set<Hash>, r: set<Hash>, q: set<Hash>)
    requires Grows(a, b, {}, r) && r <= q
    ensures Grows(a, b, {}, q)
  {}

  lemma PrependStored(item: Item, items: seq<Item>)
    requires StoredIn(item) !! StoredHashes(items)
    ensures StoredHashes([item] + items) == StoredIn(item) + StoredHashes(items)
    ensures CountStored([item] + items) == |StoredIn(item)| + CountStored(items)
    ensures |StoredIn(item) + StoredHashes(items)| == |StoredIn(item)| + |StoredHashes(items)|
  {
    assert ([item] + items)[1..] == items;
    Union(StoredIn(item), StoredHashes(items));
  }

  /** The count of stored results is the growth in rows, up to the rows that other clients committed meanwhile. */
  lemma StoredCountIsGrowth(cfg: Config, limits: Limits, db: Db, parts: seq<Part>)
    ensures var b := Batch(cfg, limits, db, parts, 0);
      var others := b.db.rows.Keys - db.rows.Keys - StoredHashes(b.items);
      && |b.db.rows| == |db.rows| + CountStored(b.items) + |others| && others <= Rivals(parts)
      && (Rivals(parts) == {} ==> |b.db.rows| == |db.rows| + CountStored(b.items))
  {
    hide Batch, CountStored, StoredHashes, Rivals;
    BatchRows(cfg, limits, db, parts, 0);
    var b := Batch(cfg, limits, db, parts, 0);
    CountGrowth(db.rows.Keys, b.db.rows.Keys, StoredHashes(b.items), Rivals(parts));
    assert |b.db.rows.Keys| == |b.db.rows| && |db.rows.Keys| == |db.rows|;
  }

  lemma CountGrowth(before: set<Hash>, after: set<Hash>, stored: set<Hash>, rivals: set<Hash>)
    requires Grows(before, after, stored, rivals)
    ensures var others := after - before - stored; |after| == |before| + |stored| + |others| && others <= rivals
    ensures rivals == {} ==> |after| == |before| + |stored|
  {
    var others := after - before - stored;
    Union(before, stored);
    Union(before + stored, others);
    assert after == before + stored + others;
    if rivals == {} {
      assert others == {};
    }
  }

  lemma Union(a: set<Hash>, b: set<Hash>)
    requires a !! b
    ensures |a + b| == |a| + |b|
  {}

  /**
   * A batch that exceeds the total leaves the state of syncing only the parts before the one that went over, and
   * those parts are within the limit.
   */
  lemma {:induction false} TooLargeSyncsAPrefix(cfg: Config, limits: Limits, db: Db, parts: seq<Part>, total: nat)
    returns (k: nat)
    requires Batch(cfg, limits, db, parts, total).end == TooLarge
    requires total <= limits.maxTotalBytes || total == 0
    ensures k < |parts| && Batch(cfg, limits, db, parts[..k], total) ==
        Batch(cfg, limits, db, parts, total).(end := Completed)
    ensures total + AcceptedBytes(limits, parts[..k]) <= limits.maxTotalBytes
        || total + AcceptedBytes(limits, parts[..k]) == 0
    ensures total + AcceptedBytes(limits, parts[..k + 1]) > limits.maxTotalBytes
    decreases |parts|
  {
    TurnBytes(cfg, limits, db, parts[0], total);
    var turn := TakePart(cfg, limits, db, parts[0], total);
    hide TakePart, Arrives;
    if turn.Halt? {
      k := 0;
      assert parts[..1][1..] == [];
    } else {
      var j := TooLargeSyncsAPrefix(cfg, limits, turn.db, parts[1..], turn.total);
      k := j + 1;
      assert parts[..k][1..] == parts[1..][..j] && parts[..k + 1][1..] == parts[1..][..j + 1];
    }
  }

  lemma TurnBytes(cfg: Config, limits: Limits, db: Db, p: Part, total: nat)
    ensures var turn := TakePart(cfg, limits, db, p, total);
      var bytes := if Arrives(limits, p) then |p.content| else 0;
      && (turn == Halt(turn.db, TooLarge) ==> turn.db == db && total + bytes > limits.maxTotalBytes)
      && (turn.Next? ==>
            turn.total == total + bytes && (turn.total <= limits.maxTotalBytes || turn.total == total))
  {
    hide SyncFile;
  }
}
