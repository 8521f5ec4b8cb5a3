/** Building the benchmark hierarchy in place, with pointers into slices that are still being filled. */
module BenchmarkBuilder {
  import opened Wrappers
  import opened Bytes
  import opened Grouping
  import opened GoMemory
  import opened Attaching
  import opened BenchmarkTree
  import opened BenchmarkLinks
  import opened BenchmarkRows

  type BenchCell = Cell<BenchInfo>

  // ---- Ranks ----

  function AddRanks(c: DiffCell, ranks: seq<Rank>): DiffCell {
    c.(body := c.body.(ranks := c.body.ranks + ranks))
  }

  function WithRanks(cells: seq<DiffCell>, ids: seq<int>, rows: seq<Item<Rank>>): (r: seq<DiffCell>)
    ensures |r| == |cells|
  {
    seq(|cells|, j requires 0 <= j < |cells| => AddRanks(cells[j], RankList(ItemsOf(ids, rows, j))))
  }

  lemma RankListSnoc(rs: seq<Rank>, r: Rank)
    ensures RankList(rs + [r]) == RankList(rs) + if CleanRank(r).Some? then [CleanRank(r).value] else []
  {
    hide CleanRank;
    assert (rs + [r])[..|rs|] == rs;
  }

  lemma AddRanksTwice(c: DiffCell, a: seq<Rank>, b: seq<Rank>)
    ensures AddRanks(AddRanks(c, a), b) == AddRanks(c, a + b)
  {
    assert c.body.ranks + a + b == c.body.ranks + (a + b);
  }

  lemma RankStep(cells: seq<DiffCell>, ids: seq<int>, rows: seq<Item<Rank>>, row: Item<Rank>)
    requires |cells| == |ids|
    ensures var o := LastIndex(ids, row.parentID); var before := WithRanks(cells, ids, rows);
      WithRanks(cells, ids, rows + [row]) ==
      if o.None? || CleanRank(row.info).None? then before
          else before[o.value := AddRanks(before[o.value], [CleanRank(row.info).value])]
  {
    var o, before, after := LastIndex(ids, row.parentID), WithRanks(cells, ids, rows),
        WithRanks(cells, ids, rows + [row]);
    hide CleanRank, LastIndex, ItemsOf, RankList, AddRanks;
    forall j | 0 <= j < |cells|
      ensures after[j] == if o == Some(j) && CleanRank(row.info).Some?
          then AddRanks(before[j], [CleanRank(row.info).value]) else before[j]
    {
      ItemsSnoc(ids, rows, row, j);
      var items := ItemsOf(ids, rows, j);
      assert items + [] == items;
      RankListSnoc(items, row.info);
      assert RankList(items) + [] == RankList(items);
      if CleanRank(row.info).Some? {
        AddRanksTwice(cells[j], RankList(items), [CleanRank(row.info).value]);
      }
    }
  }

  lemma NoRanks(cells: seq<DiffCell>, ids: seq<int>)
    ensures WithRanks(cells, ids, []) == cells
  {
    assert forall j | 0 <= j < |cells| :: cells[j].body.ranks + [] == cells[j].body.ranks;
    assert forall j | 0 <= j < |cells| :: WithRanks(cells, ids, [])[j] == cells[j];
  }

  method AttachRanks(mem0: Memory<DiffCell>, byID: map<int, Ptr>, rows: seq<Item<Rank>>, ghost ids: seq<int>,
                     ghost ptrs: seq<Ptr>)
    returns (mem: Memory<DiffCell>)
    requires Index(byID, ids, ptrs) && AllValid(mem0, ptrs) && Injective(ptrs)
    ensures AllValid(mem, ptrs) && View(mem, ptrs) == WithRanks(View(mem0, ptrs), ids, rows)
  {
    mem := mem0;
    assert rows[..0] == [];
    NoRanks(View(mem0, ptrs), ids);
    hide CleanRank, LastIndex, WithRanks, Injective, AddRanks;
    for i := 0 to |rows|
      invariant AllValid(mem, ptrs) && View(mem, ptrs) == WithRanks(View(mem0, ptrs), ids, rows[..i])
    {
      var row := rows[i];
      assert rows[..i + 1] == rows[..i] + [row];
      RankStep(View(mem0, ptrs), ids, rows[..i], row);
      if row.parentID !in byID {
        continue;
      }
      var rank := CleanRank(row.info);
      if rank.None? {
        continue;
      }
      ghost var d := LastIndex(ids, row.parentID).value;
      assert byID[row.parentID] == ptrs[d];
      var cell := Load(mem, byID[row.parentID]);
      StoreView(mem, ptrs, d, AddRanks(cell, [rank.value]));
      mem := Store(mem, byID[row.parentID], AddRanks(cell, [rank.value]));
    }
    assert rows[..|rows|] == rows;
  }

  // ---- Subcategories ----

  function AddSubs(c: Category, subs: seq<Subcategory>): Category {
    c.(subcategories := c.subcategories + subs)
  }

  function WithSubs(cats: seq<Category>, ids: seq<int>, rows: seq<Item<SubInfo>>): (r: seq<Category>)
    ensures |r| == |cats|
  {
    seq(|cats|, k requires 0 <= k < |cats| => AddSubs(cats[k], Map(BareSubcategory, ItemsOf(ids, rows, k))))
  }

  lemma SubStep(cats: seq<Category>, ids: seq<int>, rows: seq<Item<SubInfo>>, row: Item<SubInfo>)
    requires |cats| == |ids|
    ensures var o := LastIndex(ids, row.parentID); var before := WithSubs(cats, ids, rows);
      WithSubs(cats, ids, rows + [row]) == if o.None? then before
          else before[o.value := AddSubs(before[o.value], [BareSubcategory(row.info)])]
  {
    var o, before, after := LastIndex(ids, row.parentID), WithSubs(cats, ids, rows), WithSubs(cats, ids, rows + [row]);
    hide LastIndex, ItemsOf;
    forall k | 0 <= k < |cats|
      ensures after[k] == if o == Some(k) then AddSubs(before[k], [BareSubcategory(row.info)]) else before[k] {
      ItemsSnoc(ids, rows, row, k);
      var items := ItemsOf(ids, rows, k);
      if o == Some(k) {
        assert Map(BareSubcategory, items + [row.info]) == Map(BareSubcategory, items) + [BareSubcategory(row.info)];
        assert cats[k].subcategories + Map(BareSubcategory, items) + [BareSubcategory(row.info)]
            == cats[k].subcategories + (Map(BareSubcategory, items) + [BareSubcategory(row.info)]);
      } else {
        assert items + [] == items;
      }
    }
  }

  lemma NoSubcategories(cats: seq<Category>, ids: seq<int>)
    ensures WithSubs(cats, ids, []) == cats
  {
    assert forall k | 0 <= k < |cats| :: cats[k].subcategories + [] == cats[k].subcategories;
    assert forall k | 0 <= k < |cats| :: WithSubs(cats, ids, [])[k] == cats[k];
  }

  method AttachSubcategories(mem0: Memory<Category>, byID: map<int, Ptr>, rows: seq<Item<SubInfo>>, ghost ids: seq<int>,
                             ghost ptrs: seq<Ptr>)
    returns (mem: Memory<Category>)
    requires Index(byID, ids, ptrs) && AllValid(mem0, ptrs) && Injective(ptrs)
    ensures AllValid(mem, ptrs) && View(mem, ptrs) == WithSubs(View(mem0, ptrs), ids, rows)
    ensures SameShape(mem, mem0)
  {
    mem := mem0;
    assert rows[..0] == [];
    NoSubcategories(View(mem0, ptrs), ids);
    assert SameShape(mem, mem0);
    hide LastIndex, WithSubs, Injective, AddSubs, SameShape;
    for i := 0 to |rows|
      invariant AllValid(mem, ptrs) && View(mem, ptrs) == WithSubs(View(mem0, ptrs), ids, rows[..i])
      invariant SameShape(mem, mem0)
    {
      var row := rows[i];
      assert rows[..i + 1] == rows[..i] + [row];
      SubStep(View(mem0, ptrs), ids, rows[..i], row);
      if row.parentID !in byID {
        continue;
      }
      ghost var k := LastIndex(ids, row.parentID).value;
      assert byID[row.parentID] == ptrs[k];
      var category := Load(mem, byID[row.parentID]);
      StoreView(mem, ptrs, k, AddSubs(category, [BareSubcategory(row.info)]));
      StoreShape(mem, ptrs[k], AddSubs(category, [BareSubcategory(row.info)]), mem0);
      mem := Store(mem, byID[row.parentID], AddSubs(category, [BareSubcategory(row.info)]));
    }
    assert rows[..|rows|] == rows;
  }

  // ---- Reading the tree back ----

  function Read<T>(m: Memory<T>, s: Slice): seq<T> {
    if ValidSlice(m, s) then Contents(m, s) else []
  }

  function ReadDifficulty(cats: Memory<Category>): DiffCell -> Difficulty {
    (c: DiffCell) => Node(c.body, Read(cats, c.kids))
  }

  function ReadBenchmark(diffs: Memory<DiffCell>, cats: Memory<Category>): BenchCell -> Benchmark {
    (c: BenchCell) => Node(c.body, Map(ReadDifficulty(cats), Read(diffs, c.kids)))
  }

  lemma ReadIsGroup<B, T>(m: Memory<T>, cells: seq<Cell<B>>, owners: seq<nat>, ptrs: seq<Ptr>, p: nat)
    requires Linked(cells, owners, ptrs) && AllValid(m, ptrs) && p < |cells|
    ensures Read(m, cells[p].kids) == Group(owners, View(m, ptrs), p)
  {
    GroupView(m, owners, ptrs, p);
    var s := cells[p].kids;
    assert View(m, Pointers(s)) == Group(owners, View(m, ptrs), p);
    if s.len > 0 {
      assert Valid(m, Pointers(s)[s.len - 1]);
    }
    assert Read(m, s) == View(m, Pointers(s));
  }

  /** Reading every difficulty gives the forest. */
  lemma ReadForest(diffs: Memory<DiffCell>, cats: Memory<Category>, dPtrs: seq<Ptr>, cPtrs: seq<Ptr>, owners: seq<nat>)
    requires Forest(diffs, cats, dPtrs, cPtrs, owners)
    ensures Map(ReadDifficulty(cats), View(diffs, dPtrs)) == ForestTrees(diffs, cats, dPtrs, cPtrs, owners)
  {
    var cells := View(diffs, dPtrs);
    hide Linked, Group, Read;
    forall j | 0 <= j < |cells| ensures Read(cats, cells[j].kids) == Group(owners, View(cats, cPtrs), j) {
      ReadIsGroup(cats, cells, owners, cPtrs, j);
    }
  }

  lemma ReadBenchmarks(t: Tables, benches: seq<BenchCell>, diffs: Memory<DiffCell>, cats: Memory<Category>,
                       dPtrs: seq<Ptr>, cPtrs: seq<Ptr>, owners: seq<nat>)
    requires |benches| == |t.benchmarks| && forall i | 0 <= i < |benches| :: benches[i].body == t.benchmarks[i].info
    requires Forest(diffs, cats, dPtrs, cPtrs, owners) && |dPtrs| == |DiffRows(t)|
    requires Linked(benches, Owners(BenchIds(t), t.difficulties), dPtrs)
    ensures Map(ReadBenchmark(diffs, cats), benches) == Benchmarks(t, ForestTrees(diffs, cats, dPtrs, cPtrs, owners))
  {
    var bOwners := Owners(BenchIds(t), t.difficulties);
    var cells := View(diffs, dPtrs);
    ReadForest(diffs, cats, dPtrs, cPtrs, owners);
    hide Linked, Group, Read, ReadDifficulty, ForestTrees, DiffRows, BenchIds;
    forall i | 0 <= i < |benches|
      ensures Map(ReadDifficulty(cats), Read(diffs, benches[i].kids)) ==
          Group(bOwners, ForestTrees(diffs, cats, dPtrs, cPtrs, owners), i) {
      ReadIsGroup(diffs, benches, bOwners, dPtrs, i);
      GroupMap(bOwners, cells, ReadDifficulty(cats), i);
    }
  }

  // ---- The whole list ----

  function NewDifficulty(info: DiffInfo): DiffCell {
    Cell(DiffBody(info, [], []), EMPTY)
  }

  function NewCategory(info: CatInfo): Category {
    Category(info, [], [])
  }

  const ZERO_DIFFICULTY := NewDifficulty(DiffInfo([], 0, []))
  const ZERO_CATEGORY := NewCategory(CatInfo([], []))

  /** The benchmark rows as cells of one backing array, and the map that points into it. */
  method ListBenchmarkRows(rows: seq<Keyed<BenchInfo>>) returns (items: seq<BenchCell>, byID: map<int, Ptr>)
    ensures items == Map((b: Keyed<BenchInfo>) => Cell(b.info, EMPTY), rows)
    ensures Index(byID, Map((b: Keyed<BenchInfo>) => b.id, rows), Pointers(Slice(1, |rows|)))
  {
    items, byID := [], map[];
    ghost var ids, ptrs := Map((b: Keyed<BenchInfo>) => b.id, rows), Pointers(Slice(1, |rows|));
    for i := 0 to |rows|
      invariant items == Map((b: Keyed<BenchInfo>) => Cell(b.info, EMPTY), rows[..i])
    {
      items := items + [Cell(rows[i].info, EMPTY)];
    }
    assert ids[..0] == [] && ptrs[..0] == [] && rows[..|rows|] == rows;
    for i := 0 to |rows|
      invariant Index(byID, ids[..i], ptrs[..i])
    {
      IndexSnoc(byID, ids[..i], ptrs[..i], rows[i].id, Ptr(1, i));
      assert ids[..i + 1] == ids[..i] + [rows[i].id] && ptrs[..i + 1] == ptrs[..i] + [Ptr(1, i)];
      byID := byID[rows[i].id := Ptr(1, i)];
    }
    assert ids[..|rows|] == ids && ptrs[..|rows|] == ptrs;
  }

  /** The forest once ranks, categories and subcategories are attached. */
  lemma ForestIsBare(t: Tables, diffs: Memory<DiffCell>, cats: Memory<Category>, dPtrs: seq<Ptr>, cPtrs: seq<Ptr>)
    requires Forest(diffs, cats, dPtrs, cPtrs, Owners(DiffIds(t), t.categories))
    requires var blank := Map((r: Row<DiffInfo>) => NewDifficulty(r.info), DiffRows(t));
      SameBodies(View(diffs, dPtrs), WithRanks(blank, DiffIds(t), t.ranks))
    requires var blank := Map((r: Row<CatInfo>) => NewCategory(r.info), CatRows(t));
      View(cats, cPtrs) == WithSubs(blank, CatIds(t), t.subcategories)
    ensures ForestTrees(diffs, cats, dPtrs, cPtrs, Owners(DiffIds(t), t.categories)) == BareDifficulties(t)
  {
    var D, K := View(diffs, dPtrs), View(cats, cPtrs);
    hide Forest, Owners, ItemsOf, RankList, Group, DiffIds, CatIds, DiffRows, CatRows;
    forall k | 0 <= k < |K| ensures K[k] == CategoryOf(t, k) {
      var subs := Map(BareSubcategory, ItemsOf(CatIds(t), t.subcategories, k));
      assert [] + subs == subs;
    }
    assert K == Categories(t);
    forall j | 0 <= j < |D| ensures D[j].body == BareDifficulty(t, j).body {
      var ranks := RankList(ItemsOf(DiffIds(t), t.ranks, j));
      assert [] + ranks == ranks;
    }
  }

  lemma FreshKids(t: Tables, cells: seq<DiffCell>)
    requires cells == Map((r: Row<DiffInfo>) => NewDifficulty(r.info), DiffRows(t))
    ensures forall c <- WithRanks(cells, DiffIds(t), t.ranks) :: c.kids == EMPTY
  {}

  /** What attaching the categories gives. */
  lemma CategoriesAttached(t: Tables, diffs: Memory<DiffCell>, cats: Memory<Category>, out: map<int, Ptr>,
                           dPtrs: seq<Ptr>, cPtrs: seq<Ptr>)
    requires AllValid(diffs, dPtrs) && Injective(dPtrs)
    requires Attached(View(diffs, dPtrs), cats, DiffIds(t), t.categories, out, cPtrs, NewCategory)
    ensures AllValid(cats, cPtrs) && Injective(cPtrs) && Index(out, CatIds(t), cPtrs)
    ensures Linked(View(diffs, dPtrs), Owners(DiffIds(t), t.categories), cPtrs)
    ensures View(cats, cPtrs) == Map((r: Row<CatInfo>) => NewCategory(r.info), CatRows(t))
  {
    hide Linked, Index, Injective, AllValid, Owners, Live, DiffIds;
    assert View(cats, cPtrs) == Map((r: Row<CatInfo>) => NewCategory(r.info), CatRows(t));
  }

  /** What attaching the difficulties gives. */
  lemma DifficultiesAttached(t: Tables, benches: seq<BenchCell>, diffs: Memory<DiffCell>, out: map<int, Ptr>,
                             dPtrs: seq<Ptr>)
    requires Attached(benches, diffs, BenchIds(t), t.difficulties, out, dPtrs, NewDifficulty)
    ensures AllValid(diffs, dPtrs) && Injective(dPtrs) && Index(out, DiffIds(t), dPtrs)
    ensures Linked(benches, Owners(BenchIds(t), t.difficulties), dPtrs)
    ensures View(diffs, dPtrs) == Map((r: Row<DiffInfo>) => NewDifficulty(r.info), DiffRows(t))
  {
    hide Linked, Index, Injective, AllValid, Owners, Live, BenchIds;
    assert View(diffs, dPtrs) == Map((r: Row<DiffInfo>) => NewDifficulty(r.info), DiffRows(t));
  }

  lemma IndexHas(out: map<int, Ptr>, ids: seq<int>, ptrs: seq<Ptr>, id: int)
    requires Index(out, ids, ptrs) && id in ids
    ensures id in out
  {}

  lemma NoIds(ids: seq<int>, out: map<int, Ptr>, ptrs: seq<Ptr>)
    requires Index(out, ids, ptrs)
    ensures |out| == 0 <==> ids == []
    ensures ids == [] ==> ptrs == []
  {
    if |ids| > 0 {
      IndexHas(out, ids, ptrs, ids[0]);
    } else {
      var none: set<int> := {};
      assert (forall id :: id !in out.Keys) ==> out.Keys == none;
    }
  }

  lemma NoCategories(t: Tables, cats: Memory<Category>, out: map<int, Ptr>, cPtrs: seq<Ptr>)
    requires Index(out, CatIds(t), cPtrs) && |out| == 0 && AllValid(cats, cPtrs)
    ensures View(cats, cPtrs) == WithSubs(View(cats, cPtrs), CatIds(t), t.subcategories)
  {
    NoIds(CatIds(t), out, cPtrs);
  }

  /** The items as a slice of their own backing array. */
  lemma ItemsInMemory(t: Tables, items: seq<BenchCell>)
    requires items == Map((b: Keyed<BenchInfo>) => Cell(b.info, EMPTY), t.benchmarks)
    ensures var m, ptrs := [[], items], Pointers(Slice(1, |items|));
      && AllValid(m, ptrs) && Injective(ptrs) && View(m, ptrs) == items
      && forall c <- View(m, ptrs) :: c.kids == EMPTY
  {
    ContentsIsView([[], items], Slice(1, |items|));
  }

  /** The items keep their places and their own fields while difficulties are attached to them. */
  lemma ItemsStay(t: Tables, items: seq<BenchCell>, benches: Memory<BenchCell>)
    requires items == Map((b: Keyed<BenchInfo>) => Cell(b.info, EMPTY), t.benchmarks) && |items| > 0
    requires var ptrs := Pointers(Slice(1, |items|)); AllValid(benches, ptrs) && SameBodies(View(benches, ptrs), items)
    ensures var s := Slice(1, |items|); var cells := View(benches, Pointers(s));
      && ValidSlice(benches, s) && Contents(benches, s) == cells
      && |cells| == |t.benchmarks| && forall i | 0 <= i < |cells| :: cells[i].body == t.benchmarks[i].info
  {
    var s := Slice(1, |items|);
    assert Valid(benches, Pointers(s)[|items| - 1]);
    ContentsIsView(benches, s);
  }

  lemma {:induction false} NoOwners<I>(rows: seq<Row<I>>)
    ensures Owners([], rows) == [] && Live([], rows) == []
  {
    if |rows| > 0 {
      NoOwners(rows[..|rows| - 1]);
    }
  }

  lemma NoBenchmarks(lower: Text -> Text, t: Tables, view: ListView)
    requires |t.benchmarks| == 0
    ensures Hierarchy(lower, t, view) == Some([])
  {
    NoOwners(t.difficulties);
    assert BenchIds(t) == [] && DiffIds(t) == [];
  }

  /** Without difficulties there is nothing to group, and no link to decode. */
  lemma NoDifficulties(lower: Text -> Text, t: Tables, view: ListView, diffs: Memory<DiffCell>)
    requires DiffIds(t) == []
    ensures var cats: Memory<Category> := [[]];
      && Forest(diffs, cats, [], [], Owners(DiffIds(t), t.categories))
      && Hierarchy(lower, t, view) ==
          Some(Benchmarks(t, ForestTrees(diffs, cats, [], [], Owners(DiffIds(t), t.categories))))
  {
    NoOwners(t.categories);
    var cats: Memory<Category> := [[]];
    assert |DiffRows(t)| == |DiffIds(t)|;
    var trees := ForestTrees(diffs, cats, [], [], Owners(DiffIds(t), t.categories));
    assert trees == BareDifficulties(t) == WithLinks(lower, BareDifficulties(t), DiffIds(t), t.links);
    assert LinksDecode(DiffIds(t), t.links);
  }

  /** The state after categories and subcategories: a forest that is the bare grouping. */
  ghost predicate Grown(t: Tables, diffs: Memory<DiffCell>, cats: Memory<Category>, dPtrs: seq<Ptr>, cPtrs: seq<Ptr>) {
    && Forest(diffs, cats, dPtrs, cPtrs, Owners(DiffIds(t), t.categories))
    && ForestTrees(diffs, cats, dPtrs, cPtrs, Owners(DiffIds(t), t.categories)) == BareDifficulties(t)
    && forall c <- View(diffs, dPtrs) :: ValidSlice(cats, c.kids)
  }

  /** Attaches ranks, categories and subcategories to fresh difficulties. */
  method Grow(t: Tables, diffs0: Memory<DiffCell>, diffByID: map<int, Ptr>, ghost dPtrs: seq<Ptr>)
    returns (diffs: Memory<DiffCell>, cats: Memory<Category>, ghost cPtrs: seq<Ptr>)
    requires AllValid(diffs0, dPtrs) && Injective(dPtrs) && Index(diffByID, DiffIds(t), dPtrs)
    requires View(diffs0, dPtrs) == Map((r: Row<DiffInfo>) => NewDifficulty(r.info), DiffRows(t))
    ensures Grown(t, diffs, cats, dPtrs, cPtrs)
    ensures AllValid(diffs, dPtrs) && Map(ReadDifficulty(cats), View(diffs, dPtrs)) == BareDifficulties(t)
  {
    hide DiffIds, CatIds, DiffRows, CatRows, Owners, Live, CleanRank, Index, Injective, AllValid, Linked, WithRanks,
        WithSubs, SameBodies, NewCategory, NewDifficulty;
    diffs := AttachRanks(diffs0, diffByID, t.ranks, DiffIds(t), dPtrs);
    FreshKids(t, View(diffs0, dPtrs));
    var catByID;
    diffs, cats, catByID, cPtrs := Attach(diffs, diffByID, t.categories, NewCategory, ZERO_CATEGORY, DiffIds(t), dPtrs);
    CategoriesAttached(t, diffs, cats, catByID, dPtrs, cPtrs);
    if |catByID| > 0 {
      cats := AttachSubcategories(cats, catByID, t.subcategories, CatIds(t), cPtrs);
    } else {
      NoCategories(t, cats, catByID, cPtrs);
    }
    ForestIsBare(t, diffs, cats, dPtrs, cPtrs);
    ReadForest(diffs, cats, dPtrs, cPtrs, Owners(DiffIds(t), t.categories));
  }

  /**
   * Builds the hierarchy of the rows. What it returns is the pure grouping of the rows by foreign key,
   * whatever the order in which the maps are enumerated. With ids that are keys it shows the tables, row by row,
   * and it fails exactly when a link of a listed difficulty is malformed.
   */
  method ListBenchmarks(lower: Text -> Text, t: Tables, view: ListView) returns (r: Option<seq<Benchmark>>)
    ensures r == Hierarchy(lower, t, view)
    ensures r.None? <==> view == Full && exists b, d, link :: BadLink(t, b, d, link)
    ensures PrimaryKeys(t) && r.Some? ==> Shows(lower, t, view, r.value)
  {
    HierarchyShowsTheRows(lower, t, view);
    hide BadLink, PrimaryKeys, Shows;
    hide DiffIds, DiffRows, Owners, Live, Index, Injective, AllValid, Linked, SameBodies, Attached, Forest, ForestTrees,
      BareDifficulties, WithLinks, LinksDecode, View, Pointers, ReadBenchmark, Benchmarks, NewDifficulty;
    var items, benchByID := ListBenchmarkRows(t.benchmarks);
    if |items| == 0 {
      NoBenchmarks(lower, t, view);
      return Some([]);
    }
    ItemsInMemory(t, items);
    var slice := Slice(1, |items|);
    ghost var bPtrs := Pointers(slice);
    var benches: Memory<BenchCell> := [[], items];
    var diffs, diffByID;
    ghost var dPtrs;
    benches, diffs, diffByID, dPtrs :=
        Attach(benches, benchByID, t.difficulties, NewDifficulty, ZERO_DIFFICULTY, BenchIds(t), bPtrs);
    ghost var cells := View(benches, bPtrs);
    ItemsStay(t, items, benches);
    DifficultiesAttached(t, cells, diffs, diffByID, dPtrs);
    var cats: Memory<Category> := [[]];
    ghost var cPtrs: seq<Ptr> := [];
    if |diffByID| == 0 {
      NoIds(DiffIds(t), diffByID, dPtrs);
      NoDifficulties(lower, t, view, diffs);
    } else {
      diffs, cats, cPtrs := Grow(t, diffs, diffByID, dPtrs);
      if view != Progress {
        var linked := AttachScenarioLinks(lower, diffs, cats, diffByID, t.links, DiffIds(t), dPtrs, cPtrs,
                                          Owners(DiffIds(t), t.categories));
        if linked.None? {
          return None;
        }
        diffs, cats := linked.value.0, linked.value.1;
      }
    }
    ReadBenchmarks(t, cells, diffs, cats, dPtrs, cPtrs, Owners(DiffIds(t), t.categories));
    r := Some(Map(ReadBenchmark(diffs, cats), Contents(benches, slice)));
  }
}
