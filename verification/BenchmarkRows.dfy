/** The benchmark list read against its rows: what a client sees of each table, by the keys in the rows alone. */
module BenchmarkRows {
  import opened Wrappers
  import opened Bytes
  import opened Grouping
  import opened BenchmarkTree

  // ---- Ranks ----

  /** Some spelling of "no rank": either case of each letter, and the Kelvin sign for the last. */
  predicate SpellsNoRank(s: Text) {
    && (|s| == 7 || |s| == 9)
    && s[0] in {0x4E, 0x6E} && s[1] in {0x4F, 0x6F} && s[2] == 0x20
    && s[3] in {0x52, 0x72} && s[4] in {0x41, 0x61} && s[5] in {0x4E, 0x6E}
    && if |s| == 7 then s[6] in {0x4B, 0x6B} else s[6] == 0xE2 && s[7] == 0x84 && s[8] == 0xAA
  }

  /** The ranks that a client sees: trimmed, blank names and "no rank" left out, a blank colour replaced by #60a5fa. */
  function ShownRanks(rs: seq<Rank>): seq<Rank> {
    if |rs| == 0 then []
    else
      var last := rs[|rs| - 1];
      var name, color := TrimSpace(last.name), TrimSpace(last.color);
      ShownRanks(rs[..|rs| - 1])
      + if name == [] || SpellsNoRank(name) then []
        else [last.(name := name, color := if color == [] then [0x23, 0x36, 0x30, 0x61, 0x35, 0x66, 0x61] else color)]
  }

  lemma NoRankExactly(s: Text)
    ensures IsNoRank(s) <==> SpellsNoRank(s)
  {
    var t := Lower(s);
    if IsNoRank(s) {
      forall i | 0 <= i < |s| ensures s[i] == t[i] || s[i] + 0x20 == t[i] {}
    }
  }

  lemma {:induction false} RanksAreShown(rs: seq<Rank>)
    ensures RankList(rs) == ShownRanks(rs)
  {
    hide TrimSpace, IsNoRank, SpellsNoRank;
    if |rs| > 0 {
      RanksAreShown(rs[..|rs| - 1]);
      NoRankExactly(TrimSpace(rs[|rs| - 1].name));
    }
  }

  // ---- What the list must show ----

  /** The categories of a difficulty are its category rows, each with its own subcategory rows. */
  ghost predicate ShowsCategories(t: Tables, diffID: int, cats: seq<Category>) {
    var rows := WithParent(t.categories, diffID);
    && |cats| == |rows|
    && forall c | 0 <= c < |rows| :: ShowsCategory(t, rows[c], cats[c])
  }

  ghost predicate ShowsCategory(t: Tables, row: Row<CatInfo>, cat: Category) {
    var subs := InfosOf(t.subcategories, row.id);
    && cat.info == row.info && |cat.subcategories| == |subs|
    && forall s | 0 <= s < |subs| :: cat.subcategories[s].info == subs[s]
  }

  /** Each place of a difficulty holds the scenarios of the links that belong there; in the progress view, none. */
  ghost predicate ShowsLinks(lower: Text -> Text, t: Tables, view: ListView, diffID: int, d: Difficulty) {
    forall p | HasPlace(d, p) ::
      ScenariosAt(d, p) == if view == Progress then [] else LinksAt(lower, d.kids, InfosOf(t.links, diffID), p)
  }

  ghost predicate ShowsDifficulty(lower: Text -> Text, t: Tables, view: ListView, row: Row<DiffInfo>, d: Difficulty) {
    && d.body.info == row.info && d.body.ranks == ShownRanks(InfosOf(t.ranks, row.id))
    && ShowsCategories(t, row.id, d.kids) && ShowsLinks(lower, t, view, row.id, d)
  }

  ghost predicate ShowsBenchmark(lower: Text -> Text, t: Tables, view: ListView, row: Keyed<BenchInfo>, b: Benchmark) {
    var rows := WithParent(t.difficulties, row.id);
    && b.body == row.info && |b.kids| == |rows|
    && forall k | 0 <= k < |rows| :: ShowsDifficulty(lower, t, view, rows[k], b.kids[k])
  }

  /** The list is the tables: every benchmark row in order, with all that its keys lead to and nothing else. */
  ghost predicate Shows(lower: Text -> Text, t: Tables, view: ListView, bs: seq<Benchmark>) {
    && |bs| == |t.benchmarks|
    && forall i | 0 <= i < |bs| :: ShowsBenchmark(lower, t, view, t.benchmarks[i], bs[i])
  }

  /** The ids are primary keys. */
  predicate PrimaryKeys(t: Tables) {
    DistinctIds(BenchIds(t)) && DistinctIds(Ids(t.difficulties)) && DistinctIds(Ids(t.categories))
  }

  /** A link of a difficulty of a listed benchmark has malformed thresholds. */
  ghost predicate BadLink(t: Tables, b: Keyed<BenchInfo>, d: Row<DiffInfo>, link: Item<LinkInfo>) {
    && b in t.benchmarks && d in t.difficulties && link in t.links
    && d.parentID == b.id && link.parentID == d.id && link.info.thresholds.None?
  }

  // ---- The grouping shows the rows ----

  lemma KeysStayDistinct(t: Tables)
    requires PrimaryKeys(t)
    ensures DistinctIds(DiffIds(t)) && DistinctIds(CatIds(t))
  {
    LiveIdsDistinct(BenchIds(t), t.difficulties);
    LiveIdsDistinct(DiffIds(t), t.categories);
  }

  lemma CategoryShown(t: Tables, k: nat)
    requires DistinctIds(CatIds(t)) && k < |CatRows(t)|
    ensures ShowsCategory(t, CatRows(t)[k], CategoryOf(t, k))
  {
    ItemsAreFilter(CatIds(t), t.subcategories, k);
    hide CatRows, ItemsOf, InfosOf;
  }

  lemma CategoriesShown(t: Tables, j: nat)
    requires DistinctIds(DiffIds(t)) && DistinctIds(CatIds(t)) && j < |DiffRows(t)|
    ensures ShowsCategories(t, DiffRows(t)[j].id, BareDifficulty(t, j).kids)
  {
    var id := DiffIds(t)[j];
    var rows, cats := WithParent(t.categories, id), BareDifficulty(t, j).kids;
    hide DiffRows, CatRows, CatIds, CategoryOf, ShowsCategory, Group, Owners, Live, WithParent, DistinctIds;
    GroupIsFilter(DiffIds(t), t.categories, j);
    GroupLength(Owners(DiffIds(t), t.categories), CatRows(t), Categories(t), j);
    forall c | 0 <= c < |rows| ensures c < |cats| && ShowsCategory(t, rows[c], cats[c]) {
      var k := GroupTracks(DiffIds(t), t.categories, Categories(t), j, c);
      CategoryShown(t, k);
    }
  }

  /** Where links belong depends on the names only. */
  lemma {:induction false} LinksAtByNames(lower: Text -> Text, a: seq<Category>, b: seq<Category>, links: seq<LinkInfo>,
                                          p: Place)
    requires Skeleton(lower, a) == Skeleton(lower, b)
    ensures LinksAt(lower, a, links, p) == LinksAt(lower, b, links, p)
  {
    hide Skeleton, Belongs, LinkPlace;
    if |links| > 0 {
      LinksAtByNames(lower, a, b, links[..|links| - 1], p);
      BelongsExactly(lower, a, links[|links| - 1], p);
      BelongsExactly(lower, b, links[|links| - 1], p);
    }
  }

  /** Difficulties that differ in scenarios only show the same categories. */
  lemma ErasedShowsCategories(t: Tables, id: int, full: Difficulty, bare: Difficulty)
    requires EraseDifficulty(full) == bare && ShowsCategories(t, id, bare.kids)
    ensures ShowsCategories(t, id, full.kids)
  {
    var rows := WithParent(t.categories, id);
    forall c | 0 <= c < |rows| ensures ShowsCategory(t, rows[c], full.kids[c]) {
      assert bare.kids[c] == EraseCat(full.kids[c]) && ShowsCategory(t, rows[c], bare.kids[c]);
      forall s | 0 <= s < |full.kids[c].subcategories|
        ensures full.kids[c].subcategories[s].info == bare.kids[c].subcategories[s].info {}
    }
  }

  /** The difficulty of live row j, in either view. */
  function DifficultyIn(lower: Text -> Text, t: Tables, view: ListView, j: nat): Difficulty
    requires j < |DiffRows(t)|
  {
    if view == Progress then BareDifficulty(t, j) else WithLinks(lower, BareDifficulties(t), DiffIds(t), t.links)[j]
  }

  lemma LinksShown(lower: Text -> Text, t: Tables, view: ListView, j: nat)
    requires DistinctIds(DiffIds(t)) && j < |DiffRows(t)|
    ensures ShowsLinks(lower, t, view, DiffIds(t)[j], DifficultyIn(lower, t, view, j))
  {
    var bare, d := BareDifficulty(t, j), DifficultyIn(lower, t, view, j);
    EraseBare(t, j);
    if view == Progress {
      forall p | HasPlace(d, p) ensures ScenariosAt(d, p) == [] {
        ErasedHoldsNothing(d, p);
      }
    } else {
      var links := ItemsOf(DiffIds(t), t.links, j);
      ItemsAreFilter(DiffIds(t), t.links, j);
      assert d == PlaceAll(lower, bare, links);
      SkeletonOfAll(lower, bare, links);
      hide BareDifficulty, PlaceAll, HasPlace, ScenariosAt, Skeleton, LinksAt, ItemsOf, InfosOf;
      forall p | HasPlace(d, p) ensures ScenariosAt(d, p) == LinksAt(lower, d.kids, links, p) {
        SamePlaces(lower, bare, d, p);
        LinksLandOnce(lower, t, j, p);
        LinksAtByNames(lower, d.kids, bare.kids, links, p);
      }
    }
  }

  lemma SamePlaces(lower: Text -> Text, a: Difficulty, b: Difficulty, p: Place)
    requires Skeleton(lower, a.kids) == Skeleton(lower, b.kids)
    ensures HasPlace(a, p) <==> HasPlace(b, p)
  {
    hide Skeleton;
    SkeletonPlaces(lower, a, p);
    SkeletonPlaces(lower, b, p);
  }

  lemma DifficultyShown(lower: Text -> Text, t: Tables, view: ListView, j: nat)
    requires PrimaryKeys(t) && j < |DiffRows(t)|
    ensures ShowsDifficulty(lower, t, view, DiffRows(t)[j], DifficultyIn(lower, t, view, j))
  {
    var bare, d := BareDifficulty(t, j), DifficultyIn(lower, t, view, j);
    KeysStayDistinct(t);
    CategoriesShown(t, j);
    LinksShown(lower, t, view, j);
    ItemsAreFilter(DiffIds(t), t.ranks, j);
    RanksAreShown(ItemsOf(DiffIds(t), t.ranks, j));
    EraseBare(t, j);
    ErasePlaceAll(lower, bare, ItemsOf(DiffIds(t), t.links, j));
    assert EraseDifficulty(d) == bare;
    ErasedShowsCategories(t, DiffRows(t)[j].id, d, bare);
    hide ShowsCategories, ShowsLinks, PlaceAll, EraseCat, Group, ItemsOf, InfosOf, DiffRows, ShownRanks, RankList;
    assert d.body.info == bare.body.info && d.body.ranks == bare.body.ranks;
  }

  lemma BenchmarkShown(lower: Text -> Text, t: Tables, view: ListView, ds: seq<Difficulty>, i: nat)
    requires PrimaryKeys(t) && i < |t.benchmarks| && |ds| == |DiffRows(t)|
    requires forall j | 0 <= j < |ds| :: ds[j] == DifficultyIn(lower, t, view, j)
    ensures ShowsBenchmark(lower, t, view, t.benchmarks[i], Benchmarks(t, ds)[i])
  {
    var rows, kids := WithParent(t.difficulties, t.benchmarks[i].id), Benchmarks(t, ds)[i].kids;
    hide ShowsDifficulty, DifficultyIn, Group, Owners, Live, WithParent;
    GroupIsFilter(BenchIds(t), t.difficulties, i);
    GroupLength(Owners(BenchIds(t), t.difficulties), DiffRows(t), ds, i);
    forall k | 0 <= k < |rows| ensures k < |kids| && ShowsDifficulty(lower, t, view, rows[k], kids[k]) {
      var j := GroupTracks(BenchIds(t), t.difficulties, ds, i, k);
      DifficultyShown(lower, t, view, j);
    }
  }

  /**
   * With ids that are keys, the list shows the tables. It fails, in the full view only, exactly when some link of a
   * listed difficulty has malformed thresholds.
   */
  lemma HierarchyShowsTheRows(lower: Text -> Text, t: Tables, view: ListView)
    ensures Hierarchy(lower, t, view).None? <==> view == Full && exists b, d, link :: BadLink(t, b, d, link)
    ensures PrimaryKeys(t) && Hierarchy(lower, t, view).Some? ==> Shows(lower, t, view, Hierarchy(lower, t, view).value)
  {
    FailsExactly(t);
    if PrimaryKeys(t) && Hierarchy(lower, t, view).Some? {
      var bare := BareDifficulties(t);
      var ds := if view == Progress then bare else WithLinks(lower, bare, DiffIds(t), t.links);
      hide ShowsBenchmark, PrimaryKeys, WithLinks, BareDifficulty, Benchmarks, LinksDecode;
      forall i | 0 <= i < |t.benchmarks| ensures ShowsBenchmark(lower, t, view, t.benchmarks[i], Benchmarks(t, ds)[i]) {
        BenchmarkShown(lower, t, view, ds, i);
      }
    }
  }

  lemma FailsExactly(t: Tables)
    ensures !LinksDecode(DiffIds(t), t.links) <==> exists b, d, link :: BadLink(t, b, d, link)
  {
    hide LastIndex, Live;
    if !LinksDecode(DiffIds(t), t.links) {
      var link :| link in t.links && LastIndex(DiffIds(t), link.parentID).Some? && link.info.thresholds.None?;
      var j := LastIndex(DiffIds(t), link.parentID).value;
      var d := DiffRows(t)[j];
      assert d in DiffRows(t);
      LiveExactly(BenchIds(t), t.difficulties, d);
      var i :| 0 <= i < |t.benchmarks| && BenchIds(t)[i] == d.parentID;
      assert BadLink(t, t.benchmarks[i], d, link);
    }
    forall b, d, link | BadLink(t, b, d, link) ensures !LinksDecode(DiffIds(t), t.links) {
      var i :| 0 <= i < |t.benchmarks| && t.benchmarks[i] == b;
      assert BenchIds(t)[i] == d.parentID;
      LiveExactly(BenchIds(t), t.difficulties, d);
      var j :| 0 <= j < |DiffRows(t)| && DiffRows(t)[j] == d;
      assert DiffIds(t)[j] == link.parentID;
    }
  }
}
