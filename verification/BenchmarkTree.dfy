/** The benchmark hierarchy as a pure grouping of flat rows, and where scenario links go in it. */
module BenchmarkTree {
  import opened Wrappers
  import opened Bytes
  import opened Grouping

  // ---- Rows ----

  datatype Keyed<I> = Keyed(id: int, info: I)

  datatype BenchInfo = BenchInfo(name: Text, rankCalculation: Text, abbreviation: Text, color: Text,
                                 spreadsheetURL: Text, dateAdded: Option<Text>)
  datatype DiffInfo = DiffInfo(name: Text, kovaaksID: int, sharecode: Text)
  datatype Rank = Rank(name: Text, color: Text)
  datatype CatInfo = CatInfo(name: Text, color: Text)
  datatype SubInfo = SubInfo(name: Text, count: int, color: Text)

  /** A link's thresholds are None when its JSON is malformed. */
  datatype LinkInfo = LinkInfo(category: Text, subcategory: Text, scenario: Text, thresholds: Option<seq<real>>)

  /** The rows the queries return, in their order; a row may name a parent that is not there. */
  datatype Tables = Tables(
    benchmarks: seq<Keyed<BenchInfo>>,
    difficulties: seq<Row<DiffInfo>>,
    ranks: seq<Item<Rank>>,
    categories: seq<Row<CatInfo>>,
    subcategories: seq<Item<SubInfo>>,
    links: seq<Item<LinkInfo>>)

  datatype ListView = Full | Progress

  // ---- The tree ----

  datatype Scenario = Scenario(name: Text, thresholds: seq<real>)
  datatype Subcategory = Subcategory(info: SubInfo, scenarios: seq<Scenario>)
  datatype Category = Category(info: CatInfo, scenarios: seq<Scenario>, subcategories: seq<Subcategory>)
  datatype DiffBody = DiffBody(info: DiffInfo, ranks: seq<Rank>, scenarios: seq<Scenario>)
  datatype Node<B, K> = Node(body: B, kids: seq<K>)
  type Difficulty = Node<DiffBody, Category>
  type Benchmark = Node<BenchInfo, Difficulty>

  // ---- Grouping by foreign key ----

  function BenchIds(t: Tables): seq<int> {
    Map((b: Keyed<BenchInfo>) => b.id, t.benchmarks)
  }

  function DiffRows(t: Tables): seq<Row<DiffInfo>> {
    Live(BenchIds(t), t.difficulties)
  }

  function DiffIds(t: Tables): seq<int> {
    Ids(DiffRows(t))
  }

  function CatRows(t: Tables): seq<Row<CatInfo>> {
    Live(DiffIds(t), t.categories)
  }

  function CatIds(t: Tables): seq<int> {
    Ids(CatRows(t))
  }

  /** "no rank" in any case; the Kelvin sign folds to k. */
  predicate IsNoRank(name: Text) {
    var folded := Lower(name);
    folded == [0x6E, 0x6F, 0x20, 0x72, 0x61, 0x6E, 0x6B]
    || folded == [0x6E, 0x6F, 0x20, 0x72, 0x61, 0x6E, 0xE2, 0x84, 0xAA]
  }

  const DEFAULT_RANK_COLOR: Text := [0x23, 0x36, 0x30, 0x61, 0x35, 0x66, 0x61]

  function CleanRank(r: Rank): Option<Rank> {
    var (name, color) := (TrimSpace(r.name), TrimSpace(r.color));
    if name == [] || IsNoRank(name) then None
    else Some(Rank(name, if color == [] then DEFAULT_RANK_COLOR else color))
  }

  function RankList(rs: seq<Rank>): seq<Rank> {
    if |rs| == 0 then []
    else
      var last := CleanRank(rs[|rs| - 1]);
      RankList(rs[..|rs| - 1]) + if last.Some? then [last.value] else []
  }

  predicate IsClean(r: Rank) {
    r.name != [] && TrimSpace(r.name) == r.name && !IsNoRank(r.name) && r.color != [] && TrimSpace(r.color) == r.color
  }

  /**
   * Every listed rank has a trimmed name that is not "no rank", and a colour; a rank that is already clean is kept
   * as it is.
   */
  lemma {:induction false} RanksAreClean(rs: seq<Rank>)
    ensures forall r <- RankList(rs) :: IsClean(r)
    ensures (forall r <- rs :: IsClean(r)) ==> RankList(rs) == rs
  {
    hide IsClean, CleanRank;
    if |rs| > 0 {
      var last := rs[|rs| - 1];
      RanksAreClean(rs[..|rs| - 1]);
      RankIsClean(last);
      assert rs == rs[..|rs| - 1] + [last];
    }
  }

  lemma RankIsClean(r: Rank)
    ensures CleanRank(r).Some? ==> IsClean(CleanRank(r).value)
    ensures IsClean(r) ==> CleanRank(r) == Some(r)
  {
    TrimSpaceIdempotent(r.name);
    TrimSpaceIdempotent(r.color);
    DefaultColorIsTrimmed();
    hide TrimSpace, IsNoRank;
  }

  lemma DefaultColorIsTrimmed()
    ensures TrimSpace(DEFAULT_RANK_COLOR) == DEFAULT_RANK_COLOR
  {
    var c := DEFAULT_RANK_COLOR;
    assert c[..1] == [0x23] && c[6..] == [0x61];
    assert c[..2][0] == 0x23 && c[..3][0] == 0x23 && c[5..][0] == 0x66 && c[4..][0] == 0x35;
    assert LeadingSpace(c) == 0 && TrailingSpace(c) == 0;
  }

  function BareSubcategory(info: SubInfo): Subcategory {
    Subcategory(info, [])
  }

  function CategoryOf(t: Tables, k: nat): Category
    requires k < |CatRows(t)|
  {
    Category(CatRows(t)[k].info, [], Map(BareSubcategory, ItemsOf(CatIds(t), t.subcategories, k)))
  }

  function Categories(t: Tables): (r: seq<Category>)
    ensures |r| == |CatRows(t)|
  {
    seq(|CatRows(t)|, k requires 0 <= k < |CatRows(t)| => CategoryOf(t, k))
  }

  function BareDifficulty(t: Tables, j: nat): Difficulty
    requires j < |DiffRows(t)|
  {
    Node(DiffBody(DiffRows(t)[j].info, RankList(ItemsOf(DiffIds(t), t.ranks, j)), []),
         Group(Owners(DiffIds(t), t.categories), Categories(t), j))
  }

  function BareDifficulties(t: Tables): (r: seq<Difficulty>)
    ensures |r| == |DiffRows(t)|
  {
    seq(|DiffRows(t)|, j requires 0 <= j < |DiffRows(t)| => BareDifficulty(t, j))
  }

  /** Adds to each difficulty its own links. */
  function WithLinks(lower: Text -> Text, ds: seq<Difficulty>, ids: seq<int>,
                     links: seq<Item<LinkInfo>>): (r: seq<Difficulty>)
    ensures |r| == |ds|
  {
    seq(|ds|, j requires 0 <= j < |ds| => PlaceAll(lower, ds[j], ItemsOf(ids, links, j)))
  }

  function Benchmarks(t: Tables, ds: seq<Difficulty>): (r: seq<Benchmark>)
    requires |ds| == |DiffRows(t)|
    ensures |r| == |t.benchmarks|
  {
    seq(|t.benchmarks|, i requires 0 <= i < |t.benchmarks| =>
      Node(t.benchmarks[i].info, Group(Owners(BenchIds(t), t.difficulties), ds, i)))
  }

  predicate LinksDecode(ids: seq<int>, links: seq<Item<LinkInfo>>) {
    forall link <- links :: LastIndex(ids, link.parentID).Some? ==> link.info.thresholds.Some?
  }

  /** The benchmark list; None if a link of a listed difficulty has malformed thresholds. */
  function Hierarchy(lower: Text -> Text, t: Tables, view: ListView): Option<seq<Benchmark>> {
    if view == Progress then Some(Benchmarks(t, BareDifficulties(t)))
    else if LinksDecode(DiffIds(t), t.links)
        then Some(Benchmarks(t, WithLinks(lower, BareDifficulties(t), DiffIds(t), t.links)))
    else None
  }

  // ---- Where a link goes ----

  function Key(lower: Text -> Text, name: Text): Text {
    lower(TrimSpace(name))
  }

  /** The keys of a category and of its subcategories. */
  datatype CatKeys = CatKeys(key: Text, subs: seq<Text>)

  function SubKey(lower: Text -> Text): Subcategory -> Text {
    (s: Subcategory) => Key(lower, s.info.name)
  }

  function KeysOf(lower: Text -> Text): Category -> CatKeys {
    (c: Category) => CatKeys(Key(lower, c.info.name), Map(SubKey(lower), c.subcategories))
  }

  function Skeleton(lower: Text -> Text, cats: seq<Category>): seq<CatKeys> {
    Map(KeysOf(lower), cats)
  }

  function LastCat(sk: seq<CatKeys>, key: Text): (r: Option<nat>)
    ensures r.Some? ==> r.value < |sk|
  {
    if |sk| == 0 then None
    else if sk[|sk| - 1].key == key then Some(|sk| - 1)
    else LastCat(sk[..|sk| - 1], key)
  }

  /** The last subcategory with that key, in the last category with that key that has one. */
  function LastSub(sk: seq<CatKeys>, catKey: Text, subKey: Text): (r: Option<(nat, nat)>)
    ensures r.Some? ==> r.value.0 < |sk| && r.value.1 < |sk[r.value.0].subs|
  {
    if |sk| == 0 then None
    else
      var last := sk[|sk| - 1];
      var s := LastIndex(last.subs, subKey);
      if last.key == catKey && s.Some? then Some((|sk| - 1, s.value))
      else LastSub(sk[..|sk| - 1], catKey, subKey)
  }

  /** A node of a difficulty: the difficulty itself, a category, or a subcategory. */
  datatype Place = InDiff | InCat(c: nat) | InSub(c: nat, s: nat)

  function PlaceOf(sk: seq<CatKeys>, catKey: Text, subKey: Text): (r: Place)
    ensures IsPlace(sk, r)
  {
    var sub := LastSub(sk, catKey, subKey);
    if sub.Some? then InSub(sub.value.0, sub.value.1)
    else
      var cat := LastCat(sk, catKey);
      if cat.Some? then InCat(cat.value) else InDiff
  }

  predicate IsPlace(sk: seq<CatKeys>, p: Place) {
    match p
    case InDiff => true
    case InCat(c) => c < |sk|
    case InSub(c, s) => c < |sk| && s < |sk[c].subs|
  }

  predicate CatMatches(sk: seq<CatKeys>, catKey: Text, c: nat) {
    c < |sk| && sk[c].key == catKey
  }

  predicate SubMatches(sk: seq<CatKeys>, catKey: Text, subKey: Text, c: nat, s: nat) {
    CatMatches(sk, catKey, c) && s < |sk[c].subs| && sk[c].subs[s] == subKey
  }

  ghost predicate NoSubMatches(sk: seq<CatKeys>, catKey: Text, subKey: Text) {
    forall c: nat, s: nat :: !SubMatches(sk, catKey, subKey, c, s)
  }

  /** The last matching subcategory, else the last matching category, else the difficulty itself. */
  ghost predicate RightPlace(sk: seq<CatKeys>, catKey: Text, subKey: Text, p: Place) {
    match p
    case InSub(c, s) =>
      && SubMatches(sk, catKey, subKey, c, s)
      && forall c': nat, s': nat | SubMatches(sk, catKey, subKey, c', s') :: c' < c || (c' == c && s' <= s)
    case InCat(c) =>
      && NoSubMatches(sk, catKey, subKey)
      && CatMatches(sk, catKey, c) && forall c': nat | CatMatches(sk, catKey, c') :: c' <= c
    case InDiff => forall c: nat :: !CatMatches(sk, catKey, c)
  }

  lemma {:induction false} LastCatIsLast(sk: seq<CatKeys>, catKey: Text)
    ensures var r := LastCat(sk, catKey);
      if r.Some? then CatMatches(sk, catKey, r.value) && forall c: nat | CatMatches(sk, catKey, c) :: c <= r.value
      else forall c: nat :: !CatMatches(sk, catKey, c)
  {
    if |sk| > 0 {
      var init := sk[..|sk| - 1];
      LastCatIsLast(init, catKey);
      assert forall c: nat :: c < |init| ==> (CatMatches(init, catKey, c) <==> CatMatches(sk, catKey, c));
    }
  }

  lemma {:induction false} LastSubIsLast(sk: seq<CatKeys>, catKey: Text, subKey: Text)
    ensures var r := LastSub(sk, catKey, subKey);
      if r.Some? then RightPlace(sk, catKey, subKey, InSub(r.value.0, r.value.1)) else NoSubMatches(sk, catKey, subKey)
  {
    if |sk| > 0 {
      var init := sk[..|sk| - 1];
      LastSubIsLast(init, catKey, subKey);
      assert forall c: nat, s: nat :: c < |init| ==>
          (SubMatches(init, catKey, subKey, c, s) <==> SubMatches(sk, catKey, subKey, c, s));
    }
  }

  /** A link has exactly one right place, and it is where the link goes. */
  lemma PlaceExactly(sk: seq<CatKeys>, catKey: Text, subKey: Text, p: Place)
    ensures RightPlace(sk, catKey, subKey, p) <==> p == PlaceOf(sk, catKey, subKey)
  {
    LastCatIsLast(sk, catKey);
    LastSubIsLast(sk, catKey, subKey);
    hide LastCat, LastSub;
  }

  // ---- Placing links ----

  predicate HasPlace(d: Difficulty, p: Place) {
    match p
    case InDiff => true
    case InCat(c) => c < |d.kids|
    case InSub(c, s) => c < |d.kids| && s < |d.kids[c].subcategories|
  }

  function ScenariosAt(d: Difficulty, p: Place): seq<Scenario>
    requires HasPlace(d, p)
  {
    match p
    case InDiff => d.body.scenarios
    case InCat(c) => d.kids[c].scenarios
    case InSub(c, s) => d.kids[c].subcategories[s].scenarios
  }

  function AddToSub(c: Category, s: nat, x: Scenario): Category
    requires s < |c.subcategories|
  {
    var sub := c.subcategories[s];
    c.(subcategories := c.subcategories[s := sub.(scenarios := sub.scenarios + [x])])
  }

  function AddToCat(c: Category, x: Scenario): Category {
    c.(scenarios := c.scenarios + [x])
  }

  function AddToBody(b: DiffBody, x: Scenario): DiffBody {
    b.(scenarios := b.scenarios + [x])
  }

  function AddScenario(d: Difficulty, p: Place, x: Scenario): Difficulty
    requires HasPlace(d, p)
  {
    match p
    case InDiff => d.(body := AddToBody(d.body, x))
    case InCat(c) => d.(kids := d.kids[c := AddToCat(d.kids[c], x)])
    case InSub(c, s) => d.(kids := d.kids[c := AddToSub(d.kids[c], s, x)])
  }

  function ScenarioOf(link: LinkInfo): Scenario {
    Scenario(link.scenario, link.thresholds.GetOr([]))
  }

  function LinkPlace(lower: Text -> Text, sk: seq<CatKeys>, link: LinkInfo): (r: Place)
    ensures IsPlace(sk, r)
  {
    PlaceOf(sk, Key(lower, link.category), Key(lower, link.subcategory))
  }

  function PlaceLink(lower: Text -> Text, d: Difficulty, link: LinkInfo): Difficulty {
    SkeletonPlaces(lower, d, LinkPlace(lower, Skeleton(lower, d.kids), link));
    AddScenario(d, LinkPlace(lower, Skeleton(lower, d.kids), link), ScenarioOf(link))
  }

  /** Places the links one after the other. */
  function PlaceAll(lower: Text -> Text, d: Difficulty, links: seq<LinkInfo>): Difficulty {
    if |links| == 0 then d
    else PlaceLink(lower, PlaceAll(lower, d, links[..|links| - 1]), links[|links| - 1])
  }

  lemma SkeletonOfUpdate(lower: Text -> Text, cats: seq<Category>, c: nat, v: Category)
    requires c < |cats| && KeysOf(lower)(v) == KeysOf(lower)(cats[c])
    ensures Skeleton(lower, cats[c := v]) == Skeleton(lower, cats)
  {
    hide KeysOf;
    assert Skeleton(lower, cats[c := v]) == Skeleton(lower, cats);
  }

  lemma KeysOfSub(lower: Text -> Text, c: Category, s: nat, x: Scenario)
    requires s < |c.subcategories|
    ensures KeysOf(lower)(AddToSub(c, s, x)) == KeysOf(lower)(c)
  {
    hide Key;
    assert Map(SubKey(lower), AddToSub(c, s, x).subcategories) == Map(SubKey(lower), c.subcategories);
  }

  lemma SkeletonOfPlace(lower: Text -> Text, d: Difficulty, p: Place, x: Scenario)
    requires HasPlace(d, p)
    ensures Skeleton(lower, AddScenario(d, p, x).kids) == Skeleton(lower, d.kids)
  {
    hide Skeleton, Key;
    match p
    case InDiff =>
    case InCat(c) => SkeletonOfUpdate(lower, d.kids, c, AddToCat(d.kids[c], x));
    case InSub(c, s) =>
      KeysOfSub(lower, d.kids[c], s, x);
      hide KeysOf;
      SkeletonOfUpdate(lower, d.kids, c, AddToSub(d.kids[c], s, x));
  }

  lemma SkeletonPlaces(lower: Text -> Text, d: Difficulty, p: Place)
    ensures IsPlace(Skeleton(lower, d.kids), p) <==> HasPlace(d, p)
  {
    hide Key;
  }

  /** Adding scenarios never changes where the next ones go. */
  lemma {:induction false} SkeletonOfAll(lower: Text -> Text, d: Difficulty, links: seq<LinkInfo>)
    ensures Skeleton(lower, PlaceAll(lower, d, links).kids) == Skeleton(lower, d.kids)
  {
    hide Skeleton, LinkPlace, AddScenario, HasPlace, IsPlace, ScenarioOf;
    if |links| > 0 {
      var init := PlaceAll(lower, d, links[..|links| - 1]);
      var place := LinkPlace(lower, Skeleton(lower, init.kids), links[|links| - 1]);
      SkeletonOfAll(lower, d, links[..|links| - 1]);
      SkeletonPlaces(lower, init, place);
      SkeletonOfPlace(lower, init, place, ScenarioOf(links[|links| - 1]));
    }
  }

  // ---- Where a link belongs, by the names in the rows ----

  /** The link's category name is the category's, once both are trimmed and lower-cased. */
  predicate CatFits(lower: Text -> Text, cats: seq<Category>, link: LinkInfo, c: nat) {
    c < |cats| && lower(TrimSpace(cats[c].info.name)) == lower(TrimSpace(link.category))
  }

  /** And so is its subcategory name. */
  predicate SubFits(lower: Text -> Text, cats: seq<Category>, link: LinkInfo, c: nat, s: nat) {
    && CatFits(lower, cats, link, c) && s < |cats[c].subcategories|
    && lower(TrimSpace(cats[c].subcategories[s].info.name)) == lower(TrimSpace(link.subcategory))
  }

  /** The last subcategory that fits, else the last category that fits, else the difficulty. */
  ghost predicate Belongs(lower: Text -> Text, cats: seq<Category>, link: LinkInfo, p: Place) {
    match p
    case InSub(c, s) =>
      && SubFits(lower, cats, link, c, s)
      && forall c': nat, s': nat | SubFits(lower, cats, link, c', s') :: c' < c || (c' == c && s' <= s)
    case InCat(c) =>
      && (forall c': nat, s': nat :: !SubFits(lower, cats, link, c', s'))
      && CatFits(lower, cats, link, c) && forall c': nat | CatFits(lower, cats, link, c') :: c' <= c
    case InDiff => forall c: nat :: !CatFits(lower, cats, link, c)
  }

  lemma FitsIsMatches(lower: Text -> Text, cats: seq<Category>, link: LinkInfo, c: nat, s: nat)
    ensures var sk, ck, key := Skeleton(lower, cats), Key(lower, link.category), Key(lower, link.subcategory);
      && (CatFits(lower, cats, link, c) <==> CatMatches(sk, ck, c))
      && (SubFits(lower, cats, link, c, s) <==> SubMatches(sk, ck, key, c, s))
  {
    hide TrimSpace;
  }

  /** A link belongs to exactly one node, and that is where it is put. */
  lemma BelongsExactly(lower: Text -> Text, cats: seq<Category>, link: LinkInfo, p: Place)
    ensures Belongs(lower, cats, link, p) <==> p == LinkPlace(lower, Skeleton(lower, cats), link)
  {
    var sk, ck, key := Skeleton(lower, cats), Key(lower, link.category), Key(lower, link.subcategory);
    forall c: nat, s: nat
      ensures CatFits(lower, cats, link, c) <==> CatMatches(sk, ck, c)
      ensures SubFits(lower, cats, link, c, s) <==> SubMatches(sk, ck, key, c, s)
    {
      FitsIsMatches(lower, cats, link, c, s);
    }
    PlaceExactly(sk, ck, key, p);
    hide CatFits, SubFits, CatMatches, SubMatches, PlaceOf, Key, Skeleton;
    SameRight(lower, cats, link, p, sk, ck, key);
  }

  lemma SameRight(lower: Text -> Text, cats: seq<Category>, link: LinkInfo, p: Place, sk: seq<CatKeys>, ck: Text,
                  key: Text)
    requires forall c: nat :: CatFits(lower, cats, link, c) <==> CatMatches(sk, ck, c)
    requires forall c: nat, s: nat :: SubFits(lower, cats, link, c, s) <==> SubMatches(sk, ck, key, c, s)
    ensures Belongs(lower, cats, link, p) <==> RightPlace(sk, ck, key, p)
  {
    hide CatFits, SubFits, CatMatches, SubMatches;
  }

  /** The scenarios of the links that belong to place p, in row order. */
  ghost function LinksAt(lower: Text -> Text, cats: seq<Category>, links: seq<LinkInfo>, p: Place): seq<Scenario> {
    if |links| == 0 then []
    else
      var last := links[|links| - 1];
      LinksAt(lower, cats, links[..|links| - 1], p)
      + if !Belongs(lower, cats, last, p) then []
        else [Scenario(last.scenario, if last.thresholds.Some? then last.thresholds.value else [])]
  }

  lemma AddScenarioAt(d: Difficulty, p: Place, x: Scenario, q: Place)
    requires HasPlace(d, p)
    ensures HasPlace(AddScenario(d, p, x), q) <==> HasPlace(d, q)
    ensures HasPlace(d, q) ==> ScenariosAt(AddScenario(d, p, x), q) == ScenariosAt(d, q) + if p == q then [x] else []
  {}

  /** Every node gains exactly the links that belong to it, in row order: none is lost, moved or repeated. */
  lemma {:induction false} NodesHoldTheirLinks(lower: Text -> Text, d: Difficulty, links: seq<LinkInfo>, p: Place)
    requires HasPlace(d, p)
    ensures var all := PlaceAll(lower, d, links);
      HasPlace(all, p) && ScenariosAt(all, p) == ScenariosAt(d, p) + LinksAt(lower, d.kids, links, p)
  {
    hide Skeleton, LinkPlace, AddScenario, HasPlace, IsPlace, ScenariosAt, Belongs;
    if |links| > 0 {
      var init, last := PlaceAll(lower, d, links[..|links| - 1]), links[|links| - 1];
      var place := LinkPlace(lower, Skeleton(lower, init.kids), last);
      NodesHoldTheirLinks(lower, d, links[..|links| - 1], p);
      SkeletonOfAll(lower, d, links[..|links| - 1]);
      SkeletonPlaces(lower, init, place);
      BelongsExactly(lower, d.kids, last, p);
      AddScenarioAt(init, place, ScenarioOf(last), p);
    }
  }

  // ---- Conservation ----

  function SubScenarios(subs: seq<Subcategory>): multiset<Scenario> {
    if |subs| == 0 then multiset{} else SubScenarios(subs[..|subs| - 1]) + multiset(subs[|subs| - 1].scenarios)
  }

  function CatScenarios(cats: seq<Category>): multiset<Scenario> {
    if |cats| == 0 then multiset{}
    else
      var last := cats[|cats| - 1];
      CatScenarios(cats[..|cats| - 1]) + OwnScenarios(last)
  }

  function OwnScenarios(c: Category): multiset<Scenario> {
    multiset(c.scenarios) + SubScenarios(c.subcategories)
  }

  /** All scenarios anywhere under a difficulty. */
  function AllScenarios(d: Difficulty): multiset<Scenario> {
    multiset(d.body.scenarios) + CatScenarios(d.kids)
  }

  lemma {:induction false} SubGains(subs: seq<Subcategory>, s: nat, x: Scenario)
    requires s < |subs|
    ensures SubScenarios(subs[s := subs[s].(scenarios := subs[s].scenarios + [x])]) == SubScenarios(subs) + multiset{x}
    decreases |subs|
  {
    var n := |subs| - 1;
    var subs' := subs[s := subs[s].(scenarios := subs[s].scenarios + [x])];
    if s == n {
      assert subs'[..n] == subs[..n];
    } else {
      SubGains(subs[..n], s, x);
      assert subs'[..n] == subs[..n][s := subs[s].(scenarios := subs[s].scenarios + [x])];
    }
  }

  lemma {:induction false} CatGains(cats: seq<Category>, c: nat, v: Category, x: Scenario)
    requires c < |cats|
    requires OwnScenarios(v) == OwnScenarios(cats[c]) + multiset{x}
    ensures CatScenarios(cats[c := v]) == CatScenarios(cats) + multiset{x}
    decreases |cats|
  {
    hide OwnScenarios;
    var n := |cats| - 1;
    if c == n {
      assert cats[c := v][..n] == cats[..n];
    } else {
      CatGains(cats[..n], c, v, x);
      assert cats[c := v][..n] == cats[..n][c := v];
    }
  }

  lemma AddScenarioGains(d: Difficulty, p: Place, x: Scenario)
    requires HasPlace(d, p)
    ensures AllScenarios(AddScenario(d, p, x)) == AllScenarios(d) + multiset{x}
  {
    match p
    case InDiff =>
    case InCat(c) => CatGains(d.kids, c, AddToCat(d.kids[c], x), x);
    case InSub(c, s) =>
      SubGains(d.kids[c].subcategories, s, x);
      CatGains(d.kids, c, AddToSub(d.kids[c], s, x), x);
  }

  lemma ScenariosOfLast(links: seq<LinkInfo>)
    requires |links| > 0
    ensures var n := |links| - 1;
      multiset(Map(ScenarioOf, links)) == multiset(Map(ScenarioOf, links[..n])) + multiset{ScenarioOf(links[n])}
  {
    var n := |links| - 1;
    assert Map(ScenarioOf, links) == Map(ScenarioOf, links[..n]) + [ScenarioOf(links[n])];
  }

  /** The scenarios under a difficulty are those of its links, each as often as it is linked. */
  lemma {:induction false} LinksAreConserved(lower: Text -> Text, d: Difficulty, links: seq<LinkInfo>)
    ensures AllScenarios(PlaceAll(lower, d, links)) == AllScenarios(d) + multiset(Map(ScenarioOf, links))
  {
    if |links| > 0 {
      hide Skeleton, LinkPlace, AddScenario, HasPlace, IsPlace, AllScenarios, Map, ScenarioOf;
      var n := |links| - 1;
      var init := PlaceAll(lower, d, links[..n]);
      var place := LinkPlace(lower, Skeleton(lower, init.kids), links[n]);
      LinksAreConserved(lower, d, links[..n]);
      SkeletonPlaces(lower, init, place);
      AddScenarioGains(init, place, ScenarioOf(links[n]));
      ScenariosOfLast(links);
    }
  }

  // ---- The progress view ----

  function EraseSub(s: Subcategory): Subcategory {
    s.(scenarios := [])
  }

  function EraseCat(c: Category): Category {
    c.(scenarios := [], subcategories := Map(EraseSub, c.subcategories))
  }

  function EraseDifficulty(d: Difficulty): Difficulty {
    Node(d.body.(scenarios := []), Map(EraseCat, d.kids))
  }

  /** Empties every scenario list of a benchmark. */
  function Erase(b: Benchmark): Benchmark {
    b.(kids := Map(EraseDifficulty, b.kids))
  }

  lemma EraseAddScenario(d: Difficulty, p: Place, x: Scenario)
    requires HasPlace(d, p)
    ensures EraseDifficulty(AddScenario(d, p, x)) == EraseDifficulty(d)
  {
    if p.InSub? {
      assert EraseCat(AddToSub(d.kids[p.c], p.s, x)).subcategories == EraseCat(d.kids[p.c]).subcategories;
    }
    assert Map(EraseCat, AddScenario(d, p, x).kids) == Map(EraseCat, d.kids);
  }

  lemma {:induction false} ErasePlaceAll(lower: Text -> Text, d: Difficulty, links: seq<LinkInfo>)
    ensures EraseDifficulty(PlaceAll(lower, d, links)) == EraseDifficulty(d)
  {
    hide Skeleton, LinkPlace, AddScenario, HasPlace, IsPlace, EraseDifficulty, ScenarioOf;
    if |links| > 0 {
      var init := PlaceAll(lower, d, links[..|links| - 1]);
      var place := LinkPlace(lower, Skeleton(lower, init.kids), links[|links| - 1]);
      ErasePlaceAll(lower, d, links[..|links| - 1]);
      SkeletonPlaces(lower, init, place);
      EraseAddScenario(init, place, ScenarioOf(links[|links| - 1]));
    }
  }

  lemma EraseBareCategory(t: Tables, k: nat)
    requires k < |CatRows(t)|
    ensures EraseCat(CategoryOf(t, k)) == CategoryOf(t, k)
  {
    var c := CategoryOf(t, k);
    assert Map(EraseSub, c.subcategories) == c.subcategories;
  }

  lemma EraseBare(t: Tables, j: nat)
    requires j < |DiffRows(t)|
    ensures EraseDifficulty(BareDifficulty(t, j)) == BareDifficulty(t, j)
  {
    forall k | 0 <= k < |Categories(t)| ensures EraseCat(Categories(t)[k]) == Categories(t)[k] {
      EraseBareCategory(t, k);
    }
    hide EraseCat, CategoryOf;
    assert Map(EraseCat, Categories(t)) == Categories(t);
    GroupMap(Owners(DiffIds(t), t.categories), Categories(t), EraseCat, j);
  }

  /** In the full view, the links of a difficulty stand in exactly the nodes they go to, in row order. */
  lemma LinksLandOnce(lower: Text -> Text, t: Tables, j: nat, p: Place)
    requires j < |DiffRows(t)| && HasPlace(BareDifficulty(t, j), p)
    ensures var links := ItemsOf(DiffIds(t), t.links, j);
        var d := WithLinks(lower, BareDifficulties(t), DiffIds(t), t.links)[j];
      HasPlace(d, p) && ScenariosAt(d, p) == LinksAt(lower, BareDifficulty(t, j).kids, links, p)
  {
    var bare, links := BareDifficulty(t, j), ItemsOf(DiffIds(t), t.links, j);
    EraseBare(t, j);
    ErasedHoldsNothing(bare, p);
    NodesHoldTheirLinks(lower, bare, links, p);
    hide BareDifficulty, ItemsOf, HasPlace, ScenariosAt, LinksAt, PlaceAll;
    var at := LinksAt(lower, bare.kids, links, p);
    assert [] + at == at;
  }

  lemma ErasedHoldsNothing(d: Difficulty, p: Place)
    requires EraseDifficulty(d) == d && HasPlace(d, p)
    ensures ScenariosAt(d, p) == []
  {
    match p
    case InDiff =>
    case InCat(c) => assert d.kids[c] == EraseCat(d.kids[c]);
    case InSub(c, s) =>
      assert d.kids[c] == EraseCat(d.kids[c]);
      assert d.kids[c].subcategories[s] == EraseSub(d.kids[c].subcategories[s]);
  }

  /** The progress view is the full view with every scenario list emptied. */
  lemma ProgressIsErasure(lower: Text -> Text, t: Tables)
    requires Hierarchy(lower, t, Full).Some?
    ensures Hierarchy(lower, t, Progress) == Some(Map(Erase, Hierarchy(lower, t, Full).value))
  {
    hide BareDifficulty, EraseDifficulty, PlaceAll;
    var bare := BareDifficulties(t);
    var full := WithLinks(lower, bare, DiffIds(t), t.links);
    forall j | 0 <= j < |bare| ensures EraseDifficulty(full[j]) == bare[j] {
      ErasePlaceAll(lower, bare[j], ItemsOf(DiffIds(t), t.links, j));
      EraseBare(t, j);
    }
    assert Map(EraseDifficulty, full) == bare;
    var owners := Owners(BenchIds(t), t.difficulties);
    forall i | 0 <= i < |t.benchmarks| ensures Erase(Benchmarks(t, full)[i]) == Benchmarks(t, bare)[i] {
      GroupMap(owners, full, EraseDifficulty, i);
    }
    assert Map(Erase, Benchmarks(t, full)) == Benchmarks(t, bare);
  }
}
