/** Placing scenario links through lookup maps of pointers. */
module BenchmarkLinks {
  import opened Wrappers
  import opened Bytes
  import opened Grouping
  import opened GoMemory
  import opened Attaching
  import opened BenchmarkTree

  type DiffCell = Cell<DiffBody>

  /** A pointer to a category, and one to a subcategory inside a category. */
  type CatLookup = map<(int, Text), Ptr>
  type SubLookup = map<(int, Text, Text), (Ptr, nat)>

  // ---- The trees in memory ----

  /** The difficulty trees that the cells stand for, as category cells change in place. */
  function Trees(diffs: seq<DiffCell>, owners: seq<nat>, cats: seq<Category>): (r: seq<Difficulty>)
    requires |owners| == |cats|
    ensures |r| == |diffs|
  {
    seq(|diffs|, j requires 0 <= j < |diffs| => Node(diffs[j].body, Group(owners, cats, j)))
  }

  lemma {:induction false} GroupView<T>(m: Memory<T>, owners: seq<nat>, ptrs: seq<Ptr>, p: nat)
    requires |owners| == |ptrs| && AllValid(m, ptrs)
    ensures AllValid(m, Group(owners, ptrs, p)) && View(m, Group(owners, ptrs, p)) == Group(owners, View(m, ptrs), p)
  {
    if |ptrs| > 0 {
      var n := |ptrs| - 1;
      GroupView(m, owners[..n], ptrs[..n], p);
      assert View(m, ptrs)[..n] == View(m, ptrs[..n]);
    }
  }

  /** What a parent's slice holds is its group of the children. */
  lemma SliceIsGroup<B, T>(m: Memory<T>, cells: seq<Cell<B>>, owners: seq<nat>, ptrs: seq<Ptr>, p: nat)
    requires Linked(cells, owners, ptrs) && AllValid(m, ptrs) && p < |cells| && ValidSlice(m, cells[p].kids)
    ensures Contents(m, cells[p].kids) == Group(owners, View(m, ptrs), p)
  {
    ContentsIsView(m, cells[p].kids);
    GroupView(m, owners, ptrs, p);
  }

  // ---- The lookup maps ----

  /** For difficulty `id`, the map leads from a key to the last category with that key. */
  ghost predicate CatsFound(lookup: CatLookup, id: int, sk: seq<CatKeys>, ptrs: seq<Ptr>)
    requires |sk| == |ptrs|
  {
    forall key :: var r := LastCat(sk, key);
      ((id, key) in lookup <==> r.Some?) && (r.Some? ==> lookup[(id, key)] == ptrs[r.value])
  }

  ghost predicate SubsFound(lookup: SubLookup, id: int, sk: seq<CatKeys>, ptrs: seq<Ptr>)
    requires |sk| == |ptrs|
  {
    forall ck, key :: var r := LastSub(sk, ck, key);
      ((id, ck, key) in lookup <==> r.Some?) && (r.Some? ==> lookup[(id, ck, key)] == (ptrs[r.value.0], r.value.1))
  }

  /** A lookup that has nothing for difficulty `id`. */
  ghost predicate NoCats(lookup: CatLookup, id: int) {
    forall key :: (id, key) !in lookup
  }

  ghost predicate NoSubs(lookup: SubLookup, id: int) {
    forall ck, key :: (id, ck, key) !in lookup
  }

  ghost predicate SameCatsElsewhere(a: CatLookup, b: CatLookup, id: int) {
    forall k: (int, Text) | k.0 != id :: (k in a <==> k in b) && (k in a ==> a[k] == b[k])
  }

  ghost predicate SameSubsElsewhere(a: SubLookup, b: SubLookup, id: int) {
    forall k: (int, Text, Text) | k.0 != id :: (k in a <==> k in b) && (k in a ==> a[k] == b[k])
  }

  lemma CatsSnoc(lookup: CatLookup, id: int, sk: seq<CatKeys>, ptrs: seq<Ptr>, c: CatKeys, ptr: Ptr)
    requires |sk| == |ptrs| && CatsFound(lookup, id, sk, ptrs)
    ensures CatsFound(lookup[(id, c.key) := ptr], id, sk + [c], ptrs + [ptr])
  {
    assert (sk + [c])[..|sk|] == sk;
  }

  lemma SubsSnoc(lookup: SubLookup, id: int, sk: seq<CatKeys>, ptrs: seq<Ptr>, ck: Text, subs: seq<Text>, s: Text,
                 ptr: Ptr)
    requires |sk| == |ptrs| && SubsFound(lookup, id, sk + [CatKeys(ck, subs)], ptrs + [ptr])
    ensures SubsFound(lookup[(id, ck, s) := (ptr, |subs|)], id, sk + [CatKeys(ck, subs + [s])], ptrs + [ptr])
  {
    var c, c' := CatKeys(ck, subs), CatKeys(ck, subs + [s]);
    assert (sk + [c])[..|sk|] == sk && (sk + [c'])[..|sk|] == sk;
    assert c'.subs[..|subs|] == subs;
    forall k, key
      ensures LastSub(sk + [c'], k, key) == if k == ck && key == s then Some((|sk|, |subs|))
          else LastSub(sk + [c], k, key) {
      assert LastIndex(c'.subs, key) == if key == s then Some(|subs|) else LastIndex(subs, key);
    }
  }

  lemma SubsNewCat(lookup: SubLookup, id: int, sk: seq<CatKeys>, ptrs: seq<Ptr>, key: Text, ptr: Ptr)
    requires |sk| == |ptrs| && SubsFound(lookup, id, sk, ptrs)
    ensures SubsFound(lookup, id, sk + [CatKeys(key, [])], ptrs + [ptr])
  {
    assert (sk + [CatKeys(key, [])])[..|sk|] == sk;
  }

  lemma CatsPut(a: CatLookup, b: CatLookup, id: int, key: Text, ptr: Ptr)
    requires SameCatsElsewhere(a, b, id)
    ensures SameCatsElsewhere(a[(id, key) := ptr], b, id)
  {}

  lemma SubsPut(a: SubLookup, b: SubLookup, id: int, ck: Text, key: Text, to: (Ptr, nat))
    requires SameSubsElsewhere(a, b, id)
    ensures SameSubsElsewhere(a[(id, ck, key) := to], b, id)
  {}

  /** Enters the subcategories of one category. */
  method IndexSubcategories(lower: Text -> Text, id: int, ck: Text, ptr: Ptr, subs: seq<Subcategory>,
                            subLookup0: SubLookup,
                            ghost sk: seq<CatKeys>, ghost ptrs: seq<Ptr>)
    returns (subLookup: SubLookup)
    requires |sk| == |ptrs| && SubsFound(subLookup0, id, sk, ptrs)
    ensures SubsFound(subLookup, id, sk + [CatKeys(ck, Map(SubKey(lower), subs))], ptrs + [ptr])
    ensures SameSubsElsewhere(subLookup, subLookup0, id)
  {
    hide SubsFound, SameCatsElsewhere, SameSubsElsewhere, Key;
    subLookup := subLookup0;
    ghost var keys := Map(SubKey(lower), subs);
    SubsNewCat(subLookup, id, sk, ptrs, ck, ptr);
    assert keys[..0] == [];
    SameSelf(map[], subLookup, id);
    for j := 0 to |subs|
      invariant SubsFound(subLookup, id, sk + [CatKeys(ck, keys[..j])], ptrs + [ptr])
      invariant SameSubsElsewhere(subLookup, subLookup0, id)
    {
      var key := Key(lower, subs[j].info.name);
      SubsSnoc(subLookup, id, sk, ptrs, ck, keys[..j], key, ptr);
      SubsPut(subLookup, subLookup0, id, ck, key, (ptr, j));
      assert keys[..j + 1] == keys[..j] + [key];
      subLookup := subLookup[(id, ck, key) := (ptr, j)];
    }
    assert keys[..|subs|] == keys;
  }

  lemma NothingFound(catLookup: CatLookup, subLookup: SubLookup, id: int)
    requires NoCats(catLookup, id) && NoSubs(subLookup, id)
    ensures CatsFound(catLookup, id, [], []) && SubsFound(subLookup, id, [], [])
  {}

  lemma SameSubsTrans(a: SubLookup, b: SubLookup, c: SubLookup, id: int)
    requires SameSubsElsewhere(a, b, id) && SameSubsElsewhere(b, c, id)
    ensures SameSubsElsewhere(a, c, id)
  {}

  lemma SameSelf(cats: CatLookup, subs: SubLookup, id: int)
    ensures SameCatsElsewhere(cats, cats, id) && SameSubsElsewhere(subs, subs, id)
  {}

  /** Enters the categories and subcategories of one difficulty. */
  method IndexDifficulty(lower: Text -> Text, id: int, cats: seq<Category>, s: Slice, catLookup0: CatLookup,
                         subLookup0: SubLookup)
    returns (catLookup: CatLookup, subLookup: SubLookup)
    requires s.len == |cats| && NoCats(catLookup0, id) && NoSubs(subLookup0, id)
    ensures CatsFound(catLookup, id, Skeleton(lower, cats), Pointers(s))
        && SubsFound(subLookup, id, Skeleton(lower, cats), Pointers(s))
    ensures SameCatsElsewhere(catLookup, catLookup0, id) && SameSubsElsewhere(subLookup, subLookup0, id)
  {
    catLookup, subLookup := catLookup0, subLookup0;
    ghost var sk, ptrs := Skeleton(lower, cats), Pointers(s);
    hide Key, SubKey, CatsFound, SubsFound, NoCats, NoSubs, SameCatsElsewhere, SameSubsElsewhere;
    NothingFound(catLookup, subLookup, id);
    SameSelf(catLookup, subLookup, id);
    assert sk[..0] == [] && ptrs[..0] == [];
    for i := 0 to |cats|
      invariant CatsFound(catLookup, id, sk[..i], ptrs[..i]) && SubsFound(subLookup, id, sk[..i], ptrs[..i])
      invariant SameCatsElsewhere(catLookup, catLookup0, id) && SameSubsElsewhere(subLookup, subLookup0, id)
    {
      var ptr, key := Ptr(s.arr, i), Key(lower, cats[i].info.name);
      CatsSnoc(catLookup, id, sk[..i], ptrs[..i], sk[i], ptr);
      CatsPut(catLookup, catLookup0, id, key, ptr);
      assert sk[..i + 1] == sk[..i] + [sk[i]] && ptrs[..i + 1] == ptrs[..i] + [ptr];
      catLookup := catLookup[(id, key) := ptr];
      ghost var before := subLookup;
      subLookup := IndexSubcategories(lower, id, key, ptr, cats[i].subcategories, subLookup, sk[..i], ptrs[..i]);
      SameSubsTrans(subLookup, before, subLookup0, id);
    }
    assert sk[..|cats|] == sk && ptrs[..|cats|] == ptrs;
  }

  ghost predicate Found(catLookup: CatLookup, subLookup: SubLookup, id: int, sk: seq<CatKeys>, s: Slice) {
    |sk| == s.len && CatsFound(catLookup, id, sk, Pointers(s)) && SubsFound(subLookup, id, sk, Pointers(s))
  }

  lemma FoundElsewhere(cats: CatLookup, subs: SubLookup, cats': CatLookup, subs': SubLookup, other: int, id: int,
                       sk: seq<CatKeys>, s: Slice)
    requires SameCatsElsewhere(cats', cats, other) && SameSubsElsewhere(subs', subs, other) && id != other
    ensures Found(cats, subs, id, sk, s) ==> Found(cats', subs', id, sk, s)
    ensures NoCats(cats, id) && NoSubs(subs, id) ==> NoCats(cats', id) && NoSubs(subs', id)
  {
    if Found(cats, subs, id, sk, s) {
      forall key ensures var r := LastCat(sk, key);
          ((id, key) in cats' <==> r.Some?) && (r.Some? ==> cats'[(id, key)] == Pointers(s)[r.value]) {
        assert (id, key).0 != other;
      }
      forall ck, key ensures var r := LastSub(sk, ck, key);
        ((id, ck, key) in subs' <==> r.Some?)
            && (r.Some? ==> subs'[(id, ck, key)] == (Pointers(s)[r.value.0], r.value.1)) {
        assert (id, ck, key).0 != other;
      }
    }
  }

  // ---- The two memories as difficulty trees ----

  /** The difficulties and categories in memory: all pointers live, distinct and linked to their parents. */
  ghost predicate Forest(diffs: Memory<DiffCell>, cats: Memory<Category>, dPtrs: seq<Ptr>, cPtrs: seq<Ptr>,
                         owners: seq<nat>) {
    && AllValid(diffs, dPtrs) && Injective(dPtrs) && AllValid(cats, cPtrs) && Injective(cPtrs)
    && Linked(View(diffs, dPtrs), owners, cPtrs)
  }

  ghost function ForestTrees(diffs: Memory<DiffCell>, cats: Memory<Category>, dPtrs: seq<Ptr>, cPtrs: seq<Ptr>,
                             owners: seq<nat>): (r: seq<Difficulty>)
    requires Forest(diffs, cats, dPtrs, cPtrs, owners)
    ensures |r| == |dPtrs|
  {
    Trees(View(diffs, dPtrs), owners, View(cats, cPtrs))
  }

  ghost predicate SameKids(a: seq<DiffCell>, b: seq<DiffCell>) {
    |a| == |b| && forall j | 0 <= j < |a| :: a[j].kids == b[j].kids
  }

  /** Storing a new body in a difficulty changes that tree's body only. */
  lemma StoreBody(diffs: Memory<DiffCell>, cats: Memory<Category>, dPtrs: seq<Ptr>, cPtrs: seq<Ptr>, owners: seq<nat>,
                  d: nat, body: DiffBody)
    requires Forest(diffs, cats, dPtrs, cPtrs, owners) && d < |dPtrs|
    ensures Load(diffs, dPtrs[d]).body == ForestTrees(diffs, cats, dPtrs, cPtrs, owners)[d].body
    ensures var diffs' := Store(diffs, dPtrs[d], Load(diffs, dPtrs[d]).(body := body));
      var trees := ForestTrees(diffs, cats, dPtrs, cPtrs, owners);
      && Forest(diffs', cats, dPtrs, cPtrs, owners)
      && ForestTrees(diffs', cats, dPtrs, cPtrs, owners) == trees[d := trees[d].(body := body)]
      && SameKids(View(diffs', dPtrs), View(diffs, dPtrs))
  {
    StoreView(diffs, dPtrs, d, Load(diffs, dPtrs[d]).(body := body));
    hide Group, Injective, AllValid;
    var diffs' := Store(diffs, dPtrs[d], Load(diffs, dPtrs[d]).(body := body));
    var trees := ForestTrees(diffs, cats, dPtrs, cPtrs, owners);
    assert ForestTrees(diffs', cats, dPtrs, cPtrs, owners) == trees[d := trees[d].(body := body)];
  }

  /** Storing a category through a pointer taken from a difficulty's slice changes that tree at that index only. */
  lemma StoreCategory(diffs: Memory<DiffCell>, cats: Memory<Category>, dPtrs: seq<Ptr>, cPtrs: seq<Ptr>,
                      owners: seq<nat>, d: nat, c: nat, v: Category)
    requires Forest(diffs, cats, dPtrs, cPtrs, owners) && d < |dPtrs| && c < View(diffs, dPtrs)[d].kids.len
    ensures var ptr := Pointers(View(diffs, dPtrs)[d].kids)[c];
        var trees := ForestTrees(diffs, cats, dPtrs, cPtrs, owners);
      && Valid(cats, ptr) && c < |trees[d].kids| && Load(cats, ptr) == trees[d].kids[c]
      && Forest(diffs, Store(cats, ptr, v), dPtrs, cPtrs, owners)
      && ForestTrees(diffs, Store(cats, ptr, v), dPtrs, cPtrs, owners) ==
          trees[d := trees[d].(kids := trees[d].kids[c := v])]
  {
    var cells, K := View(diffs, dPtrs), View(cats, cPtrs);
    var ptr := Pointers(cells[d].kids)[c];
    assert |Pointers(cells[d].kids)| == cells[d].kids.len;
    var k := GroupPlace(owners, cPtrs, d, c);
    GroupAt(owners, cPtrs, k);
    GroupAt(owners, K, k);
    StoreView(cats, cPtrs, k, v);
    forall j | 0 <= j < |cells|
      ensures Group(owners, K[k := v], j) == if j == d then Group(owners, K, d)[c := v] else Group(owners, K, j) {
      GroupUpdate(owners, K, k, v, j);
    }
    hide Group, Injective, AllValid, Standing;
    var trees := ForestTrees(diffs, cats, dPtrs, cPtrs, owners);
    assert ForestTrees(diffs, Store(cats, ptr, v), dPtrs, cPtrs, owners) ==
        trees[d := trees[d].(kids := trees[d].kids[c := v])];
  }

  /** Appends a scenario to the subcategory, category or difficulty that the lookups lead to. */
  method AppendScenario(diffs: Memory<DiffCell>, cats: Memory<Category>, diffPtr: Ptr, catLookup: CatLookup,
                        subLookup: SubLookup,
                        id: int, ck: Text, key: Text, x: Scenario,
                        ghost d: nat, ghost sk: seq<CatKeys>, ghost dPtrs: seq<Ptr>, ghost cPtrs: seq<Ptr>,
                        ghost owners: seq<nat>)
    returns (diffs': Memory<DiffCell>, cats': Memory<Category>)
    requires Forest(diffs, cats, dPtrs, cPtrs, owners) && d < |dPtrs| && diffPtr == dPtrs[d]
    requires Found(catLookup, subLookup, id, sk, View(diffs, dPtrs)[d].kids)
    requires HasPlace(ForestTrees(diffs, cats, dPtrs, cPtrs, owners)[d], PlaceOf(sk, ck, key))
    ensures Forest(diffs', cats', dPtrs, cPtrs, owners) && SameKids(View(diffs', dPtrs), View(diffs, dPtrs))
    ensures var trees := ForestTrees(diffs, cats, dPtrs, cPtrs, owners);
      ForestTrees(diffs', cats', dPtrs, cPtrs, owners) == trees[d := AddScenario(trees[d], PlaceOf(sk, ck, key), x)]
  {
    hide Forest, ForestTrees, LastCat, LastSub, AllValid, Injective, Linked;
    diffs', cats' := diffs, cats;
    ghost var trees := ForestTrees(diffs, cats, dPtrs, cPtrs, owners);
    if (id, ck, key) in subLookup {
      var (ptr, s) := subLookup[(id, ck, key)];
      ghost var c := LastSub(sk, ck, key).value.0;
      StoreCategory(diffs, cats, dPtrs, cPtrs, owners, d, c, AddToSub(trees[d].kids[c], s, x));
      cats' := Store(cats, ptr, AddToSub(Load(cats, ptr), s, x));
    } else if (id, ck) in catLookup {
      var ptr := catLookup[(id, ck)];
      ghost var c := LastCat(sk, ck).value;
      StoreCategory(diffs, cats, dPtrs, cPtrs, owners, d, c, AddToCat(trees[d].kids[c], x));
      cats' := Store(cats, ptr, AddToCat(Load(cats, ptr), x));
    } else {
      ForestValid(diffs, cats, dPtrs, cPtrs, owners, d);
      var cell := Load(diffs, diffPtr);
      StoreBody(diffs, cats, dPtrs, cPtrs, owners, d, AddToBody(cell.body, x));
      diffs' := Store(diffs, diffPtr, cell.(body := AddToBody(cell.body, x)));
    }
  }

  lemma ForestValid(diffs: Memory<DiffCell>, cats: Memory<Category>, dPtrs: seq<Ptr>, cPtrs: seq<Ptr>, owners: seq<nat>,
                    d: nat)
    requires Forest(diffs, cats, dPtrs, cPtrs, owners) && d < |dPtrs|
    ensures Valid(diffs, dPtrs[d])
  {}

  // ---- Building the lookups for all difficulties ----

  function Skeletons(lower: Text -> Text, ds: seq<Difficulty>): (r: seq<seq<CatKeys>>)
    ensures |r| == |ds|
  {
    Map((d: Difficulty) => Skeleton(lower, d.kids), ds)
  }

  /** The lookups are right for every difficulty id outside `todo`, and empty for those in it. */
  ghost predicate AllFound(catLookup: CatLookup, subLookup: SubLookup, ids: seq<int>, sks: seq<seq<CatKeys>>,
                           cells: seq<DiffCell>, todo: set<int>)
    requires |ids| == |sks| == |cells|
  {
    forall id <- ids :: var d := LastIndex(ids, id).value;
      if id in todo then NoCats(catLookup, id) && NoSubs(subLookup, id)
      else Found(catLookup, subLookup, id, sks[d], cells[d].kids)
  }

  lemma FoundStep(cats: CatLookup, subs: SubLookup, cats': CatLookup, subs': SubLookup, ids: seq<int>,
                  sks: seq<seq<CatKeys>>, cells: seq<DiffCell>,
                  todo: set<int>, id: int)
    requires |ids| == |sks| == |cells| && AllFound(cats, subs, ids, sks, cells, todo) && id in ids && id in todo
    requires SameCatsElsewhere(cats', cats, id) && SameSubsElsewhere(subs', subs, id)
    requires var d := LastIndex(ids, id).value; Found(cats', subs', id, sks[d], cells[d].kids)
    ensures AllFound(cats', subs', ids, sks, cells, todo - {id})
  {
    hide Found, NoCats, NoSubs, SameCatsElsewhere, SameSubsElsewhere;
    forall other | other in ids && other != id ensures var d := LastIndex(ids, other).value;
      if other in todo then NoCats(cats', other) && NoSubs(subs', other)
      else Found(cats', subs', other, sks[d], cells[d].kids) {
      var d := LastIndex(ids, other).value;
      FoundElsewhere(cats, subs, cats', subs', id, other, sks[d], cells[d].kids);
    }
  }

  /** Enters all difficulties, taking the map in any order. */
  method IndexHierarchy(lower: Text -> Text, diffs: Memory<DiffCell>, cats: Memory<Category>, byID: map<int, Ptr>,
                        ghost ids: seq<int>, ghost dPtrs: seq<Ptr>, ghost cPtrs: seq<Ptr>, ghost owners: seq<nat>)
    returns (catLookup: CatLookup, subLookup: SubLookup)
    requires Forest(diffs, cats, dPtrs, cPtrs, owners) && Index(byID, ids, dPtrs)
    requires forall c <- View(diffs, dPtrs) :: ValidSlice(cats, c.kids)
    ensures AllFound(catLookup, subLookup, ids, Skeletons(lower, ForestTrees(diffs, cats, dPtrs, cPtrs, owners)),
                     View(diffs, dPtrs), {})
  {
    catLookup, subLookup := map[], map[];
    ghost var cells := View(diffs, dPtrs);
    ghost var trees := ForestTrees(diffs, cats, dPtrs, cPtrs, owners);
    var todo := byID.Keys;
    assert AllFound(catLookup, subLookup, ids, Skeletons(lower, trees), cells, todo);
    hide AllFound, NoCats, NoSubs, SameCatsElsewhere, SameSubsElsewhere, Skeleton, CatsFound, SubsFound, Injective,
        LastIndex;
    while todo != {}
      invariant todo <= byID.Keys && AllFound(catLookup, subLookup, ids, Skeletons(lower, trees), cells, todo)
      decreases |todo|
    {
      SomeElement(todo);
      var id :| id in todo;
      ghost var d := LastIndex(ids, id).value;
      var cell := Load(diffs, byID[id]);
      assert cell == cells[d] && cell in cells;
      SliceIsGroup(cats, cells, owners, cPtrs, d);
      NothingYet(catLookup, subLookup, ids, Skeletons(lower, trees), cells, todo, id);
      var catLookup', subLookup' := IndexDifficulty(lower, id, Contents(cats, cell.kids), cell.kids, catLookup,
          subLookup);
      FoundStep(catLookup, subLookup, catLookup', subLookup', ids, Skeletons(lower, trees), cells, todo, id);
      catLookup, subLookup := catLookup', subLookup';
      todo := todo - {id};
    }
  }

  lemma NothingYet(catLookup: CatLookup, subLookup: SubLookup, ids: seq<int>, sks: seq<seq<CatKeys>>,
                   cells: seq<DiffCell>, todo: set<int>, id: int)
    requires |ids| == |sks| == |cells| && AllFound(catLookup, subLookup, ids, sks, cells, todo) && id in ids
        && id in todo
    ensures NoCats(catLookup, id) && NoSubs(subLookup, id)
  {}

  // ---- Attaching the links ----

  lemma SkeletonsStay(lower: Text -> Text, ds: seq<Difficulty>, ids: seq<int>, links: seq<Item<LinkInfo>>)
    ensures Skeletons(lower, WithLinks(lower, ds, ids, links)) == Skeletons(lower, ds)
  {
    hide PlaceAll, Skeleton;
    var after := WithLinks(lower, ds, ids, links);
    forall j | 0 <= j < |ds| ensures Skeleton(lower, after[j].kids) == Skeleton(lower, ds[j].kids) {
      SkeletonOfAll(lower, ds[j], ItemsOf(ids, links, j));
    }
    assert Skeletons(lower, after) == Skeletons(lower, ds);
  }

  lemma PlaceAllSnoc(lower: Text -> Text, d: Difficulty, links: seq<LinkInfo>, link: LinkInfo)
    ensures PlaceAll(lower, d, links + [link]) == PlaceLink(lower, PlaceAll(lower, d, links), link)
  {
    hide PlaceLink;
    assert (links + [link])[..|links|] == links;
  }

  lemma ItemsSnoc<I>(ids: seq<int>, items: seq<Item<I>>, item: Item<I>, p: nat)
    ensures ItemsOf(ids, items + [item], p) == ItemsOf(ids, items, p) + if LastIndex(ids, item.parentID) == Some(p)
        then [item.info] else []
  {
    hide LastIndex;
    assert (items + [item])[..|items|] == items;
  }

  /** One more link changes the tree of its difficulty only. */
  lemma LinkStep(lower: Text -> Text, ds: seq<Difficulty>, ids: seq<int>, links: seq<Item<LinkInfo>>,
                 link: Item<LinkInfo>)
    requires |ds| == |ids|
    ensures var o := LastIndex(ids, link.parentID); var before := WithLinks(lower, ds, ids, links);
      WithLinks(lower, ds, ids, links + [link]) == if o.None? then before
          else before[o.value := PlaceLink(lower, before[o.value], link.info)]
  {
    var o, before, after := LastIndex(ids, link.parentID), WithLinks(lower, ds, ids, links),
        WithLinks(lower, ds, ids, links + [link]);
    hide PlaceLink, PlaceAll, ItemsOf, LastIndex;
    forall j | 0 <= j < |ds|
      ensures after[j] == if o == Some(j) then PlaceLink(lower, before[j], link.info) else before[j] {
      ItemsSnoc(ids, links, link, j);
      var items := ItemsOf(ids, links, j);
      assert items + [] == items;
      PlaceAllSnoc(lower, ds[j], ItemsOf(ids, links, j), link.info);
    }
  }

  lemma DecodeSnoc(ids: seq<int>, links: seq<Item<LinkInfo>>, link: Item<LinkInfo>)
    ensures LinksDecode(ids, links + [link]) <==>
        LinksDecode(ids, links) && (LastIndex(ids, link.parentID).Some? ==> link.info.thresholds.Some?)
  {
    hide LastIndex;
    assert forall l <- links :: l in links + [link];
    assert link in links + [link];
  }

  lemma DecodePrefix(ids: seq<int>, links: seq<Item<LinkInfo>>, n: nat)
    requires n <= |links| && !LinksDecode(ids, links[..n])
    ensures !LinksDecode(ids, links)
  {}

  /** What holds after the links in `done`. */
  ghost predicate Linking(lower: Text -> Text, diffs: Memory<DiffCell>, cats: Memory<Category>,
                          diffs0: Memory<DiffCell>, cats0: Memory<Category>,
                          ids: seq<int>, done: seq<Item<LinkInfo>>, dPtrs: seq<Ptr>, cPtrs: seq<Ptr>,
                          owners: seq<nat>) {
    && Forest(diffs0, cats0, dPtrs, cPtrs, owners) && Forest(diffs, cats, dPtrs, cPtrs, owners)
    && SameKids(View(diffs, dPtrs), View(diffs0, dPtrs))
    && ForestTrees(diffs, cats, dPtrs, cPtrs, owners) ==
        WithLinks(lower, ForestTrees(diffs0, cats0, dPtrs, cPtrs, owners), ids, done)
  }

  lemma LinkingStart(lower: Text -> Text, diffs: Memory<DiffCell>, cats: Memory<Category>, ids: seq<int>,
                     dPtrs: seq<Ptr>, cPtrs: seq<Ptr>, owners: seq<nat>)
    requires Forest(diffs, cats, dPtrs, cPtrs, owners)
    ensures Linking(lower, diffs, cats, diffs, cats, ids, [], dPtrs, cPtrs, owners)
  {
    hide Forest, Group;
    var trees := ForestTrees(diffs, cats, dPtrs, cPtrs, owners);
    assert WithLinks(lower, trees, ids, []) == trees;
  }

  lemma LinkReady(lower: Text -> Text, diffs: Memory<DiffCell>, cats: Memory<Category>, diffs0: Memory<DiffCell>,
                  cats0: Memory<Category>,
                  ids: seq<int>, done: seq<Item<LinkInfo>>, dPtrs: seq<Ptr>, cPtrs: seq<Ptr>, owners: seq<nat>,
                  byID: map<int, Ptr>, catLookup: CatLookup, subLookup: SubLookup, link: Item<LinkInfo>)
    returns (d: nat, sk: seq<CatKeys>)
    requires Linking(lower, diffs, cats, diffs0, cats0, ids, done, dPtrs, cPtrs, owners) && Index(byID, ids, dPtrs)
    requires AllFound(catLookup, subLookup, ids, Skeletons(lower, ForestTrees(diffs0, cats0, dPtrs, cPtrs, owners)),
                      View(diffs0, dPtrs), {})
    requires link.parentID in byID
    ensures LastIndex(ids, link.parentID) == Some(d) && d < |dPtrs| && byID[link.parentID] == dPtrs[d]
    ensures Found(catLookup, subLookup, link.parentID, sk, View(diffs, dPtrs)[d].kids)
    ensures sk == Skeleton(lower, ForestTrees(diffs, cats, dPtrs, cPtrs, owners)[d].kids)
    ensures Forest(diffs, cats, dPtrs, cPtrs, owners)
    ensures HasPlace(ForestTrees(diffs, cats, dPtrs, cPtrs, owners)[d], LinkPlace(lower, sk, link.info))
  {
    d := LastIndex(ids, link.parentID).value;
    var trees0, trees := ForestTrees(diffs0, cats0, dPtrs, cPtrs, owners),
        ForestTrees(diffs, cats, dPtrs, cPtrs, owners);
    assert Found(catLookup, subLookup, link.parentID, Skeletons(lower, trees0)[d], View(diffs, dPtrs)[d].kids);
    hide Found, AllFound, Linked, Forest, ForestTrees, PlaceOf, HasPlace, IsPlace, Skeleton, Key, LinkPlace, WithLinks,
        LastIndex;
    SkeletonsStay(lower, trees0, ids, done);
    sk := Skeletons(lower, trees)[d];
    SkeletonPlaces(lower, trees[d], LinkPlace(lower, sk, link.info));
  }

  lemma LinkingStep(lower: Text -> Text, diffs: Memory<DiffCell>, cats: Memory<Category>, diffs': Memory<DiffCell>,
                    cats': Memory<Category>,
                    diffs0: Memory<DiffCell>, cats0: Memory<Category>, ids: seq<int>, done: seq<Item<LinkInfo>>,
                    dPtrs: seq<Ptr>, cPtrs: seq<Ptr>, owners: seq<nat>, link: Item<LinkInfo>, d: nat)
    requires Linking(lower, diffs, cats, diffs0, cats0, ids, done, dPtrs, cPtrs, owners) && |ids| == |dPtrs|
    requires LastIndex(ids, link.parentID) == Some(d) && d < |dPtrs|
    requires Forest(diffs', cats', dPtrs, cPtrs, owners) && SameKids(View(diffs', dPtrs), View(diffs, dPtrs))
    requires var trees := ForestTrees(diffs, cats, dPtrs, cPtrs, owners);
      ForestTrees(diffs', cats', dPtrs, cPtrs, owners) == trees[d := PlaceLink(lower, trees[d], link.info)]
    ensures Linking(lower, diffs', cats', diffs0, cats0, ids, done + [link], dPtrs, cPtrs, owners)
  {
    hide Forest, ForestTrees, PlaceLink, WithLinks, LastIndex;
    LinkStep(lower, ForestTrees(diffs0, cats0, dPtrs, cPtrs, owners), ids, done, link);
  }

  lemma LinkingSkip(lower: Text -> Text, diffs: Memory<DiffCell>, cats: Memory<Category>, diffs0: Memory<DiffCell>,
                    cats0: Memory<Category>,
                    ids: seq<int>, done: seq<Item<LinkInfo>>, dPtrs: seq<Ptr>, cPtrs: seq<Ptr>, owners: seq<nat>,
                    link: Item<LinkInfo>)
    requires Linking(lower, diffs, cats, diffs0, cats0, ids, done, dPtrs, cPtrs, owners) && |ids| == |dPtrs|
    requires LastIndex(ids, link.parentID).None?
    ensures Linking(lower, diffs, cats, diffs0, cats0, ids, done + [link], dPtrs, cPtrs, owners)
  {
    hide Forest, ForestTrees, PlaceLink, WithLinks, LastIndex;
    LinkStep(lower, ForestTrees(diffs0, cats0, dPtrs, cPtrs, owners), ids, done, link);
  }

  /** Attaches every link of a listed difficulty; None if the thresholds of one are malformed. */
  method AttachScenarioLinks(lower: Text -> Text, diffs0: Memory<DiffCell>, cats0: Memory<Category>,
                             byID: map<int, Ptr>, links: seq<Item<LinkInfo>>,
                             ghost ids: seq<int>, ghost dPtrs: seq<Ptr>, ghost cPtrs: seq<Ptr>, ghost owners: seq<nat>)
    returns (r: Option<(Memory<DiffCell>, Memory<Category>)>)
    requires Forest(diffs0, cats0, dPtrs, cPtrs, owners) && Index(byID, ids, dPtrs)
    requires forall c <- View(diffs0, dPtrs) :: ValidSlice(cats0, c.kids)
    ensures r.Some? <==> LinksDecode(ids, links)
    ensures r.Some? ==> Linking(lower, r.value.0, r.value.1, diffs0, cats0, ids, links, dPtrs, cPtrs, owners)
  {
    var catLookup, subLookup := IndexHierarchy(lower, diffs0, cats0, byID, ids, dPtrs, cPtrs, owners);
    var diffs, cats := diffs0, cats0;
    LinkingStart(lower, diffs, cats, ids, dPtrs, cPtrs, owners);
    assert links[..0] == [] && LinksDecode(ids, []);
    hide AllFound, Linked, Forest, ForestTrees, LinksDecode, PlaceOf, HasPlace, IsPlace, Skeleton, Skeletons, Key,
        WithLinks, LastIndex, Found, SameKids, AddScenario;
    hide Linking;
    for i := 0 to |links|
      invariant LinksDecode(ids, links[..i])
      invariant Linking(lower, diffs, cats, diffs0, cats0, ids, links[..i], dPtrs, cPtrs, owners)
    {
      var link := links[i];
      assert links[..i + 1] == links[..i] + [link];
      DecodeSnoc(ids, links[..i], link);
      if link.parentID !in byID {
        LinkingSkip(lower, diffs, cats, diffs0, cats0, ids, links[..i], dPtrs, cPtrs, owners, link);
        continue;
      }
      ghost var d, sk := LinkReady(lower, diffs, cats, diffs0, cats0, ids, links[..i], dPtrs, cPtrs, owners, byID,
                                   catLookup, subLookup, link);
      if link.info.thresholds.None? {
        DecodePrefix(ids, links, i + 1);
        return None;
      }
      var diffs', cats' := AppendScenario(diffs, cats, byID[link.parentID], catLookup, subLookup,
        link.parentID, Key(lower, link.info.category), Key(lower, link.info.subcategory),
            Scenario(link.info.scenario, link.info.thresholds.value),
        d, sk, dPtrs, cPtrs, owners);
      LinkingStep(lower, diffs, cats, diffs', cats', diffs0, cats0, ids, links[..i], dPtrs, cPtrs, owners, link, d);
      diffs, cats := diffs', cats';
    }
    assert links[..|links|] == links;
    r := Some((diffs, cats));
  }
}
