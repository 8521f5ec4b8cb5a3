/** Attaching child rows to parents through a map of pointers, in pre-sized slices. */
module Attaching {
  import opened Wrappers
  import opened Grouping
  import opened GoMemory

  /** A node in memory: its own fields, and the slice that holds its children. */
  datatype Cell<B> = Cell(body: B, kids: Slice)

  /** The map from ids to pointers: each id leads to the last node with that id. */
  ghost predicate Index(byID: map<int, Ptr>, ids: seq<int>, ptrs: seq<Ptr>) {
    && |ids| == |ptrs|
    && (forall id :: id in byID <==> id in ids)
    && forall id <- byID :: byID[id] == ptrs[LastIndex(ids, id).value]
  }

  lemma IndexSnoc(byID: map<int, Ptr>, ids: seq<int>, ptrs: seq<Ptr>, id: int, ptr: Ptr)
    requires Index(byID, ids, ptrs)
    ensures Index(byID[id := ptr], ids + [id], ptrs + [ptr])
  {
    var ids' := ids + [id];
    assert ids'[..|ids|] == ids;
    forall x | x in byID && x != id ensures LastIndex(ids', x) == LastIndex(ids, x) {}
  }

  /** The slice of each parent holds exactly its own children, in row order. */
  ghost predicate Linked<B>(cells: seq<Cell<B>>, owners: seq<nat>, kidPtrs: seq<Ptr>) {
    && |owners| == |kidPtrs|
    && forall p | 0 <= p < |cells| :: Pointers(cells[p].kids) == Group(owners, kidPtrs, p)
  }

  /** The room that parent p needs, when the counts in `todo` are not yet handled. */
  function Need(ids: seq<int>, counts: map<int, nat>, todo: set<int>, p: nat): nat
    requires p < |ids|
  {
    if LastIndex(ids, ids[p]) == Some(p) && ids[p] in counts && ids[p] !in todo then counts[ids[p]] else 0
  }

  /** Each parent's backing array has exactly the room it needs. */
  ghost predicate Sized<B, C>(cells: seq<Cell<B>>, kids: Memory<C>, ids: seq<int>, counts: map<int, nat>,
                              todo: set<int>) {
    && |ids| == |cells|
    && forall p | 0 <= p < |cells| ::
      ValidSlice(kids, cells[p].kids) && |kids[cells[p].kids.arr]| == Need(ids, counts, todo, p)
  }

  /** Two parents never share an array that has room for an element. */
  ghost predicate Apart<B, C>(cells: seq<Cell<B>>, kids: Memory<C>) {
    forall p, q | 0 <= p < q < |cells| && cells[p].kids.arr == cells[q].kids.arr && cells[p].kids.arr < |kids| ::
      kids[cells[p].kids.arr] == []
  }

  ghost predicate CountsOf<I>(counts: map<int, nat>, rows: seq<Row<I>>) {
    && (forall fk <- counts :: counts[fk] == CountOf(rows, fk))
    && (forall i | 0 <= i < |rows| :: rows[i].parentID in counts)
  }

  ghost predicate SameBodies<B>(a: seq<Cell<B>>, b: seq<Cell<B>>) {
    |a| == |b| && forall p | 0 <= p < |a| :: a[p].body == b[p].body
  }

  method CountRows<I>(rows: seq<Row<I>>) returns (counts: map<int, nat>)
    ensures CountsOf(counts, rows)
  {
    counts := map[];
    for i := 0 to |rows|
      invariant CountsOf(counts, rows[..i])
      invariant forall fk | fk !in counts :: CountOf(rows[..i], fk) == 0
    {
      var fk := rows[i].parentID;
      assert rows[..i + 1][..i] == rows[..i];
      counts := counts[fk := (if fk in counts then counts[fk] else 0) + 1];
    }
    assert rows[..|rows|] == rows;
  }

  lemma PresizeSized<B, C>(cells: seq<Cell<B>>, kids: Memory<C>, ids: seq<int>, counts: map<int, nat>, todo: set<int>,
                           p: nat, fk: int, zero: C)
    requires Sized(cells, kids, ids, counts, todo) && LastIndex(ids, fk) == Some(p) && fk in todo && fk in counts
    ensures var (kids', s) := Make(kids, counts[fk], zero);
      Sized(cells[p := cells[p].(kids := s)], kids', ids, counts, todo - {fk})
  {
    var (kids', s) := Make(kids, counts[fk], zero);
    assert Need(ids, counts, todo - {fk}, p) == counts[fk];
    assert forall q | 0 <= q < |cells| && q != p :: Need(ids, counts, todo - {fk}, q) == Need(ids, counts, todo, q);
    assert forall a | 0 <= a < |kids| :: kids'[a] == kids[a];
    hide Need, LastIndex;
  }

  lemma PresizeApart<B, C>(cells: seq<Cell<B>>, kids: Memory<C>, p: nat, cap: nat, zero: C)
    requires Apart(cells, kids) && p < |cells| && forall q | 0 <= q < |cells| :: ValidSlice(kids, cells[q].kids)
    ensures var (kids', s) := Make(kids, cap, zero);
      Apart(cells[p := cells[p].(kids := s)], kids')
  {
    var (kids', s) := Make(kids, cap, zero);
    assert forall a | 0 <= a < |kids| :: kids'[a] == kids[a];
  }

  lemma SomeElement(s: set<int>)
    requires s != {}
    ensures exists x :: x in s
  {
    var none: set<int> := {};
    assert (forall x :: x !in s) ==> s == none;
  }

  /** What the first part of attaching establishes, once the counts outside `todo` are handled. */
  ghost predicate Presized<B, C>(parents: Memory<Cell<B>>, kids: Memory<C>, before: Memory<Cell<B>>, ids: seq<int>,
                                 ptrs: seq<Ptr>,
                                 counts: map<int, nat>, todo: set<int>) {
    && AllValid(before, ptrs) && AllValid(parents, ptrs) && SameBodies(View(parents, ptrs), View(before, ptrs))
    && Sized(View(parents, ptrs), kids, ids, counts, todo) && Apart(View(parents, ptrs), kids)
    && forall c <- View(parents, ptrs) :: c.kids.len == 0
  }

  lemma PresizeStart<B, C>(before: Memory<Cell<B>>, ids: seq<int>, ptrs: seq<Ptr>, counts: map<int, nat>)
    requires |ids| == |ptrs| && AllValid(before, ptrs) && forall c <- View(before, ptrs) :: c.kids == EMPTY
    ensures var kids: Memory<C> := [[]]; Presized(before, kids, before, ids, ptrs, counts, counts.Keys)
  {
    var kids: Memory<C> := [[]];
    var cells := View(before, ptrs);
    assert forall p | 0 <= p < |cells| :: cells[p] in cells;
    hide LastIndex;
  }

  lemma PresizeStep<B, C>(parents: Memory<Cell<B>>, kids: Memory<C>, before: Memory<Cell<B>>, byID: map<int, Ptr>,
                          ids: seq<int>, ptrs: seq<Ptr>,
                          counts: map<int, nat>, todo: set<int>, fk: int, zero: C)
    requires Presized(parents, kids, before, ids, ptrs, counts, todo) && Index(byID, ids, ptrs) && Injective(ptrs)
    requires fk in byID && fk in todo && fk in counts
    ensures Valid(parents, byID[fk])
    ensures var (kids', s) := Make(kids, counts[fk], zero);
      Presized(Store(parents, byID[fk], Load(parents, byID[fk]).(kids := s)), kids', before, ids, ptrs, counts,
               todo - {fk})
  {
    var p := LastIndex(ids, fk).value;
    var cells := View(parents, ptrs);
    assert byID[fk] == ptrs[p];
    PresizeSized(cells, kids, ids, counts, todo, p, fk, zero);
    assert forall q | 0 <= q < |cells| :: ValidSlice(kids, cells[q].kids);
    hide Sized;
    PresizeApart(cells, kids, p, counts[fk], zero);
    hide Apart, LastIndex, Index;
    StoreView(parents, ptrs, p, cells[p].(kids := Slice(|kids|, 0)));
  }

  lemma PresizeSkip<B, C>(parents: Memory<Cell<B>>, kids: Memory<C>, before: Memory<Cell<B>>, byID: map<int, Ptr>,
                          ids: seq<int>, ptrs: seq<Ptr>,
                          counts: map<int, nat>, todo: set<int>, fk: int)
    requires Presized(parents, kids, before, ids, ptrs, counts, todo) && Index(byID, ids, ptrs) && fk !in byID
    ensures Presized(parents, kids, before, ids, ptrs, counts, todo - {fk})
  {
    hide Apart, SameBodies, LastIndex;
    forall p | 0 <= p < |ids| ensures Need(ids, counts, todo, p) == Need(ids, counts, todo - {fk}, p) {
      assert ids[p] in ids;
    }
  }

  /** Gives every parent that has rows a slice with room for all of them, taking the counts in any order. */
  method Presize<B, C>(parents0: Memory<Cell<B>>, byID: map<int, Ptr>, counts: map<int, nat>, zero: C,
                       ghost ids: seq<int>, ghost ptrs: seq<Ptr>)
    returns (parents: Memory<Cell<B>>, kids: Memory<C>)
    requires Index(byID, ids, ptrs) && AllValid(parents0, ptrs) && Injective(ptrs)
    requires forall c <- View(parents0, ptrs) :: c.kids == EMPTY
    ensures Presized(parents, kids, parents0, ids, ptrs, counts, {})
  {
    PresizeStart<B, C>(parents0, ids, ptrs, counts);
    hide *;
    parents, kids := parents0, [[]];
    var todo := counts.Keys;
    while todo != {}
      invariant todo <= counts.Keys && Presized(parents, kids, parents0, ids, ptrs, counts, todo)
      decreases |todo|
    {
      SomeElement(todo);
      var fk :| fk in todo;
      if fk in byID {
        PresizeStep(parents, kids, parents0, byID, ids, ptrs, counts, todo, fk, zero);
        var (kids', s) := Make(kids, counts[fk], zero);
        parents, kids := Store(parents, byID[fk], Load(parents, byID[fk]).(kids := s)), kids';
      } else {
        PresizeSkip(parents, kids, parents0, byID, ids, ptrs, counts, todo, fk);
      }
      todo := todo - {fk};
    }
  }

  // ---- Appending one row ----

  lemma HasRoom<B, C, I>(cells: seq<Cell<B>>, kids: Memory<C>, ids: seq<int>, counts: map<int, nat>, rows: seq<Row<I>>,
                         i: nat, kidPtrs: seq<Ptr>, p: nat)
    requires i < |rows| && LastIndex(ids, rows[i].parentID) == Some(p)
    requires Sized(cells, kids, ids, counts, {}) && CountsOf(counts, rows)
        && Linked(cells, Owners(ids, rows[..i]), kidPtrs)
    ensures p < |cells| && cells[p].kids.len < |kids[cells[p].kids.arr]|
  {
    GroupCount(ids, rows[..i], kidPtrs, p);
    CountPrefix(rows, i, ids[p]);
    assert |Pointers(cells[p].kids)| == cells[p].kids.len;
  }

  /** Every child pointer lies in the live part of its parent's array. */
  lemma KidInSlice<B>(cells: seq<Cell<B>>, owners: seq<nat>, kidPtrs: seq<Ptr>, j: nat)
    requires Linked(cells, owners, kidPtrs) && j < |kidPtrs| && owners[j] < |cells|
    ensures var s := cells[owners[j]].kids; kidPtrs[j] == Ptr(s.arr, Standing(owners, j)) && Standing(owners, j) < s.len
  {
    GroupAt(owners, kidPtrs, j);
    var s := cells[owners[j]].kids;
    assert Pointers(s)[Standing(owners, j)] == kidPtrs[j];
  }

  lemma NextIsNew<B, C>(cells: seq<Cell<B>>, kids: Memory<C>, ids: seq<int>, counts: map<int, nat>, owners: seq<nat>,
                        kidPtrs: seq<Ptr>, p: nat)
    requires Sized(cells, kids, ids, counts, {}) && Apart(cells, kids) && Linked(cells, owners, kidPtrs)
    requires p < |cells| && forall o <- owners :: o < |cells|
    requires cells[p].kids.len < |kids[cells[p].kids.arr]|
    ensures Ptr(cells[p].kids.arr, cells[p].kids.len) !in kidPtrs
  {
    forall j | 0 <= j < |kidPtrs| ensures kidPtrs[j] != Ptr(cells[p].kids.arr, cells[p].kids.len) {
      assert owners[j] in owners;
      KidInSlice(cells, owners, kidPtrs, j);
    }
  }

  lemma AppendKeepsSized<B, C>(cells: seq<Cell<B>>, kids: Memory<C>, ids: seq<int>, counts: map<int, nat>, p: nat, x: C)
    requires Sized(cells, kids, ids, counts, {}) && p < |cells|
    requires cells[p].kids.len < |kids[cells[p].kids.arr]|
    ensures var (kids', s) := Append(kids, cells[p].kids, x);
      Sized(cells[p := cells[p].(kids := s)], kids', ids, counts, {})
  {
    var (kids', s) := Append(kids, cells[p].kids, x);
    assert forall a | 0 <= a < |kids| :: |kids'[a]| == |kids[a]|;
  }

  lemma AppendKeepsApart<B, C>(cells: seq<Cell<B>>, kids: Memory<C>, p: nat, x: C)
    requires Apart(cells, kids) && p < |cells| && cells[p].kids.arr < |kids|
    requires cells[p].kids.len < |kids[cells[p].kids.arr]|
    ensures var (kids', s) := Append(kids, cells[p].kids, x);
      Apart(cells[p := cells[p].(kids := s)], kids')
  {
    var (kids', s) := Append(kids, cells[p].kids, x);
    var cells' := cells[p := cells[p].(kids := s)];
    assert forall q | 0 <= q < |cells| :: cells'[q].kids.arr == cells[q].kids.arr;
    assert forall a | 0 <= a < |kids| :: |kids'[a]| == |kids[a]|;
  }

  lemma AppendLinks<B>(cells: seq<Cell<B>>, owners: seq<nat>, kidPtrs: seq<Ptr>, p: nat)
    requires Linked(cells, owners, kidPtrs) && p < |cells|
    ensures var s := cells[p].kids;
      Linked(cells[p := cells[p].(kids := Slice(s.arr, s.len + 1))], owners + [p], kidPtrs + [Ptr(s.arr, s.len)])
  {
    var s := cells[p].kids;
    var s' := Slice(s.arr, s.len + 1);
    forall q | 0 <= q < |cells|
      ensures Group(owners + [p], kidPtrs + [Ptr(s.arr, s.len)], q) == Group(owners, kidPtrs, q) + if q == p
          then [Ptr(s.arr, s.len)] else [] {
      GroupSnoc(owners, kidPtrs, p, Ptr(s.arr, s.len), q);
    }
    assert Pointers(s') == Pointers(s) + [Ptr(s.arr, s.len)];
  }

  lemma AppendView<C>(kids: Memory<C>, s: Slice, x: C, kidPtrs: seq<Ptr>)
    requires ValidSlice(kids, s) && s.len < |kids[s.arr]|
    requires AllValid(kids, kidPtrs) && Injective(kidPtrs) && Ptr(s.arr, s.len) !in kidPtrs
    ensures var (kids', _) := Append(kids, s, x); var kidPtrs' := kidPtrs + [Ptr(s.arr, s.len)];
      AllValid(kids', kidPtrs') && Injective(kidPtrs') && View(kids', kidPtrs') == View(kids, kidPtrs) + [x]
  {
    var (kids', _) := Append(kids, s, x);
    var kidPtrs' := kidPtrs + [Ptr(s.arr, s.len)];
    forall j | 0 <= j < |kidPtrs'|
      ensures Valid(kids', kidPtrs'[j]) && Load(kids', kidPtrs'[j]) == (View(kids, kidPtrs) + [x])[j] {
      if j < |kidPtrs| {
        assert kidPtrs[j] in kidPtrs;
      }
    }
  }

  /** The cells that rows start as. */
  function CellsOf<C, I>(rows: seq<Row<I>>, cellOf: I -> C): (r: seq<C>)
    ensures |r| == |rows|
  {
    Map((r: Row<I>) => cellOf(r.info), rows)
  }

  /** What holds after the first i rows. */
  ghost predicate Attached<B, C, I>(cells: seq<Cell<B>>, kids: Memory<C>, ids: seq<int>, rows: seq<Row<I>>,
                                    out: map<int, Ptr>, kidPtrs: seq<Ptr>, cellOf: I -> C) {
    && Linked(cells, Owners(ids, rows), kidPtrs)
    && AllValid(kids, kidPtrs) && Injective(kidPtrs)
    && View(kids, kidPtrs) == CellsOf(Live(ids, rows), cellOf)
    && Index(out, Ids(Live(ids, rows)), kidPtrs)
  }

  lemma AttachStep<B, C, I>(cells: seq<Cell<B>>, kids: Memory<C>, ids: seq<int>, counts: map<int, nat>,
                            rows: seq<Row<I>>, row: Row<I>,
                            out: map<int, Ptr>, kidPtrs: seq<Ptr>, cellOf: I -> C, p: nat)
    requires Sized(cells, kids, ids, counts, {}) && Apart(cells, kids)
        && Attached(cells, kids, ids, rows, out, kidPtrs, cellOf)
    requires LastIndex(ids, row.parentID) == Some(p) && p < |cells| && cells[p].kids.len < |kids[cells[p].kids.arr]|
    ensures var (kids', s) := Append(kids, cells[p].kids, cellOf(row.info)); var ptr := Ptr(s.arr, s.len - 1);
      Attached(cells[p := cells[p].(kids := s)], kids', ids, rows + [row], out[row.id := ptr], kidPtrs + [ptr], cellOf)
  {
    var owners, live := Owners(ids, rows), Live(ids, rows);
    hide LastIndex, Owners, Live, Ids, Map;
    LiveSnoc(ids, rows, row, cellOf);
    NextIsNew(cells, kids, ids, counts, owners, kidPtrs, p);
    AppendLinks(cells, owners, kidPtrs, p);
    AppendView(kids, cells[p].kids, cellOf(row.info), kidPtrs);
    IndexSnoc(out, Ids(live), kidPtrs, row.id, Ptr(cells[p].kids.arr, cells[p].kids.len));
    hide Linked, Sized, Apart, Index, AllValid, Injective, View;
  }

  lemma LiveSnoc<C, I>(ids: seq<int>, rows: seq<Row<I>>, row: Row<I>, cellOf: I -> C)
    ensures var o, live := LastIndex(ids, row.parentID), Live(ids, rows);
      if o.None? then Live(ids, rows + [row]) == live && Owners(ids, rows + [row]) == Owners(ids, rows)
      else
        && Live(ids, rows + [row]) == live + [row] && Owners(ids, rows + [row]) == Owners(ids, rows) + [o.value]
        && Ids(live + [row]) == Ids(live) + [row.id]
        && CellsOf(live + [row], cellOf) == CellsOf(live, cellOf) + [cellOf(row.info)]
  {
    hide LastIndex;
    assert (rows + [row])[..|rows|] == rows;
    var live := Live(ids, rows);
    assert Owners(ids, rows) + [] == Owners(ids, rows) && live + [] == live;
    assert Ids(live + [row]) == Ids(live) + [row.id];
    assert CellsOf(live + [row], cellOf) == CellsOf(live, cellOf) + [cellOf(row.info)];
  }

  lemma AttachSkip<B, C, I>(cells: seq<Cell<B>>, kids: Memory<C>, ids: seq<int>, rows: seq<Row<I>>, row: Row<I>,
                            out: map<int, Ptr>, kidPtrs: seq<Ptr>, cellOf: I -> C)
    requires Attached(cells, kids, ids, rows, out, kidPtrs, cellOf) && LastIndex(ids, row.parentID).None?
    ensures Attached(cells, kids, ids, rows + [row], out, kidPtrs, cellOf)
  {
    hide LastIndex, Owners, Live, Ids, CellsOf, Linked, AllValid, Injective, Index;
    LiveSnoc(ids, rows, row, cellOf);
  }

  /** What holds after the rows in `done`. */
  ghost predicate Building<B, C, I>(parents: Memory<Cell<B>>, kids: Memory<C>, before: Memory<Cell<B>>, ids: seq<int>,
                                    ptrs: seq<Ptr>,
                                    counts: map<int, nat>, done: seq<Row<I>>, out: map<int, Ptr>, kidPtrs: seq<Ptr>,
                                    cellOf: I -> C) {
    && AllValid(before, ptrs) && AllValid(parents, ptrs) && SameBodies(View(parents, ptrs), View(before, ptrs))
    && Sized(View(parents, ptrs), kids, ids, counts, {}) && Apart(View(parents, ptrs), kids)
    && Attached(View(parents, ptrs), kids, ids, done, out, kidPtrs, cellOf)
  }

  lemma BuildStart<B, C, I>(parents: Memory<Cell<B>>, kids: Memory<C>, before: Memory<Cell<B>>, ids: seq<int>,
                            ptrs: seq<Ptr>,
                            counts: map<int, nat>, cellOf: I -> C)
    requires Presized(parents, kids, before, ids, ptrs, counts, {})
    ensures Building(parents, kids, before, ids, ptrs, counts, [], map[], [], cellOf)
  {
    hide Sized, Apart, SameBodies;
    var cells := View(parents, ptrs);
    forall p | 0 <= p < |cells| ensures Pointers(cells[p].kids) == [] {
      assert cells[p] in cells;
    }
  }

  lemma BuildStep<B, C, I>(parents: Memory<Cell<B>>, kids: Memory<C>, before: Memory<Cell<B>>, byID: map<int, Ptr>,
                           ids: seq<int>, ptrs: seq<Ptr>,
                           counts: map<int, nat>, rows: seq<Row<I>>, i: nat, out: map<int, Ptr>, kidPtrs: seq<Ptr>,
                           cellOf: I -> C)
    requires i < |rows| && CountsOf(counts, rows) && Index(byID, ids, ptrs) && Injective(ptrs)
    requires Building(parents, kids, before, ids, ptrs, counts, rows[..i], out, kidPtrs, cellOf)
    requires rows[i].parentID in byID
    ensures var ptr := byID[rows[i].parentID];
      && Valid(parents, ptr) && ValidSlice(kids, Load(parents, ptr).kids)
      && var cell := Load(parents, ptr); var (kids', s) := Append(kids, cell.kids, cellOf(rows[i].info));
      && |kids'| == |kids| && s.len > 0
      && Building(Store(parents, ptr, cell.(kids := s)), kids', before, ids, ptrs, counts, rows[..i + 1],
                  out[rows[i].id := Ptr(s.arr, s.len - 1)], kidPtrs + [Ptr(s.arr, s.len - 1)], cellOf)
  {
    var p := LastIndex(ids, rows[i].parentID).value;
    var cells := View(parents, ptrs);
    assert byID[rows[i].parentID] == ptrs[p];
    HasRoom(cells, kids, ids, counts, rows, i, kidPtrs, p);
    assert ValidSlice(kids, cells[p].kids);
    var (kids', s) := Append(kids, cells[p].kids, cellOf(rows[i].info));
    AttachStep(cells, kids, ids, counts, rows[..i], rows[i], out, kidPtrs, cellOf, p);
    AppendKeepsSized(cells, kids, ids, counts, p, cellOf(rows[i].info));
    AppendKeepsApart(cells, kids, p, cellOf(rows[i].info));
    assert rows[..i + 1] == rows[..i] + [rows[i]];
    StoreView(parents, ptrs, p, cells[p].(kids := s));
    hide Sized, Apart, Attached, LastIndex, Index, Injective;
  }

  lemma BuildSkip<B, C, I>(parents: Memory<Cell<B>>, kids: Memory<C>, before: Memory<Cell<B>>, byID: map<int, Ptr>,
                           ids: seq<int>, ptrs: seq<Ptr>,
                           counts: map<int, nat>, rows: seq<Row<I>>, i: nat, out: map<int, Ptr>, kidPtrs: seq<Ptr>,
                           cellOf: I -> C)
    requires i < |rows| && Index(byID, ids, ptrs)
    requires Building(parents, kids, before, ids, ptrs, counts, rows[..i], out, kidPtrs, cellOf)
    requires rows[i].parentID !in byID
    ensures Building(parents, kids, before, ids, ptrs, counts, rows[..i + 1], out, kidPtrs, cellOf)
  {
    AttachSkip(View(parents, ptrs), kids, ids, rows[..i], rows[i], out, kidPtrs, cellOf);
    assert rows[..i + 1] == rows[..i] + [rows[i]];
    hide Sized, Apart, Attached, LastIndex;
  }

  /** Appends every row to its parent's slice and remembers its address; no append needs a new array. */
  method AppendRows<B, C, I>(parents0: Memory<Cell<B>>, kids0: Memory<C>, byID: map<int, Ptr>, rows: seq<Row<I>>,
                             cellOf: I -> C,
                             ghost before: Memory<Cell<B>>, ghost ids: seq<int>, ghost ptrs: seq<Ptr>,
                             ghost counts: map<int, nat>)
    returns (parents: Memory<Cell<B>>, kids: Memory<C>, out: map<int, Ptr>, ghost kidPtrs: seq<Ptr>)
    requires Index(byID, ids, ptrs) && Injective(ptrs) && CountsOf(counts, rows)
    requires Presized(parents0, kids0, before, ids, ptrs, counts, {})
    ensures |kids| == |kids0|
    ensures Building(parents, kids, before, ids, ptrs, counts, rows, out, kidPtrs, cellOf)
  {
    BuildStart(parents0, kids0, before, ids, ptrs, counts, cellOf);
    hide *;
    parents, kids, out, kidPtrs := parents0, kids0, map[], [];
    assert rows[..0] == [];
    for i := 0 to |rows|
      invariant |kids| == |kids0|
      invariant Building(parents, kids, before, ids, ptrs, counts, rows[..i], out, kidPtrs, cellOf)
    {
      var row := rows[i];
      if row.parentID !in byID {
        BuildSkip(parents, kids, before, byID, ids, ptrs, counts, rows, i, out, kidPtrs, cellOf);
        continue;
      }
      BuildStep(parents, kids, before, byID, ids, ptrs, counts, rows, i, out, kidPtrs, cellOf);
      var cell := Load(parents, byID[row.parentID]);
      var (kids', s) := Append(kids, cell.kids, cellOf(row.info));
      parents, kids := Store(parents, byID[row.parentID], cell.(kids := s)), kids';
      out := out[row.id := Ptr(s.arr, s.len - 1)];
      kidPtrs := kidPtrs + [Ptr(s.arr, s.len - 1)];
    }
    assert rows[..|rows|] == rows;
  }

  /** At the end every parent's array is exactly full. */
  lemma ArraysAreFull<B, C, I>(cells: seq<Cell<B>>, kids: Memory<C>, ids: seq<int>, counts: map<int, nat>,
                               rows: seq<Row<I>>, kidPtrs: seq<Ptr>, p: nat)
    requires Sized(cells, kids, ids, counts, {}) && CountsOf(counts, rows) && Linked(cells, Owners(ids, rows), kidPtrs)
        && p < |cells|
    ensures ValidSlice(kids, cells[p].kids) && cells[p].kids.len == |kids[cells[p].kids.arr]|
  {
    assert |Pointers(cells[p].kids)| == cells[p].kids.len;
    if LastIndex(ids, ids[p]) == Some(p) {
      GroupCount(ids, rows, kidPtrs, p);
      CountAbsent(rows, counts, ids[p]);
    }
  }

  lemma {:induction false} CountAbsent<I>(rows: seq<Row<I>>, counts: map<int, nat>, fk: int)
    requires forall i | 0 <= i < |rows| :: rows[i].parentID in counts
    ensures fk !in counts ==> CountOf(rows, fk) == 0
  {
    if |rows| > 0 {
      CountAbsent(rows[..|rows| - 1], counts, fk);
    }
  }

  /** Attaches child rows to parents: counts them, pre-sizes the slices, and appends. */
  method Attach<B, C, I>(parents0: Memory<Cell<B>>, byID: map<int, Ptr>, rows: seq<Row<I>>, cellOf: I -> C, zero: C,
                         ghost ids: seq<int>, ghost ptrs: seq<Ptr>)
    returns (parents: Memory<Cell<B>>, kids: Memory<C>, out: map<int, Ptr>, ghost kidPtrs: seq<Ptr>)
    requires Index(byID, ids, ptrs) && AllValid(parents0, ptrs) && Injective(ptrs)
    requires forall c <- View(parents0, ptrs) :: c.kids == EMPTY
    ensures AllValid(parents, ptrs) && SameBodies(View(parents, ptrs), View(parents0, ptrs))
    ensures Attached(View(parents, ptrs), kids, ids, rows, out, kidPtrs, cellOf)
    ensures forall c <- View(parents, ptrs) :: ValidSlice(kids, c.kids) && c.kids.len == |kids[c.kids.arr]|
  {
    var counts := CountRows(rows);
    parents, kids := Presize(parents0, byID, counts, zero, ids, ptrs);
    parents, kids, out, kidPtrs := AppendRows(parents, kids, byID, rows, cellOf, parents0, ids, ptrs, counts);
    ghost var cells := View(parents, ptrs);
    hide SameBodies, Presized, CountsOf, Apart, Index;
    assert Linked(cells, Owners(ids, rows), kidPtrs);
    forall p | 0 <= p < |cells|
      ensures ValidSlice(kids, cells[p].kids) && cells[p].kids.len == |kids[cells[p].kids.arr]| {
      ArraysAreFull(cells, kids, ids, counts, rows, kidPtrs, p);
    }
  }
}
