/** Grouping flat rows by foreign key, in row order. */
module Grouping {
  import opened Wrappers

  /** A row of a child table that has its own id, and one that has none. */
  datatype Row<I> = Row(id: int, parentID: int, info: I)
  datatype Item<I> = Item(parentID: int, info: I)

  /** The last place of x in s. A foreign key names the last parent with that id. */
  function LastIndex<T(==)>(s: seq<T>, x: T): (r: Option<nat>)
    ensures r.Some? ==> r.value < |s| && s[r.value] == x && x !in s[r.value + 1..]
    ensures r.None? <==> x !in s
  {
    if |s| == 0 then None
    else if s[|s| - 1] == x then Some(|s| - 1)
    else LastIndex(s[..|s| - 1], x)
  }

  /** With distinct ids the owner is simply the parent with that id. */
  lemma OwnerOfDistinctIds(ids: seq<int>, fk: int, p: nat)
    requires p < |ids| && DistinctIds(ids)
    ensures LastIndex(ids, fk) == Some(p) <==> ids[p] == fk
  {}

  /** The rows whose parent exists. */
  function Live<I>(ids: seq<int>, rows: seq<Row<I>>): (r: seq<Row<I>>) {
    if |rows| == 0 then []
    else
      var last := rows[|rows| - 1];
      Live(ids, rows[..|rows| - 1]) + if LastIndex(ids, last.parentID).Some? then [last] else []
  }

  /** The owners of the live rows. */
  function Owners<I>(ids: seq<int>, rows: seq<Row<I>>): (r: seq<nat>)
    ensures |r| == |Live(ids, rows)| && forall p <- r :: p < |ids|
  {
    if |rows| == 0 then []
    else
      var o := LastIndex(ids, rows[|rows| - 1].parentID);
      Owners(ids, rows[..|rows| - 1]) + if o.Some? then [o.value] else []
  }

  function Ids<I>(rows: seq<Row<I>>): seq<int> {
    seq(|rows|, i requires 0 <= i < |rows| => rows[i].id)
  }

  /** The infos of the items that belong to parent p. */
  function ItemsOf<I>(ids: seq<int>, items: seq<Item<I>>, p: nat): seq<I> {
    if |items| == 0 then []
    else
      var last := items[|items| - 1];
      ItemsOf(ids, items[..|items| - 1], p) + if LastIndex(ids, last.parentID) == Some(p) then [last.info] else []
  }

  /** The elements owned by p, in order. */
  function Group<T>(owners: seq<nat>, s: seq<T>, p: nat): seq<T>
    requires |owners| == |s|
  {
    if |s| == 0 then []
    else Group(owners[..|s| - 1], s[..|s| - 1], p) + if owners[|s| - 1] == p then [s[|s| - 1]] else []
  }

  lemma GroupSnoc<T>(owners: seq<nat>, s: seq<T>, o: nat, x: T, p: nat)
    requires |owners| == |s|
    ensures Group(owners + [o], s + [x], p) == Group(owners, s, p) + if o == p then [x] else []
  {
    assert (owners + [o])[..|s|] == owners && (s + [x])[..|s|] == s;
  }

  lemma {:induction false} GroupMap<S, T>(owners: seq<nat>, s: seq<S>, f: S -> T, p: nat)
    requires |owners| == |s|
    ensures Group(owners, Map(f, s), p) == Map(f, Group(owners, s, p))
  {
    if |s| > 0 {
      var n := |s| - 1;
      GroupMap(owners[..n], s[..n], f, p);
      assert Map(f, s)[..n] == Map(f, s[..n]);
    }
  }

  /** How many earlier elements have the same owner. */
  function Standing(owners: seq<nat>, j: nat): nat
    requires j < |owners|
  {
    |Group(owners[..j], owners[..j], owners[j])|
  }

  lemma {:induction false} GroupLength<S, T>(owners: seq<nat>, s: seq<S>, t: seq<T>, p: nat)
    requires |owners| == |s| == |t|
    ensures |Group(owners, s, p)| == |Group(owners, t, p)|
  {
    if |s| > 0 {
      GroupLength(owners[..|s| - 1], s[..|s| - 1], t[..|s| - 1], p);
    }
  }

  /** Element j stands in its group at its rank. */
  lemma {:induction false} GroupAt<T>(owners: seq<nat>, s: seq<T>, j: nat)
    requires |owners| == |s| && j < |s|
    ensures Standing(owners, j) < |Group(owners, s, owners[j])|
        && Group(owners, s, owners[j])[Standing(owners, j)] == s[j]
    decreases |s|
  {
    var n := |s| - 1;
    if j == n {
      GroupLength(owners[..n], s[..n], owners[..n], owners[n]);
    } else {
      GroupAt(owners[..n], s[..n], j);
      assert owners[..n][..j] == owners[..j];
    }
  }

  /** Every element of a group has a place in the whole sequence. */
  lemma {:induction false} GroupPlace<T>(owners: seq<nat>, s: seq<T>, p: nat, r: nat) returns (j: nat)
    requires |owners| == |s| && r < |Group(owners, s, p)|
    ensures j < |s| && owners[j] == p && Standing(owners, j) == r
    decreases |s|
  {
    var n := |s| - 1;
    var init := Group(owners[..n], s[..n], p);
    if r < |init| {
      j := GroupPlace(owners[..n], s[..n], p, r);
      assert owners[..n][..j] == owners[..j];
    } else {
      j := n;
      GroupLength(owners[..n], s[..n], owners[..n], p);
    }
  }

  /** Changing element j changes its own group at its rank, and no other group. */
  lemma {:induction false} GroupUpdate<T>(owners: seq<nat>, s: seq<T>, j: nat, v: T, p: nat)
    requires |owners| == |s| && j < |s|
    ensures Standing(owners, j) < |Group(owners, s, owners[j])|
    ensures Group(owners, s[j := v], p) ==
            if owners[j] == p then Group(owners, s, p)[Standing(owners, j) := v] else Group(owners, s, p)
    decreases |s|
  {
    hide *;
    var n, t := |s| - 1, s[j := v];
    GroupAt(owners, s, j);
    GroupLast(owners, s, p);
    GroupLast(owners, t, p);
    if j == n {
      StandsLast(owners, s);
      assert t[..n] == s[..n];
    } else {
      GroupUpdate(owners[..n], s[..n], j, v, p);
      EarlierStanding(owners, j);
      assert t[..n] == s[..n][j := v];
    }
  }

  lemma GroupLast<T>(owners: seq<nat>, s: seq<T>, p: nat)
    requires |owners| == |s| > 0
    ensures var n := |s| - 1;
      Group(owners, s, p) == Group(owners[..n], s[..n], p) + if owners[n] == p then [s[n]] else []
  {}

  /** The last element stands at the end of its group. */
  lemma StandsLast<T>(owners: seq<nat>, s: seq<T>)
    requires |owners| == |s| > 0
    ensures var n := |s| - 1; Standing(owners, n) == |Group(owners[..n], s[..n], owners[n])|
  {
    var n := |s| - 1;
    GroupLength(owners[..n], s[..n], owners[..n], owners[n]);
  }

  /** Later elements do not matter. */
  lemma EarlierStanding(owners: seq<nat>, j: nat)
    requires j + 1 < |owners|
    ensures Standing(owners[..|owners| - 1], j) == Standing(owners, j)
  {
    assert owners[..|owners| - 1][..j] == owners[..j];
  }

  predicate DistinctIds(ids: seq<int>) {
    forall i, j | 0 <= i < j < |ids| :: ids[i] != ids[j]
  }

  function WithParent<I>(rows: seq<Row<I>>, id: int): seq<Row<I>> {
    if |rows| == 0 then []
    else WithParent(rows[..|rows| - 1], id) + if rows[|rows| - 1].parentID == id then [rows[|rows| - 1]] else []
  }

  /** When ids are keys, a parent's group is the rows that carry its id, in row order. */
  lemma {:induction false} GroupIsFilter<I>(ids: seq<int>, rows: seq<Row<I>>, p: nat)
    requires DistinctIds(ids) && p < |ids|
    ensures Group(Owners(ids, rows), Live(ids, rows), p) == WithParent(rows, ids[p])
  {
    if |rows| > 0 {
      var last, init := rows[|rows| - 1], rows[..|rows| - 1];
      GroupIsFilter(ids, init, p);
      OwnerOfDistinctIds(ids, last.parentID, p);
      hide LastIndex;
      var o := LastIndex(ids, last.parentID);
      if o.Some? {
        assert Owners(ids, rows) == Owners(ids, init) + [o.value] && Live(ids, rows) == Live(ids, init) + [last];
        GroupSnoc(Owners(ids, init), Live(ids, init), o.value, last, p);
      } else {
        assert Owners(ids, rows) == Owners(ids, init) && Live(ids, rows) == Live(ids, init);
      }
    }
  }

  /** The infos of the items that carry a parent's id. */
  function InfosOf<I>(items: seq<Item<I>>, id: int): seq<I> {
    if |items| == 0 then []
    else InfosOf(items[..|items| - 1], id) + if items[|items| - 1].parentID == id then [items[|items| - 1].info] else []
  }

  lemma {:induction false} ItemsAreFilter<I>(ids: seq<int>, items: seq<Item<I>>, p: nat)
    requires DistinctIds(ids) && p < |ids|
    ensures ItemsOf(ids, items, p) == InfosOf(items, ids[p])
  {
    if |items| > 0 {
      ItemsAreFilter(ids, items[..|items| - 1], p);
      OwnerOfDistinctIds(ids, items[|items| - 1].parentID, p);
      hide LastIndex;
    }
  }

  /** Whatever is kept for each live row is grouped like the rows themselves. */
  lemma GroupTracks<I, T>(ids: seq<int>, rows: seq<Row<I>>, s: seq<T>, p: nat, r: nat) returns (j: nat)
    requires DistinctIds(ids) && p < |ids| && |s| == |Live(ids, rows)|
    requires r < |WithParent(rows, ids[p])|
    ensures |Group(Owners(ids, rows), s, p)| == |WithParent(rows, ids[p])|
    ensures j < |s| && Group(Owners(ids, rows), s, p)[r] == s[j] && Live(ids, rows)[j] == WithParent(rows, ids[p])[r]
  {
    var owners, live := Owners(ids, rows), Live(ids, rows);
    GroupIsFilter(ids, rows, p);
    GroupLength(owners, live, s, p);
    j := GroupPlace(owners, live, p, r);
    GroupAt(owners, live, j);
    GroupAt(owners, s, j);
  }

  lemma {:induction false} LiveIdsDistinct<I>(ids: seq<int>, rows: seq<Row<I>>)
    requires DistinctIds(Ids(rows))
    ensures DistinctIds(Ids(Live(ids, rows)))
    ensures forall row <- Live(ids, rows) :: row in rows
  {
    hide LastIndex;
    if |rows| > 0 {
      var n, last := |rows| - 1, rows[|rows| - 1];
      assert forall i | 0 <= i < n :: Ids(rows[..n])[i] == Ids(rows)[i];
      LiveIdsDistinct(ids, rows[..n]);
      forall row <- Live(ids, rows[..n]) ensures row in rows && row.id != last.id {
        var i :| 0 <= i < n && rows[i] == row;
        assert Ids(rows)[i] != Ids(rows)[n];
      }
      var init := Live(ids, rows[..n]);
      LiveSnocDistinct(init, last);
      assert Live(ids, rows) == init || Live(ids, rows) == init + [last];
    }
  }

  lemma LiveSnocDistinct<I>(rows: seq<Row<I>>, last: Row<I>)
    requires DistinctIds(Ids(rows)) && forall row <- rows :: row.id != last.id
    ensures DistinctIds(Ids(rows + [last]))
  {
    var all := rows + [last];
    assert Ids(all) == Ids(rows) + [last.id];
    forall i, j | 0 <= i < j < |all| ensures Ids(all)[i] != Ids(all)[j] {
      assert rows[i] in rows && Ids(rows)[i] == rows[i].id;
      assert j < |rows| ==> Ids(rows)[i] != Ids(rows)[j];
    }
  }

  /** A row is live exactly when some parent has the id it names. */
  lemma {:induction false} LiveExactly<I>(ids: seq<int>, rows: seq<Row<I>>, row: Row<I>)
    ensures row in Live(ids, rows) <==> row in rows && row.parentID in ids
  {
    hide LastIndex;
    if |rows| > 0 {
      LiveExactly(ids, rows[..|rows| - 1], row);
      assert rows == rows[..|rows| - 1] + [rows[|rows| - 1]];
    }
  }

  // ---- Counting ----

  function CountOf<I>(rows: seq<Row<I>>, fk: int): nat {
    if |rows| == 0 then 0
    else CountOf(rows[..|rows| - 1], fk) + if rows[|rows| - 1].parentID == fk then 1 else 0
  }

  lemma {:induction false} CountPrefix<I>(rows: seq<Row<I>>, n: nat, fk: int)
    requires n <= |rows|
    ensures CountOf(rows[..n], fk) <= CountOf(rows, fk)
    ensures n < |rows| && rows[n].parentID == fk ==> CountOf(rows[..n], fk) < CountOf(rows, fk)
    decreases |rows|
  {
    if n < |rows| {
      var init := rows[..|rows| - 1];
      assert rows[..n] == init[..n];
      CountPrefix(init, n, fk);
    } else {
      assert rows[..n] == rows;
    }
  }

  /** A parent that owns its id gets as many rows as name it. */
  lemma {:induction false} GroupCount<I, T>(ids: seq<int>, rows: seq<Row<I>>, s: seq<T>, p: nat)
    requires |s| == |Owners(ids, rows)| && p < |ids| && LastIndex(ids, ids[p]) == Some(p)
    ensures |Group(Owners(ids, rows), s, p)| == CountOf(rows, ids[p])
  {
    if |rows| > 0 {
      var last, init := rows[|rows| - 1], rows[..|rows| - 1];
      var owners := Owners(ids, init);
      if LastIndex(ids, last.parentID).Some? {
        GroupCount(ids, init, s[..|s| - 1], p);
        assert Owners(ids, rows)[..|s| - 1] == owners;
      } else {
        GroupCount(ids, init, s, p);
        assert Owners(ids, rows) == owners && ids[p] in ids;
      }
    }
  }
}
