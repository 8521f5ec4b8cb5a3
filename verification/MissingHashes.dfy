/** Hash negotiation: which of the client's hashes are not stored yet. */
module MissingHashes {
  import opened Wrappers
  import opened Bytes
  import opened RunFile
  import opened Sorting
  import opened Uploads

  /** Byte order, the order of `sort.Strings`. */
  predicate LexLess(a: Text, b: Text) {
    |b| > 0 && (|a| == 0 || a[0] < b[0] || (a[0] == b[0] && LexLess(a[1..], b[1..])))
  }

  lemma {:induction false} LexTransitive(a: Text, b: Text, c: Text)
    requires LexLess(a, b) && LexLess(b, c)
    ensures LexLess(a, c)
  {
    if |a| > 0 && a[0] == b[0] == c[0] {
      LexTransitive(a[1..], b[1..], c[1..]);
    }
  }

  lemma {:induction false} LexTotal(a: Text, b: Text)
    ensures LexLess(a, b) || LexLess(b, a) || a == b
    ensures !(LexLess(a, b) && LexLess(b, a)) && !LexLess(a, a)
  {
    if |a| > 0 && |b| > 0 && a[0] == b[0] {
      LexTotal(a[1..], b[1..]);
      assert a == [a[0]] + a[1..] && b == [b[0]] + b[1..];
      LexIrreflexive(a);
    } else {
      LexIrreflexive(a);
    }
  }

  lemma {:induction false} LexIrreflexive(a: Text)
    ensures !LexLess(a, a)
  {
    if |a| > 0 {
      LexIrreflexive(a[1..]);
    }
  }

  /** Up to the first difference the two agree; there the smaller one ends or has the smaller byte. */
  lemma {:induction false} LexExactly(a: Text, b: Text)
    ensures LexLess(a, b) <==>
            exists i: nat :: i <= |a| && i < |b| && a[..i] == b[..i] && (i == |a| || a[i] < b[i])
  {
    if |a| > 0 && |b| > 0 && a[0] == b[0] {
      LexExactly(a[1..], b[1..]);
      if LexLess(a, b) {
        var s, t := a[1..], b[1..];
        var i: nat :| i <= |s| && i < |t| && s[..i] == t[..i] && (i == |s| || s[i] < t[i]);
        assert a[..i + 1] == [a[0]] + s[..i] && b[..i + 1] == [b[0]] + t[..i];
      }
      forall i: nat | i <= |a| && i < |b| && a[..i] == b[..i] && (i == |a| || a[i] < b[i]) ensures LexLess(a, b) {
        assert i > 0 && a[1..][..i - 1] == a[..i][1..] && b[1..][..i - 1] == b[..i][1..];
      }
    } else {
      assert a[..0] == b[..0];
      forall i: nat | 0 < i <= |a| && i < |b| ensures a[..i] != b[..i] {
        assert a[..i][0] == a[0] && b[..i][0] == b[0];
      }
    }
  }

  lemma LexOrders(s: set<Text>)
    ensures StrictTotalOn(LexLess, s)
  {
    hide LexLess;
    forall a, b, c | a in s && b in s && c in s && LexLess(a, b) && LexLess(b, c) ensures LexLess(a, c) {
      LexTransitive(a, b, c);
    }
    forall a | a in s ensures !LexLess(a, a) {
      LexIrreflexive(a);
    }
    forall a, b | a in s && b in s && a != b ensures LexLess(a, b) || LexLess(b, a) {
      LexTotal(a, b);
    }
  }

  /** An entry that is neither blank nor 64 hex digits. */
  predicate Malformed(raw: Text) {
    TrimSpace(raw) != [] && !HexDigits(TrimSpace(raw))
  }

  /** The canonical values of the non-blank entries. */
  function CanonicalSet(hashes: seq<Text>): set<Text> {
    set raw | raw in hashes && Canonical(raw) != [] :: Canonical(raw)
  }

  method NormalizeHashes(hashes: seq<Text>) returns (r: Option<seq<Text>>)
    ensures r.None? <==> exists raw <- hashes :: Malformed(raw)
    ensures r.Some? ==> StrictlySorted(LexLess, r.value) && Elements(r.value) == CanonicalSet(hashes)
  {
    hide Canonical, IsHash, LexLess, TrimSpace, HexDigits;
    var seen: set<Text> := {};
    var normalized: seq<Text> := [];
    for i := 0 to |hashes|
      invariant forall j | 0 <= j < i :: !Malformed(hashes[j])
      invariant Elements(normalized) == seen == CanonicalSet(hashes[..i])
      invariant Distinct(normalized)
    {
      var raw := hashes[i];
      CanonicalSetSnoc(hashes[..i], raw);
      assert hashes[..i + 1] == hashes[..i] + [raw];
      CanonicalIsHash(raw);
      var hash := Canonical(raw);
      if hash == [] {
        continue;
      }
      if !IsHash(hash) {
        assert Malformed(raw);
        return None;
      }
      if hash in seen {
        continue;
      }
      seen := seen + {hash};
      normalized := normalized + [hash];
    }
    assert hashes[..|hashes|] == hashes;
    LexOrders(Elements(normalized));
    SortSorts(LexLess, normalized, Elements(normalized));
    r := Some(Sort(LexLess, normalized));
  }

  lemma CanonicalSetSnoc(hashes: seq<Text>, raw: Text)
    ensures CanonicalSet(hashes + [raw]) ==
        CanonicalSet(hashes) + (if Canonical(raw) == [] then {} else {Canonical(raw)})
  {
    hide Canonical;
    var all := hashes + [raw];
    forall x | x in CanonicalSet(all)
      ensures x in CanonicalSet(hashes) + (if Canonical(raw) == [] then {} else {Canonical(raw)}) {
      var r :| r in all && Canonical(r) != [] && Canonical(r) == x;
    }
    assert raw in all && forall r <- hashes :: r in all;
  }

  datatype MissingResult = InvalidHash | QueryFailed | Missing(hashes: seq<Text>)

  /** A list of missing hashes: strictly sorted, and exactly the canonical values without a row. */
  ghost predicate IsMissing(db: Db, hashes: seq<Text>, missing: seq<Text>) {
    && StrictlySorted(LexLess, missing)
    && Elements(missing) == CanonicalSet(hashes) - db.rows.Keys
  }

  /** The hash stands in the request, in some spelling. */
  ghost predicate Asked(hashes: seq<Text>, h: Hash) {
    exists raw <- hashes :: Spells(TrimSpace(raw), h)
  }

  /** A missing hash is one that the request spells and that has no row. */
  ghost predicate AreMissing(db: Db, hashes: seq<Text>, missing: seq<Text>) {
    && (forall x <- missing :: IsHash(x))
    && forall h: Hash :: h in missing <==> h !in db.rows && Asked(hashes, h)
  }

  lemma MissingAreSpelled(db: Db, hashes: seq<Text>, missing: seq<Text>)
    requires IsMissing(db, hashes, missing) && forall raw <- hashes :: !Malformed(raw)
    ensures AreMissing(db, hashes, missing)
  {
    hide Canonical, Spells, LexLess, TrimSpace, HexDigits;
    forall raw <- hashes ensures Canonical(raw) != [] ==> IsHash(Canonical(raw)) {
      CanonicalIsHash(raw);
    }
    forall h: Hash ensures h in missing <==> h !in db.rows && Asked(hashes, h) {
      assert h in missing <==> h in Elements(missing);
      forall raw <- hashes ensures Canonical(raw) == h <==> Spells(TrimSpace(raw), h) {
        CanonicalSpells(raw, h);
      }
    }
    forall x <- missing ensures IsHash(x) {
      assert x in Elements(missing);
    }
  }

  method FindMissing(db: Db, hashes: seq<Text>, reply: Reply) returns (r: MissingResult)
    ensures r.InvalidHash? <==> exists raw <- hashes :: Malformed(raw)
    ensures r.QueryFailed? ==> reply.Failure? && CanonicalSet(hashes) != {}
    ensures r.Missing? ==> IsMissing(db, hashes, r.hashes) && AreMissing(db, hashes, r.hashes)
    ensures r.Missing? && reply.Failure? ==> CanonicalSet(hashes) == {}
  {
    hide LexLess, Malformed, CanonicalSet, AreMissing;
    var normalized := NormalizeHashes(hashes);
    if normalized.None? {
      return InvalidHash;
    }
    var all := normalized.value;
    if |all| == 0 {
      MissingAreSpelled(db, hashes, []);
      return Missing([]);
    }
    assert all[0] in Elements(all);
    if reply.Failure? {
      return QueryFailed;
    }
    var missing: seq<Text> := [];
    LexOrders(Elements(all));
    SortedIsDistinct(LexLess, all);
    SortedPairs(all);
    for i := 0 to |all|
      invariant Elements(missing) == Elements(all[..i]) - db.rows.Keys
      invariant forall x <- missing :: exists j | 0 <= j < i :: all[j] == x
      invariant StrictlySorted(LexLess, missing)
    {
      assert all[..i + 1] == all[..i] + [all[i]];
      ElementsConcat(all[..i], [all[i]]);
      ElementsConcat(missing, [all[i]]);
      if all[i] in db.rows {
        continue;
      }
      AppendSorted(missing, all[i]);
      missing := missing + [all[i]];
    }
    assert all[..|all|] == all;
    MissingAreSpelled(db, hashes, missing);
    r := Missing(missing);
  }

  lemma {:induction false} SortedPairs(s: seq<Text>)
    requires StrictlySorted(LexLess, s)
    ensures forall i, j | 0 <= i < j < |s| :: LexLess(s[i], s[j])
  {
    hide LexLess;
    if |s| > 0 {
      SortedPairs(s[1..]);
      forall i, j | 0 <= i < j < |s| ensures LexLess(s[i], s[j]) {
        if i == 0 {
          assert s[1..][j - 1] == s[j];
        } else {
          assert LexLess(s[1..][i - 1], s[1..][j - 1]);
        }
      }
    }
  }

  lemma {:induction false} AppendSorted(s: seq<Text>, x: Text)
    requires StrictlySorted(LexLess, s) && forall y <- s :: LexLess(y, x)
    ensures StrictlySorted(LexLess, s + [x])
  {
    hide LexLess;
    if |s| == 0 {
      assert (s + [x])[1..] == [];
    } else {
      AppendSorted(s[1..], x);
      assert (s + [x])[1..] == s[1..] + [x];
      assert s[0] in s;
    }
  }

  /** The answer depends only on which canonical hashes were asked for. */
  lemma MissingDependsOnTheSet(db: Db, hashes: seq<Text>, hashes': seq<Text>, missing: seq<Text>, missing': seq<Text>)
    requires IsMissing(db, hashes, missing) && IsMissing(db, hashes', missing')
        && CanonicalSet(hashes) == CanonicalSet(hashes')
    ensures missing == missing'
  {
    hide LexLess, CanonicalSet;
    LexOrders(Elements(missing));
    SortedUnique(LexLess, missing, missing');
  }

  predicate Grows(db: Db, db': Db) {
    forall h <- db.rows :: h in db'.rows && db'.rows[h] == db.rows[h]
  }

  lemma ActionGrows(cfg: Config, w: World, a: Action)
    ensures Grows(w.db, Do(cfg, w, a).db)
  {
    hide ParseFile, MetadataOf, KeyOf, HashOf, ShouldStore;
  }

  lemma {:induction false} RowsOnlyGrow(cfg: Config, w: World, actions: seq<Action>)
    ensures Grows(w.db, Run(cfg, w, actions).db)
    decreases |actions|
  {
    hide Do;
    if |actions| > 0 {
      ActionGrows(cfg, w, actions[0]);
      RowsOnlyGrow(cfg, Do(cfg, w, actions[0]), actions[1..]);
    }
  }

  /** Whatever happens between two identical requests, the second one never misses a hash the first did not. */
  lemma MissingOnlyShrinks(cfg: Config, w: World, actions: seq<Action>, hashes: seq<Text>, before: seq<Text>,
                           later: seq<Text>)
    requires IsMissing(w.db, hashes, before) && IsMissing(Run(cfg, w, actions).db, hashes, later)
    ensures Elements(later) <= Elements(before)
  {
    hide Run, LexLess, CanonicalSet;
    RowsOnlyGrow(cfg, w, actions);
  }
}
