/** Sorting by a strict order, as `sort.Strings` and an ORDER BY clause do it. */
module Sorting {

  /** On the elements of s, `less` is irreflexive, transitive and total. */
  ghost predicate StrictTotalOn<T(!new)>(less: (T, T) -> bool, s: set<T>) {
    && (forall a <- s :: !less(a, a))
    && (forall a, b, c | a in s && b in s && c in s && less(a, b) && less(b, c) :: less(a, c))
    && (forall a, b | a in s && b in s && a != b :: less(a, b) || less(b, a))
  }

  predicate Below<T>(less: (T, T) -> bool, x: T, s: seq<T>) {
    forall i | 0 <= i < |s| :: less(x, s[i])
  }

  /** Every element is below all later ones, so there are no duplicates. */
  predicate StrictlySorted<T>(less: (T, T) -> bool, s: seq<T>) {
    |s| == 0 || (Below(less, s[0], s[1..]) && StrictlySorted(less, s[1..]))
  }

  function Elements<T>(s: seq<T>): set<T> {
    set x | x in s
  }

  predicate Distinct<T(==)>(s: seq<T>) {
    forall i, j | 0 <= i < j < |s| :: s[i] != s[j]
  }

  function Insert<T>(less: (T, T) -> bool, x: T, s: seq<T>): (r: seq<T>)
    ensures |r| == |s| + 1
  {
    if |s| == 0 then [x]
    else if less(x, s[0]) then [x] + s
    else [s[0]] + Insert(less, x, s[1..])
  }

  function Sort<T>(less: (T, T) -> bool, s: seq<T>): (r: seq<T>)
    ensures |r| == |s|
  {
    if |s| == 0 then [] else Insert(less, s[0], Sort(less, s[1..]))
  }

  lemma ElementsConcat<T>(a: seq<T>, b: seq<T>)
    ensures Elements(a + b) == Elements(a) + Elements(b)
  {}

  lemma ElementsSplit<T>(s: seq<T>)
    requires |s| > 0
    ensures Elements(s) == {s[0]} + Elements(s[1..])
  {
    ElementsConcat([s[0]], s[1..]);
    assert s == [s[0]] + s[1..];
  }

  lemma {:induction false} InsertElements<T>(less: (T, T) -> bool, x: T, s: seq<T>)
    ensures Elements(Insert(less, x, s)) == Elements(s) + {x}
  {
    hide Elements;
    if |s| == 0 {
      ElementsSplit([x]);
      assert [x][1..] == s;
    } else if less(x, s[0]) {
      ElementsSplit([x] + s);
      assert ([x] + s)[1..] == s;
    } else {
      InsertElements(less, x, s[1..]);
      ElementsSplit(s);
      var r := [s[0]] + Insert(less, x, s[1..]);
      ElementsSplit(r);
      assert r[1..] == Insert(less, x, s[1..]);
    }
  }

  lemma {:induction false} SortElements<T>(less: (T, T) -> bool, s: seq<T>)
    ensures Elements(Sort(less, s)) == Elements(s)
  {
    if |s| > 0 {
      hide Elements;
      SortElements(less, s[1..]);
      InsertElements(less, s[0], Sort(less, s[1..]));
      ElementsSplit(s);
    }
  }

  lemma {:induction false} InsertSorted<T(!new)>(less: (T, T) -> bool, x: T, s: seq<T>, all: set<T>)
    requires StrictTotalOn(less, all) && x in all && Elements(s) <= all && x !in s
    requires StrictlySorted(less, s)
    ensures StrictlySorted(less, Insert(less, x, s))
  {
    if |s| > 0 {
      if less(x, s[0]) {
        forall i | 0 <= i < |s| ensures less(x, s[i]) {
          if i > 0 {
            assert less(s[0], s[1..][i - 1]);
          }
        }
        assert ([x] + s)[1..] == s;
      } else {
        assert s[0] in all && less(s[0], x);
        InsertSorted(less, x, s[1..], all);
        InsertElements(less, x, s[1..]);
        var rest := Insert(less, x, s[1..]);
        forall i | 0 <= i < |rest| ensures less(s[0], rest[i]) {
          assert rest[i] in Elements(rest);
        }
        assert ([s[0]] + rest)[1..] == rest;
      }
    }
  }

  /** Sorting distinct elements gives a strictly sorted sequence of the same elements. */
  lemma {:induction false} SortSorts<T(!new)>(less: (T, T) -> bool, s: seq<T>, all: set<T>)
    requires StrictTotalOn(less, all) && Elements(s) <= all && Distinct(s)
    ensures StrictlySorted(less, Sort(less, s)) && Elements(Sort(less, s)) == Elements(s)
  {
    SortElements(less, s);
    if |s| > 0 {
      SortSorts(less, s[1..], all);
      SortElements(less, s[1..]);
      assert s[0] !in s[1..];
      assert s[0] !in Elements(Sort(less, s[1..]));
      InsertSorted(less, s[0], Sort(less, s[1..]), all);
    }
  }

  /** There is only one way to sort a set. */
  lemma {:induction false} SortedUnique<T(!new)>(less: (T, T) -> bool, s: seq<T>, t: seq<T>)
    requires StrictlySorted(less, s) && StrictlySorted(less, t) && Elements(s) == Elements(t)
    requires StrictTotalOn(less, Elements(s))
    ensures s == t
    decreases |s|
  {
    FirstElement(s);
    FirstElement(t);
    if |s| > 0 {
      SameHead(less, s, t);
      TailElements(less, s);
      TailElements(less, t);
      SortedUnique(less, s[1..], t[1..]);
      assert s == [s[0]] + s[1..] && t == [t[0]] + t[1..];
    }
  }

  lemma FirstElement<T>(s: seq<T>)
    ensures if |s| > 0 then s[0] in Elements(s) else Elements(s) == {}
  {}

  lemma FirstIsLeast<T>(less: (T, T) -> bool, s: seq<T>, x: T)
    requires StrictlySorted(less, s) && x in s
    ensures x == s[0] || less(s[0], x)
  {
    var i :| 0 <= i < |s| && s[i] == x;
    if i > 0 {
      assert s[1..][i - 1] == x;
    }
  }

  lemma SameHead<T(!new)>(less: (T, T) -> bool, s: seq<T>, t: seq<T>)
    requires |s| > 0 && |t| > 0 && StrictlySorted(less, s) && StrictlySorted(less, t)
    requires s[0] in t && t[0] in s && StrictTotalOn(less, Elements(s))
    ensures s[0] == t[0]
  {
    FirstIsLeast(less, s, t[0]);
    FirstIsLeast(less, t, s[0]);
    assert s[0] in Elements(s) && t[0] in Elements(s);
  }

  lemma TailElements<T(!new)>(less: (T, T) -> bool, s: seq<T>)
    requires |s| > 0 && StrictlySorted(less, s) && StrictTotalOn(less, Elements(s))
    ensures Elements(s[1..]) == Elements(s) - {s[0]} && StrictTotalOn(less, Elements(s[1..]))
  {
    ElementsSplit(s);
    forall i | 0 <= i < |s[1..]| ensures s[1..][i] != s[0] {
      assert less(s[0], s[1..][i]);
    }
  }

  lemma {:induction false} SortedIsDistinct<T(!new)>(less: (T, T) -> bool, s: seq<T>)
    requires StrictlySorted(less, s) && StrictTotalOn(less, Elements(s))
    ensures Distinct(s)
  {
    if |s| > 0 {
      TailElements(less, s);
      SortedIsDistinct(less, s[1..]);
      forall i, j | 0 <= i < j < |s| ensures s[i] != s[j] {
        assert s[1..][j - 1] in Elements(s[1..]);
        if i > 0 {
          assert s[1..][i - 1] != s[1..][j - 1];
        }
      }
    }
  }
}
