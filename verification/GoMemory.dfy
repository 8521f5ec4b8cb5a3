/** Go slices and pointers over explicit backing arrays. */
module GoMemory {

  /** The backing arrays; the capacity of a slice is the length of its array. Array 0 is the empty one. */
  type Memory<T> = seq<seq<T>>

  datatype Slice = Slice(arr: nat, len: nat)
  datatype Ptr = Ptr(arr: nat, idx: nat)

  const EMPTY := Slice(0, 0)

  predicate ValidSlice<T>(m: Memory<T>, s: Slice) {
    s.arr < |m| && s.len <= |m[s.arr]|
  }

  predicate Valid<T>(m: Memory<T>, p: Ptr) {
    p.arr < |m| && p.idx < |m[p.arr]|
  }

  function Load<T>(m: Memory<T>, p: Ptr): T
    requires Valid(m, p)
  {
    m[p.arr][p.idx]
  }

  function Store<T>(m: Memory<T>, p: Ptr, v: T): Memory<T>
    requires Valid(m, p)
  {
    m[p.arr := m[p.arr][p.idx := v]]
  }

  function Contents<T>(m: Memory<T>, s: Slice): seq<T>
    requires ValidSlice(m, s)
  {
    m[s.arr][..s.len]
  }

  /** make([]T, 0, cap) */
  function Make<T>(m: Memory<T>, cap: nat, zero: T): (Memory<T>, Slice) {
    (m + [seq(cap, _ => zero)], Slice(|m|, 0))
  }

  /** append(s, x): in place while there is room, else in a new and larger array that gets a copy. */
  function Append<T>(m: Memory<T>, s: Slice, x: T): (Memory<T>, Slice)
    requires ValidSlice(m, s)
  {
    if s.len < |m[s.arr]| then (m[s.arr := m[s.arr][s.len := x]], Slice(s.arr, s.len + 1))
    else (m + [m[s.arr][..s.len] + [x] + seq(s.len, _ => x)], Slice(|m|, s.len + 1))
  }

  lemma AppendAppends<T>(m: Memory<T>, s: Slice, x: T)
    requires ValidSlice(m, s)
    ensures var (m', s') := Append(m, s, x); ValidSlice(m', s') && Contents(m', s') == Contents(m, s) + [x]
  {
    var (m', s') := Append(m, s, x);
    assert Contents(m', s') == Contents(m, s) + [x];
  }

  /**
   * A pointer into a slice keeps pointing into it across an append exactly when there was room:
   * if there was none, what is stored through the pointer is lost on the grown slice.
   */
  lemma PointerSurvivesExactlyWithRoom<T(!new)>(m: Memory<T>, s: Slice, x: T, p: Ptr)
    requires ValidSlice(m, s) && p.arr == s.arr && p.idx < s.len
    ensures var (m', s') := Append(m, s, x);
      if s.len < |m[s.arr]|
      then forall v :: Contents(Store(m', p, v), s') == Contents(m', s')[p.idx := v]
      else forall v :: Contents(Store(m', p, v), s') == Contents(m', s')
  {
    var (m', s') := Append(m, s, x);
    forall v ensures s.len < |m[s.arr]| ==> Contents(Store(m', p, v), s') == Contents(m', s')[p.idx := v] {
      if s.len < |m[s.arr]| {
        assert Contents(Store(m', p, v), s') == Contents(m', s')[p.idx := v];
      }
    }
  }

  /** The addresses of the elements of a slice. */
  function Pointers(s: Slice): seq<Ptr> {
    seq(s.len, i requires 0 <= i => Ptr(s.arr, i))
  }

  predicate AllValid<T>(m: Memory<T>, ptrs: seq<Ptr>) {
    forall i | 0 <= i < |ptrs| :: Valid(m, ptrs[i])
  }

  predicate Injective(ptrs: seq<Ptr>) {
    forall i, j | 0 <= i < j < |ptrs| :: ptrs[i] != ptrs[j]
  }

  /** What the pointers point to. */
  function View<T>(m: Memory<T>, ptrs: seq<Ptr>): (r: seq<T>)
    requires AllValid(m, ptrs)
    ensures |r| == |ptrs|
  {
    seq(|ptrs|, i requires 0 <= i < |ptrs| => Load(m, ptrs[i]))
  }

  /** Stores keep the arrays and their lengths, and so the slices into them. */
  ghost predicate SameShape<T>(m: Memory<T>, m': Memory<T>) {
    |m| == |m'| && forall a | 0 <= a < |m| :: |m[a]| == |m'[a]|
  }

  lemma StoreShape<T>(m: Memory<T>, p: Ptr, v: T, m0: Memory<T>)
    requires Valid(m, p) && SameShape(m, m0)
    ensures SameShape(Store(m, p, v), m0)
  {}

  /** Storing through one of several distinct pointers changes what that one points to, and nothing else. */
  lemma StoreView<T>(m: Memory<T>, ptrs: seq<Ptr>, j: nat, v: T)
    requires AllValid(m, ptrs) && Injective(ptrs) && j < |ptrs|
    ensures AllValid(Store(m, ptrs[j], v), ptrs)
    ensures View(Store(m, ptrs[j], v), ptrs) == View(m, ptrs)[j := v]
  {
    var m' := Store(m, ptrs[j], v);
    forall i | 0 <= i < |ptrs| ensures Valid(m', ptrs[i]) && Load(m', ptrs[i]) == View(m, ptrs)[j := v][i] {
      assert i < j ==> ptrs[i] != ptrs[j];
      assert j < i ==> ptrs[j] != ptrs[i];
    }
  }

  lemma ContentsIsView<T>(m: Memory<T>, s: Slice)
    requires ValidSlice(m, s)
    ensures AllValid(m, Pointers(s)) && Contents(m, s) == View(m, Pointers(s))
  {}
}
