// Sibling ordering: the stable sort that `Array.prototype.sort` performs with
// the comparators of useData.ts, DetailModal.tsx and App.tsx, and the
// remove-then-insert `splice` pair that moves one item of a sibling group.
module Ordering {

  /** Sort key of a sibling: `rank` first (0 = not completed, 1 = completed),
      then the stored `order`. */
  datatype SortKey = SortKey(rank: int, order: int)

  /** The total preorder the comparators define: `a` may stand before `b`. */
  predicate KeyLe(a: SortKey, b: SortKey)
  {
    a.rank < b.rank || (a.rank == b.rank && a.order <= b.order)
  }

  predicate Sorted<T>(s: seq<T>, key: T -> SortKey)
  {
    forall i, j :: 0 <= i < j < |s| ==> KeyLe(key(s[i]), key(s[j]))
  }

  /** Inserts `x` in front of the first element it may precede; elements
      with an equal key keep `x` in front, which keeps the sort stable. */
  function Insert<T>(x: T, s: seq<T>, key: T -> SortKey): (r: seq<T>)
    ensures |r| == |s| + 1
    ensures multiset(r) == multiset(s) + multiset{x}
  {
    if s == [] || KeyLe(key(x), key(s[0])) then [x] + s
    else
      assert s == [s[0]] + s[1..];
      [s[0]] + Insert(x, s[1..], key)
  }

  /** Inserting into a sorted list keeps it sorted. */
  lemma {:induction false} InsertSorted<T>(x: T, s: seq<T>, key: T -> SortKey)
    requires Sorted(s, key)
    ensures Sorted(Insert(x, s, key), key)
  {
    if s != [] && !KeyLe(key(x), key(s[0])) {
      var tail := Insert(x, s[1..], key);
      InsertSorted(x, s[1..], key);
      forall k | 0 <= k < |tail| ensures KeyLe(key(s[0]), key(tail[k])) {
        assert tail[k] in multiset(tail);
        assert tail[k] == x || tail[k] in multiset(s[1..]);
      }
    }
  }

  /** Stable insertion sort: what `.sort(comparator)` returns. */
  function SortBy<T>(s: seq<T>, key: T -> SortKey): (r: seq<T>)
    ensures |r| == |s|
    ensures multiset(r) == multiset(s)
    ensures Sorted(r, key)
  {
    if s == [] then []
    else
      assert s == [s[0]] + s[1..];
      InsertSorted(s[0], SortBy(s[1..], key), key);
      Insert(s[0], SortBy(s[1..], key), key)
  }

  /** `s` without its element at index `i`. */
  function RemoveAt<T>(s: seq<T>, i: nat): (r: seq<T>)
    requires i < |s|
    ensures |r| == |s| - 1
    ensures forall k :: 0 <= k < i ==> r[k] == s[k]
    ensures forall k :: i <= k < |r| ==> r[k] == s[k + 1]
  {
    s[..i] + s[i + 1..]
  }

  /** Where the moved element lands: `splice(end, 0, x)` on the shortened
      list clamps `end` to that list's length. */
  function Landing(n: nat, end: nat): (e: nat)
    requires n > 0
    ensures e < n
    ensures end < n ==> e == end
  {
    if end < n - 1 then end else n - 1
  }

  /** `const [removed] = s.splice(start, 1); s.splice(end, 0, removed);` */
  function Move<T>(s: seq<T>, start: nat, end: nat): (r: seq<T>)
    requires start < |s|
    ensures |r| == |s|
    ensures multiset(r) == multiset(s)
    ensures r[Landing(|s|, end)] == s[start]
    ensures RemoveAt(r, Landing(|s|, end)) == RemoveAt(s, start)
  {
    var rest := RemoveAt(s, start);
    var e := Landing(|s|, end);
    var r := rest[..e] + [s[start]] + rest[e..];
    InsertRemoved(rest, e, s[start]);
    RemoveAtMultiset(s, start);
    r
  }

  /** Inserting `x` at `e` and removing it again restores the list, and
      adds `x` once to its multiset. */
  lemma InsertRemoved<T>(rest: seq<T>, e: nat, x: T)
    requires e <= |rest|
    ensures RemoveAt(rest[..e] + [x] + rest[e..], e) == rest
    ensures multiset(rest[..e] + [x] + rest[e..]) == multiset(rest) + multiset{x}
  {
    assert rest == rest[..e] + rest[e..];
  }

  /** Removing the element at `i` takes it once out of the multiset. */
  lemma RemoveAtMultiset<T>(s: seq<T>, i: nat)
    requires i < |s|
    ensures multiset(RemoveAt(s, i)) + multiset{s[i]} == multiset(s)
  {
    assert s == s[..i] + [s[i]] + s[i + 1..];
  }

  /** Dropping a moved element to its own index changes nothing. */
  lemma MoveToSameIndex<T>(s: seq<T>, i: nat)
    requires i < |s|
    ensures Move(s, i, i) == s
  {
    assert s == s[..i] + [s[i]] + s[i + 1..];
  }

  /** Every other element keeps its relative order: the element at `k` of
      the old list sits at `k`, `k - 1` or `k + 1` according to how `k`
      lies with respect to the start and landing indices. */
  lemma MoveShift<T>(s: seq<T>, start: nat, end: nat, k: nat)
    requires start < |s| && k < |s| && k != start
    ensures var e := Landing(|s|, end);
            var j := if k < start then k else k - 1;
            var pos := if j < e then j else j + 1;
            pos < |s| && Move(s, start, end)[pos] == s[k]
  {
    var r := Move(s, start, end);
    var e := Landing(|s|, end);
    var j := if k < start then k else k - 1;
    assert RemoveAt(s, start)[j] == s[k];
    assert RemoveAt(r, e) == RemoveAt(s, start);
  }

  /** Dragging the first of four items onto index 2: the insert index
      counts in the list without the dragged item, so `[a, b, c, d]`
      becomes `[b, c, a, d]`. */
  lemma MoveExample<T>(a: T, b: T, c: T, d: T)
    ensures Move([a, b, c, d], 0, 2) == [b, c, a, d]
  {
    var s := [a, b, c, d];
    assert RemoveAt(s, 0) == [b, c, d];
    assert Landing(4, 2) == 2;
    assert [b, c, d][..2] + [a] + [b, c, d][2..] == [b, c, a, d];
  }

  /** The element of `Move(s, start, end)` at each index. */
  lemma MoveAt<T>(s: seq<T>, start: nat, end: nat, k: nat)
    requires start < |s| && k < |s|
    ensures var e := Landing(|s|, end);
      Move(s, start, end)[k] ==
        if k == e then s[start]
        else if k < e then (if k < start then s[k] else s[k + 1])
        else (if k - 1 < start then s[k - 1] else s[k])
  {
    var r := Move(s, start, end);
    var e := Landing(|s|, end);
    if k < e {
      assert RemoveAt(r, e)[k] == r[k];
    } else if k > e {
      assert RemoveAt(r, e)[k - 1] == r[k];
    }
  }

  /** The two `splice` calls on an array, in place: the elements between
      the start and landing indices shift by one towards the start, and
      the removed element is written at the landing index. */
  method MoveInPlace<T>(a: array<T>, start: nat, end: nat)
    requires start < a.Length
    modifies a
    ensures a[..] == Move(old(a[..]), start, end)
  {
    ghost var s := a[..];
    var e := Landing(a.Length, end);
    var removed := a[start];
    assert removed == s[start];
    if start <= e {
      var i := start;
      while i < e
        invariant start <= i <= e
        invariant |s| == a.Length
        invariant forall k :: 0 <= k < start ==> a[k] == s[k]
        invariant forall k :: start <= k < i ==> a[k] == s[k + 1]
        invariant forall k :: i <= k < a.Length ==> a[k] == s[k]
      {
        assert a[i + 1] == s[i + 1];
        a[i] := a[i + 1];
        i := i + 1;
      }
    } else {
      var i := start;
      while i > e
        invariant e <= i <= start
        invariant |s| == a.Length
        invariant forall k :: 0 <= k <= i ==> a[k] == s[k]
        invariant forall k :: i < k <= start ==> a[k] == s[k - 1]
        invariant forall k :: start < k < a.Length ==> a[k] == s[k]
      {
        assert a[i - 1] == s[i - 1];
        a[i] := a[i - 1];
        i := i - 1;
      }
    }
    a[e] := removed;
    forall k | 0 <= k < a.Length ensures a[k] == Move(s, start, end)[k] {
      MoveAt(s, start, end, k);
    }
  }
}
