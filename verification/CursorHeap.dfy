/** The heap a merge keeps its inputs' cursors in, by their rows' (family, ts),
    then by input: container/heap over cursorHeap. */
module CursorHeap {
  import opened Rows

  /** Where a merge is in one input: its position (order), the row it is at
      and that row's key. */
  datatype Cursor = Cursor(order: nat, g: int, r: int, n: nat, done: bool, key: Option<Key>)

  /** A cursor's row is the one that breaks ties: the earlier input's. */
  predicate Less(a: Cursor, b: Cursor)
    requires a.key.Some? && b.key.Some?
  {
    var c := CompareKeys(a.key.value, b.key.value);
    if c != 0 then c < 0 else a.order < b.order
  }

  predicate AllAt(items: seq<Cursor>) {
    forall i :: 0 <= i < |items| ==> items[i].key.Some?
  }

  lemma {:induction false} NotLessTransitive(a: Cursor, b: Cursor, c: Cursor)
    requires a.key.Some? && b.key.Some? && c.key.Some?
    requires !Less(b, a) && !Less(c, b)
    ensures !Less(c, a)
  {
    var x, y, z := a.key.value, b.key.value, c.key.value;
    CompareKeysAntisymmetric(x, y);
    CompareKeysAntisymmetric(y, z);
    CompareKeysAntisymmetric(x, z);
    LeTransitive(x, y, z);
  }

  lemma {:induction false} NotLessBothWays(a: Cursor, b: Cursor)
    requires a.key.Some? && b.key.Some? && Less(a, b)
    ensures !Less(b, a)
  {
    CompareKeysAntisymmetric(a.key.value, b.key.value);
  }

  function Parent(k: nat): (p: nat)
    requires k > 0
    ensures p < k
  {
    (k - 1) / 2
  }

  /** Each of the first n items whose parent is at least from, and is not
      skip, does not come before its parent. */
  ghost predicate Ordered(items: seq<Cursor>, from: nat, n: nat, skip: int)
    requires AllAt(items) && n <= |items|
  {
    forall k :: 0 < k < n && Parent(k) >= from && Parent(k) != skip ==> !Less(items[k], items[Parent(k)])
  }

  ghost predicate Heap(items: seq<Cursor>) {
    AllAt(items) && Ordered(items, 0, |items|, -1)
  }

  /** The cursors of items, wherever they are: every input at most once. */
  ghost predicate SameCursors(a: seq<Cursor>, b: seq<Cursor>) {
    |a| == |b| && (forall c :: c in a <==> c in b)
  }

  ghost predicate OnePerInput(items: seq<Cursor>) {
    forall i, j :: 0 <= i < j < |items| ==> items[i].order != items[j].order
  }

  function Swap(items: seq<Cursor>, i: nat, j: nat): (t: seq<Cursor>)
    requires i < |items| && j < |items|
    ensures SameCursors(items, t)
    ensures OnePerInput(items) ==> OnePerInput(t)
  {
    var t := items[i := items[j]][j := items[i]];
    assert t[i] == items[j] && t[j] == items[i];
    assert forall k :: 0 <= k < |t| && k != i && k != j ==> t[k] == items[k];
    t
  }

  /** Each of the first n items whose parent is i does not come before i's parent. */
  ghost predicate Bridged(items: seq<Cursor>, from: nat, n: nat, i: nat)
    requires AllAt(items) && n <= |items|
  {
    forall k :: 0 < k < n && Parent(k) == i && i > from && Parent(i) >= from ==> !Less(items[k], items[Parent(i)])
  }

  /** One step of heap.down: item i and its lesser child j change places. */
  lemma {:induction false} SwapDown(items: seq<Cursor>, from: nat, n: nat, i: nat, j: nat)
    requires AllAt(items) && n <= |items| && from <= i < j < n && Parent(j) == i
    requires Ordered(items, from, n, i) && Bridged(items, from, n, i)
    requires Less(items[j], items[i])
    requires forall k :: 0 < k < n && Parent(k) == i && k != j ==> !Less(items[k], items[j])
    ensures AllAt(Swap(items, i, j))
    ensures Ordered(Swap(items, i, j), from, n, j) && Bridged(Swap(items, i, j), from, n, j)
    ensures Swap(items, i, j)[n..] == items[n..]
  {
    NotLessBothWays(items[j], items[i]);
  }

  /** The child of i to compare it with: the one that comes first. */
  method LesserChild(items: seq<Cursor>, i: nat, n: nat) returns (j: nat)
    requires AllAt(items) && 2 * i + 1 < n <= |items|
    ensures i < j < n && Parent(j) == i
    ensures forall k :: 0 < k < n && Parent(k) == i && k != j ==> !Less(items[k], items[j])
  {
    j := 2 * i + 1;
    if j + 1 < n && Less(items[j + 1], items[j]) {
      j := j + 1;
      NotLessBothWays(items[j], items[j - 1]);
    }
    assert forall k :: 0 < k && Parent(k) == i ==> k == 2 * i + 1 || k == 2 * i + 2;
  }

  /** heap.down: moves item i0 below every item of its subtree, of the first n
      items, that comes before it. */
  method Down(items: seq<Cursor>, i0: nat, n: nat) returns (t: seq<Cursor>)
    requires AllAt(items) && n <= |items| && OnePerInput(items)
    requires Ordered(items, i0, n, i0)
    ensures SameCursors(items, t) && OnePerInput(t) && AllAt(t)
    ensures Ordered(t, i0, n, -1)
    ensures t[n..] == items[n..]
  {
    t := items;
    var i := i0;
    while 2 * i + 1 < n
      invariant SameCursors(items, t) && OnePerInput(t) && AllAt(t)
      invariant i0 <= i
      invariant Ordered(t, i0, n, i) && Bridged(t, i0, n, i)
      invariant t[n..] == items[n..]
      decreases n - i
    {
      var j := LesserChild(t, i, n);
      if !Less(t[j], t[i]) {
        forall k | 0 < k < n && Parent(k) == i
          ensures !Less(t[k], t[i])
        {
          if k != j { NotLessTransitive(t[i], t[j], t[k]); }
        }
        return;
      }
      SwapDown(t, i0, n, i, j);
      t := Swap(t, i, j);
      i := j;
    }
    assert forall k :: 0 < k < n ==> Parent(k) != i;
  }

  /** heap.Init. */
  method Init(items: seq<Cursor>) returns (t: seq<Cursor>)
    requires AllAt(items) && OnePerInput(items)
    ensures Heap(t) && SameCursors(items, t) && OnePerInput(t)
  {
    t := items;
    var n := |items|;
    for i := n / 2 downto 0
      invariant SameCursors(items, t) && OnePerInput(t) && AllAt(t)
      invariant Ordered(t, i, n, -1)
    {
      t := Down(t, i, n);
    }
  }

  /** heap.Fix at the root, after its cursor moved on to c. */
  method FixRoot(items: seq<Cursor>, c: Cursor) returns (t: seq<Cursor>)
    requires Heap(items) && items != [] && OnePerInput(items)
    requires c.key.Some? && c.order == items[0].order
    ensures Heap(t) && OnePerInput(t) && SameCursors(items[0 := c], t)
  {
    t := Down(items[0 := c], 0, |items|);
  }

  /** heap.Pop. */
  method PopRoot(items: seq<Cursor>) returns (t: seq<Cursor>)
    requires Heap(items) && items != [] && OnePerInput(items)
    ensures Heap(t) && OnePerInput(t) && SameCursors(items[1..], t)
  {
    var n := |items| - 1;
    t := Swap(items, 0, n);
    ghost var s := t;
    assert forall k :: 0 < k < n ==> s[k] == items[k];
    t := Down(t, 0, n);
    assert t[n] == t[n..][0] == s[n..][0] == items[0];
    SwappedLast(items, s, t);
    t := t[..n];
  }

  lemma {:induction false} SwappedLast(items: seq<Cursor>, s: seq<Cursor>, t: seq<Cursor>)
    requires |items| > 0 && OnePerInput(items) && OnePerInput(t)
    requires SameCursors(items, s) && SameCursors(s, t) && t[|t| - 1] == items[0]
    ensures SameCursors(items[1..], t[..|t| - 1])
  {
    var n := |t| - 1;
    forall c
      ensures c in items[1..] <==> c in t[..n]
    {
      if c in items[1..] {
        var i :| 1 <= i < |items| && items[i] == c;
        assert c in t;
        var j :| 0 <= j < |t| && t[j] == c;
        assert j != n;
        assert t[..n][j] == c;
      }
      if c in t[..n] {
        var j :| 0 <= j < n && t[j] == c;
        assert c in items;
        var i :| 0 <= i < |items| && items[i] == c;
        assert i != 0;
        assert items[1..][i - 1] == c;
      }
    }
  }

  /** The root of the heap comes before every other cursor. */
  lemma {:induction false} RootIsLeast(items: seq<Cursor>, k: nat)
    requires Heap(items) && k < |items|
    ensures !Less(items[k], items[0])
  {
    if k == 0 {
      CompareKeysAntisymmetric(items[0].key.value, items[0].key.value);
    } else {
      RootIsLeast(items, Parent(k));
      NotLessTransitive(items[0], items[Parent(k)], items[k]);
    }
  }
}
