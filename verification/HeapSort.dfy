/**
 The heapsort that quicksort falls back to: `sphSiftDown` and `sphHeapSort` on the part
 of an array that starts at `lo`.  Positions in the heap count from `lo`.
 */
module HeapSort {
  import opened SortSpec

  predicate Child(p: int, c: int)
  {
    c == 2 * p + 1 || c == 2 * p + 2
  }

  /** No child up to `end` is greater than its parent, for parents from `from` on. */
  ghost predicate Heap<T>(less: (T, T) -> bool, s: seq<T>, lo: int, from: int, end: int)
    requires 0 <= lo && 0 <= from && lo + end < |s|
  {
    forall p, c :: from <= p && Child(p, c) && c <= end ==> Le(less, s[lo + c], s[lo + p])
  }

  /** A heap but for the children of `cur`, which are not greater than the parent of `cur`. */
  ghost predicate HeapBut<T>(less: (T, T) -> bool, s: seq<T>, lo: int, from: int, end: int, cur: int)
    requires 0 <= lo && 0 <= from && lo + end < |s|
  {
    && (forall p, c :: from <= p && Child(p, c) && c <= end && p != cur ==> Le(less, s[lo + c], s[lo + p]))
    && (forall p, c :: from <= p && Child(p, cur) && Child(cur, c) && c <= end ==> Le(less, s[lo + c], s[lo + p]))
  }

  /** `child` is a greatest child of `cur`. */
  ghost predicate Greatest<T>(less: (T, T) -> bool, s: seq<T>, lo: int, end: int, cur: int, child: int)
    requires 0 <= lo && 0 <= cur && lo + end < |s|
  {
    Child(cur, child) && child <= end && forall c :: Child(cur, c) && c <= end ==> Le(less, s[lo + c], s[lo + child])
  }

  lemma SiftStep<T(!new)>(less: (T, T) -> bool, s: seq<T>, t: seq<T>, lo: int, from: int, end: int, cur: int,
                          child: int)
    requires StrictWeak(less) && 0 <= lo && 0 <= from <= cur && lo + end < |s|
    requires HeapBut(less, s, lo, from, end, cur) && Greatest(less, s, lo, end, cur, child)
    requires Le(less, s[lo + cur], s[lo + child]) && Exchanged(s, t, lo + child, lo + cur)
    ensures HeapBut(less, t, lo, from, end, child)
  {
    forall p, c | from <= p && Child(p, c) && c <= end && p != child ensures Le(less, t[lo + c], t[lo + p]) {
      if c == cur {
        assert Child(p, cur) && Child(cur, child);
      }
    }
  }

  lemma SiftDone<T(!new)>(less: (T, T) -> bool, s: seq<T>, lo: int, from: int, end: int, cur: int, child: int)
    requires StrictWeak(less) && 0 <= lo && 0 <= from <= cur && lo + end < |s|
    requires HeapBut(less, s, lo, from, end, cur) && Greatest(less, s, lo, end, cur, child)
    requires less(s[lo + child], s[lo + cur])
    ensures Heap(less, s, lo, from, end)
  {
    forall c | Child(cur, c) && c <= end ensures Le(less, s[lo + c], s[lo + cur]) {
      LeTrans(less, s[lo + c], s[lo + child], s[lo + cur]);
    }
  }

  method GreaterChild<T(!new)>(less: (T, T) -> bool, a: array<T>, lo: int, cur: int, end: int) returns (child: int)
    requires StrictWeak(less) && 0 <= lo && 0 <= cur && 2 * cur + 1 <= end && lo + end < a.Length
    ensures Greatest(less, a[..], lo, end, cur, child)
  {
    child := 2 * cur + 1;
    if child + 1 <= end && less(a[lo + child], a[lo + child + 1]) {
      child := child + 1;
    }
  }

  method SiftDown<T(!new)>(less: (T, T) -> bool, a: array<T>, lo: int, start: int, end: int, ghost before: seq<T>)
    returns (ghost s: seq<T>)
    requires StrictWeak(less) && 0 <= lo && 0 <= start && start - 1 <= end && lo + end < a.Length
    requires a[..] == before && Heap(less, before, lo, start + 1, end)
    modifies a
    ensures a[..] == s && |s| == |before|
    ensures RangePerm(before, s, lo, lo + end + 1) && Heap(less, s, lo, start, end)
  {
    s := before;
    PermRefl(s, lo, lo + end + 1);
    var cur := start;
    while 2 * cur + 1 <= end
      invariant start <= cur
      invariant a[..] == s && |s| == |before| && RangePerm(before, s, lo, lo + end + 1)
      invariant HeapBut(less, s, lo, start, end, cur)
      decreases end - cur
    {
      var child := GreaterChild(less, a, lo, cur, end);
      if less(a[lo + child], a[lo + cur]) {
        SiftDone(less, s, lo, start, end, cur, child);
        return;
      }
      ghost var t := Swap(a, lo + child, lo + cur, s);
      SiftStep(less, s, t, lo, start, end, cur, child);
      PermStep(before, s, t, lo, lo + end + 1, lo + child, lo + cur);
      s, cur := t, child;
    }
  }

  /** The root of a heap is a greatest entry. */
  lemma {:induction false} RootIsGreatest<T(!new)>(less: (T, T) -> bool, s: seq<T>, lo: int, end: int, i: int)
    requires StrictWeak(less) && 0 <= lo && 0 <= i <= end && lo + end < |s| && Heap(less, s, lo, 0, end)
    ensures Le(less, s[lo + i], s[lo])
    decreases i
  {
    if i > 0 {
      var p := (i - 1) / 2;
      assert Child(p, i);
      RootIsGreatest(less, s, lo, end, p);
      LeTrans(less, s[lo + i], s[lo + p], s[lo]);
    }
  }

  /** Sorted from `lo + end` to `hi`, with no smaller entry there than below. */
  ghost predicate Topped<T>(less: (T, T) -> bool, s: seq<T>, lo: int, end: int, hi: int)
    requires 0 <= lo && 0 <= end && hi <= |s|
  {
    && SortedRange(less, s, lo + end, hi)
    && forall p, q :: lo <= p < lo + end <= q < hi ==> Le(less, s[p], s[q])
  }

  lemma PopRoot<T(!new)>(less: (T, T) -> bool, s: seq<T>, t: seq<T>, lo: int, end: int, hi: int)
    requires StrictWeak(less) && 0 <= lo && 0 < end && lo + end < hi <= |s|
    requires Heap(less, s, lo, 0, end) && Topped(less, s, lo, end + 1, hi) && Exchanged(s, t, lo, lo + end)
    ensures Heap(less, t, lo, 1, end - 1) && Topped(less, t, lo, end, hi)
  {
    forall p | lo <= p <= lo + end ensures Le(less, s[p], s[lo]) {
      RootIsGreatest(less, s, lo, end, p - lo);
    }
    forall p, q | lo <= p < lo + end <= q < hi ensures Le(less, t[p], t[q]) {
      assert t[p] == s[p] || t[p] == s[lo + end];
    }
  }

  /** Rearranging the heap keeps the sorted part above it. */
  lemma KeepTopped<T(!new)>(less: (T, T) -> bool, s: seq<T>, t: seq<T>, lo: int, end: int, hi: int)
    requires 0 <= lo && 0 <= end && lo + end <= hi <= |s| && RangePerm(s, t, lo, lo + end)
    requires Topped(less, s, lo, end, hi)
    ensures |t| == |s| && Topped(less, t, lo, end, hi)
  {
    PermLength(s, t, lo, lo + end);
    forall q | lo + end <= q < hi ensures t[q] == s[q] {
      var p := PermSource(s, t, lo, lo + end, q);
    }
    forall p, q | lo <= p < lo + end <= q < hi ensures Le(less, t[p], t[q]) {
      var p' := PermSource(s, t, lo, lo + end, p);
    }
  }

  /** Move the root behind the heap and restore the heap. */
  method PopGreatest<T(!new)>(less: (T, T) -> bool, a: array<T>, lo: int, end: int, hi: int, ghost before: seq<T>)
    returns (ghost t: seq<T>)
    requires StrictWeak(less) && 0 <= lo && 0 < end && lo + end < hi <= a.Length
    requires a[..] == before && Heap(less, before, lo, 0, end) && Topped(less, before, lo, end + 1, hi)
    modifies a
    ensures a[..] == t && |t| == |before| && RangePerm(before, t, lo, hi)
    ensures Heap(less, t, lo, 0, end - 1) && Topped(less, t, lo, end, hi)
  {
    ghost var s := Swap(a, lo, lo + end, before);
    PopRoot(less, before, s, lo, end, hi);
    PermRefl(before, lo, hi);
    PermStep(before, before, s, lo, hi, lo, lo + end);
    t := SiftDown(less, a, lo, 0, end - 1, s);
    AfterSift(less, before, s, t, lo, end - 1, hi);
  }

  lemma AfterSift<T(!new)>(less: (T, T) -> bool, before: seq<T>, s: seq<T>, t: seq<T>, lo: int, last: int, hi: int)
    requires 0 <= lo && 0 <= last && lo + last + 1 < hi <= |s| && Topped(less, s, lo, last + 1, hi)
    requires RangePerm(before, s, lo, hi) && RangePerm(s, t, lo, lo + last + 1)
    ensures |t| == |s| && RangePerm(before, t, lo, hi) && Topped(less, t, lo, last + 1, hi)
  {
    var end := last + 1;
    assert lo + last + 1 == lo + end;
    KeepTopped(less, s, t, lo, end, hi);
    PermWiden(s, t, lo, lo + end, lo, hi);
    PermTrans(before, s, t, lo, hi);
  }

  method BuildHeap<T(!new)>(less: (T, T) -> bool, a: array<T>, lo: int, n: int, ghost before: seq<T>)
    returns (ghost s: seq<T>)
    requires StrictWeak(less) && 0 <= lo && 2 <= n && lo + n <= a.Length && a[..] == before
    modifies a
    ensures a[..] == s && |s| == |before| && RangePerm(before, s, lo, lo + n) && Heap(less, s, lo, 0, n - 1)
  {
    s := before;
    PermRefl(s, lo, lo + n);
    var start := (n - 2) / 2;
    while start >= 0
      invariant -1 <= start <= (n - 2) / 2
      invariant a[..] == s && |s| == |before| && RangePerm(before, s, lo, lo + n)
      invariant Heap(less, s, lo, start + 1, n - 1)
      decreases start
    {
      ghost var t := SiftDown(less, a, lo, start, n - 1, s);
      PermTrans(before, s, t, lo, lo + n);
      s, start := t, start - 1;
    }
  }

  method SphHeapSort<T(!new)>(less: (T, T) -> bool, a: array<T>, lo: int, n: int, ghost before: seq<T>)
    returns (ghost s: seq<T>)
    requires StrictWeak(less) && 0 <= lo && 0 <= n && lo + n <= a.Length && a[..] == before
    modifies a
    ensures a[..] == s && |s| == |before| && RangePerm(before, s, lo, lo + n) && SortedRange(less, s, lo, lo + n)
  {
    if n <= 1 {
      PermRefl(before, lo, lo + n);
      return before;
    }
    s := BuildHeap(less, a, lo, n, before);
    var end := n - 1;
    while end > 0
      invariant 0 <= end < n
      invariant a[..] == s && |s| == |before| && RangePerm(before, s, lo, lo + n)
      invariant Heap(less, s, lo, 0, end) && Topped(less, s, lo, end + 1, lo + n)
    {
      ghost var t := PopGreatest(less, a, lo, end, lo + n, s);
      PermTrans(before, s, t, lo, lo + n);
      s, end := t, end - 1;
    }
  }
}
