/**
 `sphSort`: quicksort with explicit stacks of 32 slots, insertion sort for short parts,
 and heapsort when quicksort makes too little progress.
 */
module IntroSort {
  import opened Common
  import opened SortSpec
  import opened HeapSort

  const SMALL_THRESH: int := 32
  const STACK_SLOTS: int := 32
  /** Counts are of type int. */
  const COUNT_LIMIT: int := 0x8000_0000

  // ----- insertion sort -----

  /** Sorted but for the entry at `j`, which is not greater than those after it. */
  ghost predicate Sinking<T>(less: (T, T) -> bool, s: seq<T>, lo: int, i: int, j: int)
    requires 0 <= lo && i < |s|
  {
    && (forall p, q :: lo <= p < q <= i && p != j && q != j ==> Le(less, s[p], s[q]))
    && (forall q :: lo <= j < q <= i ==> Le(less, s[j], s[q]))
  }

  lemma SinkStep<T>(less: (T, T) -> bool, s: seq<T>, t: seq<T>, lo: int, i: int, j: int)
    requires 0 <= lo < j <= i < |s| && Sinking(less, s, lo, i, j) && Le(less, s[j], s[j - 1])
    requires Exchanged(s, t, j, j - 1)
    ensures Sinking(less, t, lo, i, j - 1)
  {
  }

  lemma SinkDone<T(!new)>(less: (T, T) -> bool, s: seq<T>, lo: int, i: int, j: int)
    requires StrictWeak(less) && 0 <= lo <= j <= i < |s| && Sinking(less, s, lo, i, j)
    requires j > lo ==> Le(less, s[j - 1], s[j])
    ensures SortedRange(less, s, lo, i + 1)
  {
    forall p | lo <= p < j ensures Le(less, s[p], s[j]) {
      if p < j - 1 {
        LeTrans(less, s[p], s[j - 1], s[j]);
      }
    }
  }

  /** Let the entry at `i` sink into the sorted entries before it. */
  method Insert<T(!new)>(less: (T, T) -> bool, a: array<T>, lo: int, i: int, ghost before: seq<T>)
    returns (ghost s: seq<T>)
    requires StrictWeak(less) && 0 <= lo < i < a.Length && a[..] == before && SortedRange(less, before, lo, i)
    modifies a
    ensures a[..] == s && |s| == |before| && RangePerm(before, s, lo, i + 1) && SortedRange(less, s, lo, i + 1)
  {
    s := before;
    PermRefl(s, lo, i + 1);
    var j := i;
    while j > lo
      invariant lo <= j <= i && a[..] == s && |s| == |before|
      invariant RangePerm(before, s, lo, i + 1) && Sinking(less, s, lo, i, j)
    {
      if less(a[j - 1], a[j]) {
        break;
      }
      ghost var t := Swap(a, j, j - 1, s);
      SinkStep(less, s, t, lo, i, j);
      PermStep(before, s, t, lo, i + 1, j, j - 1);
      s, j := t, j - 1;
    }
    SinkDone(less, s, lo, i, j);
  }

  method InsertionSort<T(!new)>(less: (T, T) -> bool, a: array<T>, lo: int, hi: int, ghost before: seq<T>)
    returns (ghost s: seq<T>)
    requires StrictWeak(less) && 0 <= lo <= hi < a.Length && a[..] == before
    modifies a
    ensures a[..] == s && |s| == |before| && RangePerm(before, s, lo, hi + 1) && SortedRange(less, s, lo, hi + 1)
  {
    s := before;
    PermRefl(s, lo, hi + 1);
    var i := lo + 1;
    while i <= hi
      invariant lo < i <= hi + 1 && a[..] == s && |s| == |before|
      invariant RangePerm(before, s, lo, hi + 1) && SortedRange(less, s, lo, i)
    {
      ghost var t := Insert(less, a, lo, i, s);
      PermWiden(s, t, lo, i + 1, lo, hi + 1);
      PermTrans(before, s, t, lo, hi + 1);
      s, i := t, i + 1;
    }
  }

  // ----- partition -----

  /** Entries before `i` are not above the pivot, entries after `j` not below it. */
  ghost predicate Parted<T>(less: (T, T) -> bool, s: seq<T>, lo: int, hi: int, i: int, j: int, x: T)
    requires 0 <= lo && hi < |s|
  {
    && (forall p :: lo <= p < i && p <= hi ==> Le(less, s[p], x))
    && (forall q :: j < q <= hi && lo <= q ==> Le(less, x, s[q]))
  }

  /** Both scans will stop inside the part. */
  ghost predicate Guarded<T>(less: (T, T) -> bool, s: seq<T>, lo: int, hi: int, i: int, j: int, x: T)
    requires 0 <= lo && hi < |s|
  {
    && (exists p :: lo <= i <= p <= hi && Le(less, x, s[p]))
    && (exists q :: lo <= q <= j <= hi && Le(less, s[q], x))
  }

  method ScanUp<T(!new)>(less: (T, T) -> bool, a: array<T>, lo: int, hi: int, from: int, j: int, x: T) returns (i: int)
    requires StrictWeak(less) && 0 <= lo && hi < a.Length && Parted(less, a[..], lo, hi, from, j, x)
    requires Guarded(less, a[..], lo, hi, from, j, x)
    ensures from <= i <= hi && Le(less, x, a[i]) && Parted(less, a[..], lo, hi, i, j, x)
    ensures forall p :: from <= p <= hi && Le(less, x, a[p]) ==> i <= p
  {
    i := from;
    ghost var p :| lo <= i <= p <= hi && Le(less, x, a[..][p]);
    while less(a[i], x)
      invariant from <= i <= p
      invariant Parted(less, a[..], lo, hi, i, j, x)
      invariant forall r :: from <= r < i ==> less(a[r], x)
      decreases p - i
    {
      i := i + 1;
    }
  }

  method ScanDown<T(!new)>(less: (T, T) -> bool, a: array<T>, lo: int, hi: int, i: int, from: int, x: T)
    returns (j: int)
    requires StrictWeak(less) && 0 <= lo && hi < a.Length && Parted(less, a[..], lo, hi, i, from, x)
    requires exists q :: lo <= q <= from <= hi && Le(less, a[..][q], x)
    ensures lo <= j <= from && Le(less, a[j], x) && Parted(less, a[..], lo, hi, i, j, x)
    ensures forall q :: lo <= q <= from && Le(less, a[q], x) ==> q <= j
  {
    j := from;
    ghost var q :| lo <= q <= j <= hi && Le(less, a[..][q], x);
    while less(x, a[j])
      invariant q <= j <= from
      invariant Parted(less, a[..], lo, hi, i, j, x)
      invariant forall r :: j < r <= from ==> less(x, a[r])
      decreases j - q
    {
      j := j - 1;
    }
  }

  lemma PartStep<T(!new)>(less: (T, T) -> bool, s: seq<T>, t: seq<T>, lo: int, hi: int, i: int, j: int, x: T)
    requires 0 <= lo <= i <= j <= hi < |s| && Parted(less, s, lo, hi, i, j, x)
    requires Le(less, x, s[i]) && Le(less, s[j], x) && Exchanged(s, t, i, j)
    ensures Parted(less, t, lo, hi, i + 1, j - 1, x)
    ensures i + 1 <= j - 1 ==> Guarded(less, t, lo, hi, i + 1, j - 1, x)
  {
    assert Le(less, t[i], x) && Le(less, x, t[j]);
  }

  /** Both scans; they do not pass an entry that is equivalent to `x`. */
  method Scan<T(!new)>(less: (T, T) -> bool, a: array<T>, lo: int, hi: int, i0: int, j0: int, x: T, ghost s: seq<T>)
    returns (i: int, j: int)
    requires StrictWeak(less) && a[..] == s && 0 <= lo <= i0 <= j0 <= hi < |s|
    requires Parted(less, s, lo, hi, i0, j0, x) && Guarded(less, s, lo, hi, i0, j0, x)
    ensures i0 <= i <= hi && lo <= j <= j0 && Parted(less, s, lo, hi, i, j, x) && Le(less, x, s[i]) && Le(less, s[j], x)
    ensures forall m :: i0 <= m <= j0 && Le(less, x, s[m]) && Le(less, s[m], x) ==> i <= m <= j
  {
    i := ScanUp(less, a, lo, hi, i0, j0, x);
    j := ScanDown(less, a, lo, hi, i, j0, x);
  }

  /** Hoare's partition around the value `x` of some entry: both sides end up shorter. */
  method Partition<T(!new)>(less: (T, T) -> bool, a: array<T>, lo: int, hi: int, mid: int, ghost before: seq<T>)
    returns (i: int, j: int, ghost s: seq<T>)
    requires StrictWeak(less) && 0 <= lo <= mid <= hi < a.Length && a[..] == before
    modifies a
    ensures a[..] == s && |s| == |before| && RangePerm(before, s, lo, hi + 1)
    ensures lo < i <= hi + 1 && lo - 1 <= j < hi && j < i
    ensures Parted(less, s, lo, hi, i, j, before[mid])
  {
    var x := a[mid];
    i, j, s := lo, hi, before;
    PermRefl(s, lo, hi + 1);
    assert Le(less, x, s[mid]) && Le(less, s[mid], x);
    while i <= j
      invariant lo <= i <= hi + 1 && lo - 1 <= j <= hi && a[..] == s && |s| == |before|
      invariant RangePerm(before, s, lo, hi + 1) && Parted(less, s, lo, hi, i, j, x)
      invariant i <= j ==> Guarded(less, s, lo, hi, i, j, x)
      invariant (i == lo && j == hi && s == before) || (lo < i && j < hi)
      decreases j - i
    {
      i, j := Scan(less, a, lo, hi, i, j, x, s);
      if i <= j {
        ghost var t := Swap(a, i, j, s);
        PartStep(less, s, t, lo, hi, i, j, x);
        PermStep(before, s, t, lo, hi + 1, i, j);
        s, i, j := t, i + 1, j - 1;
      }
    }
  }

  // ----- the parts that are still to be sorted -----

  /** The entries lo to hi. */
  datatype Part = Part(lo: int, hi: int)

  ghost predicate Together(parts: seq<Part>, p: int, q: int)
  {
    exists m :: 0 <= m < |parts| && parts[m].lo <= p && q <= parts[m].hi
  }

  ghost predicate In(p: int, part: Part)
  {
    part.lo <= p <= part.hi
  }

  ghost predicate Apart(parts: seq<Part>)
  {
    forall m, r, p :: 0 <= m < |parts| && 0 <= r < |parts| && In(p, parts[m]) && In(p, parts[r]) ==> m == r
  }

  /** The first `n` entries are in order but for pairs inside one of the disjoint parts. */
  ghost predicate Pending<T>(less: (T, T) -> bool, s: seq<T>, n: int, parts: seq<Part>)
    requires 0 <= n <= |s|
  {
    && (forall m :: 0 <= m < |parts| ==> 0 <= parts[m].lo && parts[m].hi < n && parts[m].lo <= parts[m].hi + 1)
    && Apart(parts)
    && forall p, q :: 0 <= p < q < n && !Together(parts, p, q) ==> Le(less, s[p], s[q])
  }

  lemma PendingStart<T>(less: (T, T) -> bool, s: seq<T>, n: int)
    requires 1 <= n <= |s|
    ensures Pending(less, s, n, [Part(0, n - 1)])
  {
    var parts := [Part(0, n - 1)];
    forall p, q | 0 <= p < q < n ensures Together(parts, p, q) {
      assert parts[0].lo <= p && q <= parts[0].hi;
    }
  }

  /** Rearranging one part keeps the order around it. */
  lemma PendingPermute<T(!new)>(less: (T, T) -> bool, s: seq<T>, t: seq<T>, n: int, parts: seq<Part>, m: int)
    requires 0 <= n <= |s| && Pending(less, s, n, parts) && 0 <= m < |parts|
    requires RangePerm(s, t, parts[m].lo, parts[m].hi + 1)
    ensures |t| == |s| && Pending(less, t, n, parts)
  {
    var lo, hi := parts[m].lo, parts[m].hi;
    PermLength(s, t, lo, hi + 1);
    forall p, q | 0 <= p < q < n && !Together(parts, p, q) ensures Le(less, t[p], t[q]) {
      var p' := PermSource(s, t, lo, hi + 1, p);
      var q' := PermSource(s, t, lo, hi + 1, q);
      if Together(parts, p', q') {
        var r :| 0 <= r < |parts| && parts[r].lo <= p' && q' <= parts[r].hi;
        SamePart(parts, m, r, p, q, p', q');
      }
    }
  }

  /** Moving inside part `m` does not bring two entries together. */
  lemma SamePart(parts: seq<Part>, m: int, r: int, p: int, q: int, p': int, q': int)
    requires Apart(parts) && 0 <= m < |parts| && 0 <= r < |parts| && p < q
    requires if In(p, parts[m]) then In(p', parts[m]) else p' == p
    requires if In(q, parts[m]) then In(q', parts[m]) else q' == q
    requires parts[r].lo <= p' && q' <= parts[r].hi
    ensures Together(parts, p, q)
  {
    var pm, pr := parts[m], parts[r];
    assert In(p, pm) && In(q, pm) ==> pm.lo <= p && q <= pm.hi;
    assert !In(p, pm) && !In(q, pm) ==> pr.lo <= p && q <= pr.hi;
    assert In(p', pm) && In(p', pr) ==> m == r;
    assert In(q', pm) && In(q', pr) ==> m == r;
  }

  /** A sorted part is no longer pending. */
  lemma PendingDrop<T>(less: (T, T) -> bool, s: seq<T>, n: int, parts: seq<Part>, last: Part)
    requires 0 <= n <= |s| && 0 <= last.lo && last.hi < n
    requires Pending(less, s, n, parts + [last]) && SortedRange(less, s, last.lo, last.hi + 1)
    ensures Pending(less, s, n, parts)
  {
    var all := parts + [last];
    assert forall m :: 0 <= m < |parts| ==> parts[m] == all[m];
    forall m, r, p | 0 <= m < |parts| && 0 <= r < |parts| && In(p, parts[m]) && In(p, parts[r]) ensures m == r {
      assert In(p, all[m]) && In(p, all[r]);
    }
    forall p, q | 0 <= p < q < n && !Together(parts, p, q) ensures Le(less, s[p], s[q]) {
      if Together(all, p, q) {
        var m :| 0 <= m < |all| && all[m].lo <= p && q <= all[m].hi;
        assert m == |parts|;
      }
    }
  }

  /** A partitioned part gives way to its two sides. */
  lemma PendingSplit<T(!new)>(less: (T, T) -> bool, s: seq<T>, n: int, parts: seq<Part>, part: Part, i: int, j: int,
                              x: T)
    requires StrictWeak(less) && 0 <= n <= |s| && 0 <= part.lo && part.hi < n && Pending(less, s, n, parts + [part])
    requires part.lo < i <= part.hi + 1 && part.lo - 1 <= j < part.hi && j < i
    requires Parted(less, s, part.lo, part.hi, i, j, x)
    ensures Pending(less, s, n, parts + [Part(part.lo, j), Part(i, part.hi)])
    ensures Pending(less, s, n, parts + [Part(i, part.hi), Part(part.lo, j)])
  {
    var left, right := Part(part.lo, j), Part(i, part.hi);
    PendingSplitInto(less, s, n, parts, part, left, right, i, j, x);
    PendingSplitInto(less, s, n, parts, part, right, left, i, j, x);
  }

  lemma PendingSplitInto<T(!new)>(less: (T, T) -> bool, s: seq<T>, n: int, parts: seq<Part>, part: Part, one: Part,
                                  two: Part, i: int, j: int, x: T)
    requires StrictWeak(less) && 0 <= n <= |s| && 0 <= part.lo && part.hi < n && Pending(less, s, n, parts + [part])
    requires part.lo < i <= part.hi + 1 && part.lo - 1 <= j < part.hi && j < i
    requires Parted(less, s, part.lo, part.hi, i, j, x)
    requires (one == Part(part.lo, j) && two == Part(i, part.hi))
          || (two == Part(part.lo, j) && one == Part(i, part.hi))
    ensures Pending(less, s, n, parts + [one, two])
  {
    var whole, all := parts + [part], parts + [one, two];
    assert forall m :: 0 <= m < |parts| ==> all[m] == parts[m] && whole[m] == parts[m];
    assert whole[|parts|] == part && all[|parts|] == one && all[|parts| + 1] == two;
    forall m, r, p | 0 <= m < |all| && 0 <= r < |all| && In(p, all[m]) && In(p, all[r]) ensures m == r {
      var m', r' := if m < |parts| then m else |parts|, if r < |parts| then r else |parts|;
      assert In(p, whole[m']) && In(p, whole[r']);
    }
    forall p, q | 0 <= p < q < n && !Together(all, p, q) ensures Le(less, s[p], s[q]) {
      if Together(whole, p, q) {
        TogetherSplit(parts, part, one, two, i, j, p, q);
        LeTrans(less, s[p], x, s[q]);
      }
    }
  }

  /** Two entries of one part stay together or end up on the two sides of the pivot. */
  lemma TogetherSplit(parts: seq<Part>, part: Part, one: Part, two: Part, i: int, j: int, p: int, q: int)
    requires p < q && j < i && Together(parts + [part], p, q)
    requires (one == Part(part.lo, j) && two == Part(i, part.hi))
          || (two == Part(part.lo, j) && one == Part(i, part.hi))
    ensures Together(parts + [one, two], p, q) || (part.lo <= p && q <= part.hi && p < i && j < q)
  {
    var before, after := parts + [part], parts + [one, two];
    var m :| 0 <= m < |before| && before[m].lo <= p && q <= before[m].hi;
    assert after[|parts|] == one && after[|parts| + 1] == two;
    if m < |parts| {
      assert after[m] == before[m];
    }
  }

  // ----- the stacks -----

  function Size(p: Part): int
  {
    p.hi - p.lo + 1
  }

  /** n halved m times, rounding down. */
  function Half(n: int, m: nat): int
  {
    if m == 0 then n else Half(n, m - 1) / 2
  }

  /** Slot m of the stacks holds at most n / 2^m entries, and at least two. */
  ghost predicate Budgeted(parts: seq<Part>, n: int)
  {
    forall m :: 0 <= m < |parts| ==> 2 <= Size(parts[m]) <= Half(n, m)
  }

  function Pow2(m: nat): int
  {
    if m == 0 then 1 else 2 * Pow2(m - 1)
  }

  lemma Pow2Is()
    ensures Pow2(31) == COUNT_LIMIT
  {
    assert Pow2(8) == 0x100;
    assert Pow2(16) == 0x100 * Pow2(8);
    assert Pow2(24) == 0x100 * Pow2(16);
    assert Pow2(31) == 0x80 * Pow2(24);
  }

  lemma {:induction false} HalfBound(n: int, m: nat)
    requires 0 <= n < COUNT_LIMIT && m <= 31
    ensures 0 <= Half(n, m) < Pow2(31 - m)
  {
    if m == 0 {
      Pow2Is();
    } else {
      HalfBound(n, m - 1);
      assert Pow2(31 - (m - 1)) == 2 * Pow2(31 - m);
    }
  }

  lemma {:induction false} HalfBelow(n: int, m: nat)
    requires 0 <= n < COUNT_LIMIT && m >= 30
    ensures 0 <= Half(n, m) <= 1
    decreases m
  {
    if m == 30 {
      HalfBound(n, 30);
      assert Pow2(1) == 2 * Pow2(0);
    } else {
      HalfBelow(n, m - 1);
    }
  }

  /** Thirty slots are enough for every count that an int can hold. */
  lemma StackSuffices(parts: seq<Part>, n: int)
    requires 0 <= n < COUNT_LIMIT && Budgeted(parts, n)
    ensures |parts| <= 30
  {
    if |parts| > 30 {
      HalfBelow(n, |parts| - 1);
    }
  }

  ghost predicate OnStack(st0: array<int>, st1: array<int>, parts: seq<Part>)
    reads st0, st1
  {
    && st0.Length == STACK_SLOTS && st1.Length == STACK_SLOTS && |parts| <= STACK_SLOTS
    && forall m :: 0 <= m < |parts| ==> st0[m] == parts[m].lo && st1[m] == parts[m].hi
  }

  method Push(st0: array<int>, st1: array<int>, k: int, lo: int, hi: int, ghost parts: seq<Part>, ghost n: int)
    requires st0 != st1 && OnStack(st0, st1, parts) && k == |parts| && Budgeted(parts, n) && 0 <= n < COUNT_LIMIT
    requires 2 <= Size(Part(lo, hi)) <= Half(n, k)
    modifies st0, st1
    ensures OnStack(st0, st1, parts + [Part(lo, hi)]) && Budgeted(parts + [Part(lo, hi)], n)
  {
    StackSuffices(parts, n);
    st0[k], st1[k] := lo, hi;
  }

  ghost function IfLong(p: Part): seq<Part>
  {
    if p.lo < p.hi then [p] else []
  }

  /** The larger side first, so that the smaller one is on top; sides of one entry are left out. */
  ghost function Sides(lo: int, hi: int, i: int, j: int): seq<Part>
  {
    if j - lo >= hi - i then IfLong(Part(lo, j)) + IfLong(Part(i, hi))
    else IfLong(Part(i, hi)) + IfLong(Part(lo, j))
  }

  method PushIfLong(st0: array<int>, st1: array<int>, k0: int, lo: int, hi: int, ghost parts: seq<Part>, ghost n: int)
    returns (k: int)
    requires st0 != st1 && OnStack(st0, st1, parts) && k0 == |parts| && Budgeted(parts, n) && 0 <= n < COUNT_LIMIT
    requires lo < hi ==> 2 <= Size(Part(lo, hi)) <= Half(n, k0)
    modifies st0, st1
    ensures var all := parts + IfLong(Part(lo, hi)); OnStack(st0, st1, all) && k == |all| && Budgeted(all, n)
  {
    k := k0;
    if lo < hi {
      Push(st0, st1, k, lo, hi, parts, n);
      k := k + 1;
    } else {
      assert parts + IfLong(Part(lo, hi)) == parts;
    }
  }

  /** The larger side fits the budget of the whole part, the smaller one that of the next slot. */
  lemma SidesFit(lo: int, hi: int, i: int, j: int, n: int, k: nat)
    requires 0 <= n && 2 <= Size(Part(lo, hi)) <= Half(n, k) && lo < i <= hi + 1 && lo - 1 <= j < hi && j < i
    ensures Size(Part(lo, j)) <= Half(n, k) && Size(Part(i, hi)) <= Half(n, k)
    ensures j - lo >= hi - i ==> Size(Part(i, hi)) <= Half(n, k + 1) && (lo >= j ==> i >= hi)
    ensures j - lo < hi - i ==> Size(Part(lo, j)) <= Half(n, k + 1) && (i >= hi ==> lo >= j)
  {
  }

  /** What the loop below has pushed when it stands at `a` and `b`. */
  ghost predicate Pushing(lo: int, hi: int, i: int, j: int, a: int, b: int, parts: seq<Part>, now: seq<Part>)
  {
    || (a == lo && b == hi && now == parts)
    || (a == i && b == hi && j - lo >= hi - i && now == parts + IfLong(Part(lo, j)))
    || (a == lo && b == j && j - lo < hi - i && now == parts + IfLong(Part(i, hi)))
    || (a > b && now == parts + Sides(lo, hi, i, j))
  }

  lemma PushLow(lo: int, hi: int, i: int, j: int, a: int, b: int, parts: seq<Part>, now: seq<Part>, n: int)
    requires 0 <= n && 2 <= Size(Part(lo, hi)) <= Half(n, |parts|) && lo < i <= hi + 1 && lo - 1 <= j < hi && j < i
    requires Pushing(lo, hi, i, j, a, b, parts, now) && a < b && j - a >= b - i
    ensures Size(Part(a, j)) >= 2 ==> Size(Part(a, j)) <= Half(n, |now|)
    ensures Pushing(lo, hi, i, j, i, b, parts, now + IfLong(Part(a, j))) && i > a
  {
    SidesFit(lo, hi, i, j, n, |parts|);
    Regroup(parts, IfLong(Part(i, hi)), IfLong(Part(a, j)));
    Regroup(parts, [], IfLong(Part(a, j)));
  }

  lemma PushHigh(lo: int, hi: int, i: int, j: int, a: int, b: int, parts: seq<Part>, now: seq<Part>, n: int)
    requires 0 <= n && 2 <= Size(Part(lo, hi)) <= Half(n, |parts|) && lo < i <= hi + 1 && lo - 1 <= j < hi && j < i
    requires Pushing(lo, hi, i, j, a, b, parts, now) && a < b && j - a < b - i
    ensures Size(Part(i, b)) >= 2 ==> Size(Part(i, b)) <= Half(n, |now|)
    ensures Pushing(lo, hi, i, j, a, j, parts, now + IfLong(Part(i, b))) && j < b
  {
    SidesFit(lo, hi, i, j, n, |parts|);
    Regroup(parts, IfLong(Part(lo, j)), IfLong(Part(i, b)));
    Regroup(parts, [], IfLong(Part(i, b)));
  }

  /** The loop that pushes both sides of a partitioned part. */
  method PushSides(st0: array<int>, st1: array<int>, k0: int, lo: int, hi: int, i: int, j: int, ghost parts: seq<Part>,
                   ghost n: int)
    returns (k: int)
    requires st0 != st1 && OnStack(st0, st1, parts) && k0 == |parts| && Budgeted(parts, n) && 0 <= n < COUNT_LIMIT
    requires 2 <= Size(Part(lo, hi)) <= Half(n, k0)
    requires lo < i <= hi + 1 && lo - 1 <= j < hi && j < i
    modifies st0, st1
    ensures var all := parts + Sides(lo, hi, i, j); OnStack(st0, st1, all) && k == |all| && Budgeted(all, n)
  {
    k := k0;
    var a, b := lo, hi;
    ghost var now := parts;
    while a < b
      invariant OnStack(st0, st1, now) && k == |now| && Budgeted(now, n)
      invariant Pushing(lo, hi, i, j, a, b, parts, now)
      decreases b - a
    {
      if j - a >= b - i {
        PushLow(lo, hi, i, j, a, b, parts, now, n);
        k := PushIfLong(st0, st1, k, a, j, now, n);
        now, a := now + IfLong(Part(a, j)), i;
      } else {
        PushHigh(lo, hi, i, j, a, b, parts, now, n);
        k := PushIfLong(st0, st1, k, i, b, now, n);
        now, b := now + IfLong(Part(i, b)), j;
      }
    }
  }

  // ----- the sort -----

  /** How much is left to do: the lengths of all pending parts. */
  ghost function Weight(parts: seq<Part>): int
  {
    if parts == [] then 0 else Weight(parts[..|parts| - 1]) + (parts[|parts| - 1].hi - parts[|parts| - 1].lo)
  }

  lemma {:induction false} WeightPositive(parts: seq<Part>, n: int)
    requires Budgeted(parts, n)
    ensures Weight(parts) >= |parts|
  {
    if parts != [] {
      WeightPositive(parts[..|parts| - 1], n);
      assert Size(parts[|parts| - 1]) >= 2;
    }
  }

  lemma {:induction false} WeightAppend(a: seq<Part>, b: seq<Part>)
    ensures Weight(a + b) == Weight(a) + Weight(b)
    decreases |b|
  {
    if b == [] {
      assert a + b == a;
    } else {
      WeightAppend(a, b[..|b| - 1]);
      assert (a + b)[..|a + b| - 1] == a + b[..|b| - 1];
    }
  }

  lemma WeightOfSides(lo: int, hi: int, i: int, j: int)
    requires lo < i <= hi + 1 && lo - 1 <= j < hi && j < i && lo < hi
    ensures Weight(Sides(lo, hi, i, j)) < hi - lo
  {
    var l, r := IfLong(Part(lo, j)), IfLong(Part(i, hi));
    WeightAppend(l, r);
    WeightAppend(r, l);
    assert Weight(l) == if lo < j then j - lo else 0;
    assert Weight(r) == if i < hi then hi - i else 0;
  }

  /** Sides of at most one entry need no sorting. */
  lemma PendingSides<T(!new)>(less: (T, T) -> bool, s: seq<T>, n: int, parts: seq<Part>, lo: int, hi: int, i: int,
                              j: int)
    requires 0 <= n <= |s| && 0 <= lo && hi < n && lo < i <= hi + 1 && lo - 1 <= j < hi && j < i
    requires Pending(less, s, n, parts + [Part(lo, j), Part(i, hi)])
    requires Pending(less, s, n, parts + [Part(i, hi), Part(lo, j)])
    ensures Pending(less, s, n, parts + Sides(lo, hi, i, j))
  {
    var l, r := Part(lo, j), Part(i, hi);
    assert parts + [l, r] == (parts + [l]) + [r] && parts + [r, l] == (parts + [r]) + [l];
    if !(i < hi) {
      PendingDrop(less, s, n, parts + [l], r);
      if !(lo < j) {
        PendingDrop(less, s, n, parts, l);
        assert parts + [] == parts;
      }
    } else if !(lo < j) {
      PendingDrop(less, s, n, parts + [r], l);
    }
    assert Sides(lo, hi, i, j) == (if j - lo >= hi - i then IfLong(l) + IfLong(r) else IfLong(r) + IfLong(l));
    assert [l] + [r] == [l, r] && [r] + [l] == [r, l];
    assert [l] + [] == [l] && [] + [r] == [r] && [r] + [] == [r] && [] + [l] == [l];
  }

  /** The number of bits of `n`. */
  function Log2(n: nat): (bits: nat)
    ensures n < Pow2(bits) && (bits > 0 ==> Pow2(bits - 1) <= n)
  {
    if n == 0 then 0 else 1 + Log2(n / 2)
  }

  /** Sort one part for good, by insertion sort or heapsort. */
  method FinishPart<T(!new)>(less: (T, T) -> bool, a: array<T>, n: int, lo: int, hi: int, heap: bool,
                             ghost rest: seq<Part>, ghost s: seq<T>)
    returns (ghost t: seq<T>)
    requires StrictWeak(less) && 0 <= lo <= hi < n <= a.Length && a[..] == s
    requires Pending(less, s, n, rest + [Part(lo, hi)])
    modifies a
    ensures a[..] == t && |t| == |s| && RangePerm(s, t, 0, n) && Pending(less, t, n, rest)
  {
    if heap {
      t := SphHeapSort(less, a, lo, hi - lo + 1, s);
      assert lo + (hi - lo + 1) == hi + 1;
    } else {
      t := InsertionSort(less, a, lo, hi, s);
    }
    var all := rest + [Part(lo, hi)];
    assert all[|rest|] == Part(lo, hi);
    PendingPermute(less, s, t, n, all, |rest|);
    PendingDrop(less, t, n, rest, Part(lo, hi));
    PermWiden(s, t, lo, hi + 1, 0, n);
  }

  /** Partition one part around its middle entry and push the sides. */
  method SplitPart<T(!new)>(less: (T, T) -> bool, a: array<T>, n: int, lo: int, hi: int, st0: array<int>,
                            st1: array<int>, k0: int,
                            ghost rest: seq<Part>, ghost s: seq<T>)
    returns (k: int, ghost t: seq<T>, ghost parts: seq<Part>)
    requires StrictWeak(less) && 0 <= lo < hi < n <= a.Length && n < COUNT_LIMIT
    requires a[..] == s && Pending(less, s, n, rest + [Part(lo, hi)])
    requires st0 != st1 && a as object != st0 && a as object != st1
    requires OnStack(st0, st1, rest) && k0 == |rest| && Budgeted(rest, n) && 2 <= Size(Part(lo, hi)) <= Half(n, k0)
    modifies a, st0, st1
    ensures a[..] == t && |t| == |s| && RangePerm(s, t, 0, n) && Pending(less, t, n, parts)
    ensures OnStack(st0, st1, parts) && k == |parts| && Budgeted(parts, n)
    ensures Weight(parts) < Weight(rest + [Part(lo, hi)])
  {
    var mid := lo + (hi - lo) / 2;
    ghost var x := a[mid];
    var i, j;
    i, j, t := Partition(less, a, lo, hi, mid, s);
    ghost var all := rest + [Part(lo, hi)];
    assert all[|rest|] == Part(lo, hi);
    PendingPermute(less, s, t, n, all, |rest|);
    PermWiden(s, t, lo, hi + 1, 0, n);
    PendingSplit(less, t, n, rest, Part(lo, hi), i, j, x);
    PendingSides(less, t, n, rest, lo, hi, i, j);
    parts := rest + Sides(lo, hi, i, j);
    WeightAppend(rest, Sides(lo, hi, i, j));
    WeightOfSides(lo, hi, i, j);
    WeightAppend(rest, [Part(lo, hi)]);
    assert [Part(lo, hi)][..0] == [];
    assert Weight([Part(lo, hi)]) == hi - lo;
    k := PushSides(st0, st1, k0, lo, hi, i, j, rest, n);
  }

  lemma TopIs(all: seq<Part>, n: int, top: Part)
    requires all != [] && Budgeted(all, n) && top == all[|all| - 1]
    ensures all == all[..|all| - 1] + [top] && Size(top) >= 2
  {
  }

  /** Pop the part on top of the stacks and deal with it; once only one part is left, this
      costs a unit of `limit`, and the last unit is spent on heapsort. */
  method SortTop<T(!new)>(less: (T, T) -> bool, a: array<T>, n: int, st0: array<int>, st1: array<int>, k0: int,
                          limit0: int,
                          ghost all: seq<Part>, ghost s: seq<T>)
    returns (k: int, limit: int, ghost t: seq<T>, ghost parts: seq<Part>)
    requires StrictWeak(less) && 0 <= n <= a.Length && n < COUNT_LIMIT
    requires a[..] == s && Pending(less, s, n, all)
    requires st0 != st1 && a as object != st0 && a as object != st1
    requires OnStack(st0, st1, all) && k0 == |all| && Budgeted(all, n) && k0 > 0 && limit0 >= 1
    modifies a, st0, st1
    ensures a[..] == t && |t| == |s| && RangePerm(s, t, 0, n) && Pending(less, t, n, parts)
    ensures OnStack(st0, st1, parts) && k == |parts| && Budgeted(parts, n) && (k > 0 ==> limit >= 1)
    ensures Weight(parts) < Weight(all)
  {
    k, limit := k0 - 1, limit0;
    var lo, hi := st0[k], st1[k];
    ghost var rest := all[..k];
    TopIs(all, n, Part(lo, hi));
    if k == 0 {
      limit := limit - 1;
    }
    if (k == 0 && limit == 0) || hi - lo <= SMALL_THRESH {
      t := FinishPart(less, a, n, lo, hi, k == 0 && limit == 0, rest, s);
      parts := rest;
    } else {
      k, t, parts := SplitPart(less, a, n, lo, hi, st0, st1, k, rest, s);
    }
  }

  /** The first `n` entries end up sorted and the same entries as before, for every strict
      weak order; the stacks stay within their slots. */
  method SphSort<T(!new)>(less: (T, T) -> bool, a: array<T>, n: int)
    requires StrictWeak(less) && n <= a.Length && n < COUNT_LIMIT
    modifies a
    ensures n >= 0 ==> SortedRange(less, a[..], 0, n)
    ensures multiset(a[..]) == multiset(old(a[..]))
    ensures forall q :: 0 <= q < a.Length && n <= q ==> a[q] == old(a[q])
  {
    if n < 2 {
      return;
    }
    ghost var before, s := a[..], a[..];
    PermRefl(s, 0, n);
    var st0, st1 := new int[STACK_SLOTS], new int[STACK_SLOTS];
    var limit := 5 * Log2(n) / 2;
    assert Log2(n) >= 2;
    var k := 1;
    st0[0], st1[0] := 0, n - 1;
    ghost var parts := [Part(0, n - 1)];
    PendingStart(less, s, n);
    while k > 0
      invariant a[..] == s && |s| == |before| && RangePerm(before, s, 0, n) && Pending(less, s, n, parts)
      invariant OnStack(st0, st1, parts) && k == |parts| && Budgeted(parts, n) && (k > 0 ==> limit >= 1)
      decreases Weight(parts)
    {
      WeightPositive(parts, n);
      ghost var t;
      k, limit, t, parts := SortTop(less, a, n, st0, st1, k, limit, parts, s);
      PermTrans(before, s, t, 0, n);
      s := t;
    }
    AllSorted(less, before, s, n);
  }

  lemma AllSorted<T(!new)>(less: (T, T) -> bool, before: seq<T>, s: seq<T>, n: int)
    requires 0 <= n <= |s| && RangePerm(before, s, 0, n) && Pending(less, s, n, [])
    ensures SortedRange(less, s, 0, n) && multiset(s) == multiset(before) && |s| == |before|
    ensures forall q :: n <= q < |s| ==> s[q] == before[q]
  {
    PermMultiset(before, s, 0, n);
    PermLength(before, s, 0, n);
    forall q | n <= q < |s| ensures s[q] == before[q] {
      var p := PermSource(before, s, 0, n, q);
    }
    forall p, q | 0 <= p < q < n ensures Le(less, s[p], s[q]) {
      assert !Together([], p, q);
    }
  }
}
