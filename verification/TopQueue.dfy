/**
 `CSphQueue`: a heap of bounded capacity with its least entry on top.  A push into a full
 queue is rejected if the entry is less than the top, and otherwise evicts the top.
 */
module TopQueue {
  import opened SortSpec
  import opened HeapSort

  /** No child is less than its parent. */
  ghost predicate MinHeap<T>(less: (T, T) -> bool, s: seq<T>, n: int)
    requires n <= |s|
  {
    forall p, c :: 0 <= p && Child(p, c) && c < n ==> Le(less, s[p], s[c])
  }

  /** The children of `e` are not less than the parent of `e`. */
  ghost predicate Bridged<T>(less: (T, T) -> bool, s: seq<T>, n: int, e: int)
    requires n <= |s|
  {
    forall p, c :: 0 <= p && Child(p, e) && Child(e, c) && c < n ==> Le(less, s[p], s[c])
  }

  /** A heap but for `e` and its parent. */
  ghost predicate Rising<T>(less: (T, T) -> bool, s: seq<T>, n: int, e: int)
    requires n <= |s|
  {
    Bridged(less, s, n, e) && forall p, c :: 0 <= p && Child(p, c) && c < n && c != e ==> Le(less, s[p], s[c])
  }

  /** A heap but for `e` and its children. */
  ghost predicate Falling<T>(less: (T, T) -> bool, s: seq<T>, n: int, e: int)
    requires n <= |s|
  {
    Bridged(less, s, n, e) && forall p, c :: 0 <= p && Child(p, c) && c < n && p != e ==> Le(less, s[p], s[c])
  }

  lemma RiseStep<T(!new)>(less: (T, T) -> bool, s: seq<T>, t: seq<T>, n: int, e: int, p: int)
    requires StrictWeak(less) && 0 <= p && Child(p, e) && e < n <= |s| && Rising(less, s, n, e)
    requires less(s[e], s[p]) && Exchanged(s, t, e, p)
    ensures Rising(less, t, n, p)
  {
    forall q, c | 0 <= q && Child(q, c) && c < n && c != p ensures Le(less, t[q], t[c]) {
      if q == e {
        assert Child(p, e) && Child(e, c);
      } else if q == p && c != e {
        LeTrans(less, s[e], s[p], s[c]);
      }
    }
    forall q, c | 0 <= q && Child(q, p) && Child(p, c) && c < n ensures Le(less, t[q], t[c]) {
      if c != e {
        LeTrans(less, s[q], s[p], s[c]);
      }
    }
  }

  lemma FallStep<T(!new)>(less: (T, T) -> bool, s: seq<T>, t: seq<T>, n: int, e: int, child: int)
    requires StrictWeak(less) && 0 <= e && Child(e, child) && child < n <= |s| && Falling(less, s, n, e)
    requires forall c :: Child(e, c) && c < n ==> Le(less, s[child], s[c])
    requires less(s[child], s[e]) && Exchanged(s, t, child, e)
    ensures Falling(less, t, n, child)
  {
    forall q, c | 0 <= q && Child(q, c) && c < n && q != child ensures Le(less, t[q], t[c]) {
      if c == e {
        assert Child(q, e) && Child(e, child);
      }
    }
  }

  lemma FallDone<T(!new)>(less: (T, T) -> bool, s: seq<T>, n: int, e: int, child: int)
    requires StrictWeak(less) && 0 <= e && Child(e, child) && child < n <= |s| && Falling(less, s, n, e)
    requires forall c :: Child(e, c) && c < n ==> Le(less, s[child], s[c])
    requires !less(s[child], s[e])
    ensures MinHeap(less, s, n)
  {
    forall c | Child(e, c) && c < n ensures Le(less, s[e], s[c]) {
      LeTrans(less, s[e], s[child], s[c]);
    }
  }

  lemma {:induction false} RootIsLeast<T(!new)>(less: (T, T) -> bool, s: seq<T>, n: int, i: int)
    requires StrictWeak(less) && 0 <= i < n <= |s| && MinHeap(less, s, n)
    ensures Le(less, s[0], s[i])
    decreases i
  {
    if i > 0 {
      var p := (i - 1) / 2;
      assert Child(p, i);
      RootIsLeast(less, s, n, p);
      LeTrans(less, s[0], s[p], s[i]);
    }
  }

  /** Rearranging the first `n` entries keeps them as a multiset. */
  lemma PermPrefix<T(!new)>(s: seq<T>, t: seq<T>, n: int)
    requires RangePerm(s, t, 0, n)
    ensures |t| == |s| && multiset(s[..n]) == multiset(t[..n])
  {
    PermMultiset(s, t, 0, n);
    PermLength(s, t, 0, n);
    forall q | n <= q < |s| ensures t[q] == s[q] {
      var p := PermSource(s, t, 0, n, q);
    }
    assert s[n..] == t[n..];
    assert s == s[..n] + s[n..] && t == t[..n] + t[n..];
    Cancel(multiset(s[..n]), multiset(t[..n]), multiset(s[n..]));
  }

  lemma Cancel<T(!new)>(a: multiset<T>, b: multiset<T>, c: multiset<T>)
    requires a + c == b + c
    ensures a == b
  {
    forall x ensures a[x] == b[x] {
      assert (a + c)[x] == a[x] + c[x] && (b + c)[x] == b[x] + c[x];
    }
  }

  /** The lesser child of `e`, which has one. */
  method LesserChild<T(!new)>(less: (T, T) -> bool, a: array<T>, n: int, e: int) returns (child: int)
    requires StrictWeak(less) && 0 <= e && 2 * e + 1 < n <= a.Length
    ensures Child(e, child) && child < n && forall c :: Child(e, c) && c < n ==> Le(less, a[..][child], a[..][c])
  {
    child := 2 * e + 1;
    if child + 1 < n && less(a[child + 1], a[child]) {
      child := child + 1;
    }
  }

  /** Let the root fall to its place. */
  method Fall<T(!new)>(less: (T, T) -> bool, a: array<T>, n: int, ghost before: seq<T>) returns (ghost s: seq<T>)
    requires StrictWeak(less) && 0 < n <= a.Length && a[..] == before && Falling(less, before, n, 0)
    modifies a
    ensures a[..] == s && |s| == |before| && RangePerm(before, s, 0, n) && MinHeap(less, s, n)
  {
    s := before;
    PermRefl(s, 0, n);
    var e := 0;
    while 2 * e + 1 < n
      invariant 0 <= e && a[..] == s && |s| == |before|
      invariant RangePerm(before, s, 0, n) && Falling(less, s, n, e)
      decreases n - e
    {
      var child := LesserChild(less, a, n, e);
      if !less(a[child], a[e]) {
        FallDone(less, s, n, e, child);
        return;
      }
      ghost var t := Swap(a, child, e, s);
      FallStep(less, s, t, n, e, child);
      PermStep(before, s, t, 0, n, child, e);
      s, e := t, child;
    }
  }

  /** `kept` are the k greatest of `all`, or all of them: no entry left out is greater than one kept. */
  ghost predicate TopOf<T(!new)>(less: (T, T) -> bool, kept: multiset<T>, all: multiset<T>, k: nat)
  {
    && kept <= all && |kept| == (if |all| < k then |all| else k)
    && forall x, r :: x in all - kept && r in kept ==> Le(less, x, r)
  }

  class Queue<T(0,!new)> {
    const less: (T, T) -> bool
    const size: nat
    const data: array<T>
    var used: nat
    ghost var pushed: multiset<T>

    ghost predicate Valid()
      reads this, data
    {
      && StrictWeak(less) && size > 0 && data.Length == size && used <= size
      && MinHeap(less, data[..], used)
      && TopOf(less, multiset(data[..used]), pushed, size)
    }

    constructor (less: (T, T) -> bool, size: nat)
      requires StrictWeak(less)
      ensures fresh(data) && data.Length == size && this.less == less && this.size == size
      ensures pushed == multiset{} && used == 0 && (size > 0 ==> Valid())
    {
      this.less, this.size := less, size;
      data := new T[size];
      used, pushed := 0, multiset{};
    }

    /** Remove the top. */
    method Pop()
      requires StrictWeak(less) && data.Length == size && 0 < used <= size && MinHeap(less, data[..], used)
      modifies this`used, data
      ensures used == old(used) - 1 && MinHeap(less, data[..], used)
      ensures multiset(data[..used]) == multiset(old(data[..used])) - multiset{old(data[0])}
    {
      ghost var before := data[..];
      used := used - 1;
      if used == 0 {
        assert before[..1] == [before[0]];
      } else {
        LastFalls(before);
      }
    }

    /** The last entry replaces the root and falls into place. */
    method LastFalls(ghost before: seq<T>)
      requires StrictWeak(less) && data.Length == size && 0 < used < size && data[..] == before
      requires MinHeap(less, before, used + 1)
      modifies data
      ensures MinHeap(less, data[..], used)
      ensures multiset(data[..used]) == multiset(before[..used + 1]) - multiset{before[0]}
    {
      data[0] := data[used];
      ghost var s := before[0 := before[used]];
      assert data[..] == s;
      LastToRoot(before, s, used);
      ghost var t := Fall(less, data, used, s);
      PermPrefix(s, t, used);
      assert data[..used] == t[..used];
    }

    /** Add an entry below the heap and let it rise. */
    method Add(x: T)
      requires StrictWeak(less) && data.Length == size && used < size && MinHeap(less, data[..], used)
      modifies this`used, data
      ensures used == old(used) + 1 && MinHeap(less, data[..], used)
      ensures multiset(data[..used]) == multiset(old(data[..used])) + multiset{x}
    {
      ghost var before := data[..];
      data[used] := x;
      var e := used;
      used := used + 1;
      ghost var s := data[..];
      assert s[..used] == before[..used - 1] + [x];
      PermRefl(s, 0, used);
      ghost var start := s;
      while e != 0
        invariant used == old(used) + 1 && 0 <= e < used && data[..] == s && |s| == data.Length
        invariant RangePerm(start, s, 0, used) && Rising(less, s, used, e)
      {
        var p := (e - 1) / 2;
        assert Child(p, e);
        if !less(data[e], data[p]) {
          break;
        }
        ghost var t := Swap(data, e, p, s);
        RiseStep(less, s, t, used, e, p);
        PermStep(start, s, t, 0, used, e, p);
        s, e := t, p;
      }
      RiseDone(less, s, used, e);
      PermPrefix(start, s, used);
    }

    /** Whatever was pushed, the queue holds the greatest entries, as many as it has room for. */
    method Push(x: T) returns (kept: bool)
      requires Valid()
      modifies this, data
      ensures Valid() && pushed == old(pushed) + multiset{x}
      ensures kept <==> !(old(used) == size && less(x, old(data[0])))
      ensures !kept ==> data[..] == old(data[..]) && used == old(used)
    {
      ghost var had := multiset(data[..used]);
      if used == size {
        if less(x, data[0]) {
          RejectKeepsTop(less, data[..], used, pushed, size, x);
          pushed := pushed + multiset{x};
          return false;
        }
        EvictKeepsTop(less, data[..], used, pushed, size, x);
        Pop();
      } else {
        RoomKeepsTop(less, had, pushed, size, x);
      }
      Add(x);
      pushed := pushed + multiset{x};
      kept := true;
    }
  }

  lemma RiseDone<T(!new)>(less: (T, T) -> bool, s: seq<T>, n: int, e: int)
    requires 0 <= e < n <= |s| && Rising(less, s, n, e)
    requires e != 0 ==> Child((e - 1) / 2, e) && !less(s[e], s[(e - 1) / 2])
    ensures MinHeap(less, s, n)
  {
    forall p, c | 0 <= p && Child(p, c) && c < n ensures Le(less, s[p], s[c]) {
      if c == e {
        assert p == (e - 1) / 2;
      }
    }
  }

  lemma LastToRoot<T>(before: seq<T>, s: seq<T>, n: int)
    requires 0 < n < |before| && s == before[0 := before[n]]
    ensures multiset(s[..n]) == multiset(before[..n + 1]) - multiset{before[0]}
  {
    assert before[..n + 1] == [before[0]] + before[1..n] + [before[n]];
    assert s[..n] == [before[n]] + before[1..n];
  }

  lemma RejectKeepsTop<T(!new)>(less: (T, T) -> bool, s: seq<T>, n: int, all: multiset<T>, k: nat, x: T)
    requires StrictWeak(less) && 0 < n <= |s| && n == k && MinHeap(less, s, n) && TopOf(less, multiset(s[..n]), all, k)
    requires less(x, s[0])
    ensures TopOf(less, multiset(s[..n]), all + multiset{x}, k)
  {
    var kept := multiset(s[..n]);
    forall y, r | y in all + multiset{x} - kept && r in kept ensures Le(less, y, r) {
      var i :| 0 <= i < n && s[..n][i] == r;
      RootIsLeast(less, s, n, i);
      if y !in all - kept {
        LeTrans(less, x, s[0], r);
      }
    }
  }

  lemma EvictKeepsTop<T(!new)>(less: (T, T) -> bool, s: seq<T>, n: int, all: multiset<T>, k: nat, x: T)
    requires StrictWeak(less) && 0 < n <= |s| && n == k && MinHeap(less, s, n) && TopOf(less, multiset(s[..n]), all, k)
    requires !less(x, s[0])
    ensures s[0] in multiset(s[..n])
    ensures TopOf(less, multiset(s[..n]) - multiset{s[0]} + multiset{x}, all + multiset{x}, k)
  {
    var kept := multiset(s[..n]);
    assert s[..n][0] in s[..n];
    var kept' := kept - multiset{s[0]} + multiset{x};
    forall y, r | y in all + multiset{x} - kept' && r in kept' ensures Le(less, y, r) {
      assert y in all - kept || y == s[0];
      assert r in kept || r == x;
      if r in kept {
        var i :| 0 <= i < n && s[..n][i] == r;
        RootIsLeast(less, s, n, i);
      } else if y != s[0] {
        LeTrans(less, y, s[0], x);
      }
    }
  }

  lemma RoomKeepsTop<T(!new)>(less: (T, T) -> bool, kept: multiset<T>, all: multiset<T>, k: nat, x: T)
    requires TopOf(less, kept, all, k) && |kept| < k
    ensures TopOf(less, kept + multiset{x}, all + multiset{x}, k)
  {
    assert all == kept + (all - kept);
    assert all - kept == multiset{};
  }
}
