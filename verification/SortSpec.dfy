/**
 What sorting in place means: order under a strict weak order, and rearrangement of a
 range of a sequence.
 */
module SortSpec {

  /** The comparator contract: a strict weak order. */
  ghost predicate StrictWeak<T(!new)>(less: (T, T) -> bool)
  {
    && (forall x, y :: less(x, y) ==> !less(y, x))
    && (forall x, y, z {:trigger Chain(less, x, y, z)} :: Chain(less, x, y, z))
  }

  /** What is below `z` is below `y`, or `y` is below `z`. */
  ghost predicate Chain<T>(less: (T, T) -> bool, x: T, y: T, z: T)
  {
    less(x, z) ==> less(x, y) || less(y, z)
  }

  /** `x` may stand before `y`. */
  predicate Le<T>(less: (T, T) -> bool, x: T, y: T)
  {
    !less(y, x)
  }

  lemma LeTrans<T(!new)>(less: (T, T) -> bool, x: T, y: T, z: T)
    requires StrictWeak(less) && Le(less, x, y) && Le(less, y, z)
    ensures Le(less, x, z)
  {
    assert Chain(less, z, y, x);
  }

  ghost predicate SortedRange<T>(less: (T, T) -> bool, s: seq<T>, lo: int, hi: int)
    requires 0 <= lo && hi <= |s|
  {
    forall p, q :: lo <= p < q < hi ==> Le(less, s[p], s[q])
  }

  // ----- rearranging a range -----

  /** `t` is `s` with entries `i` and `j` exchanged. */
  ghost predicate Exchanged<T>(s: seq<T>, t: seq<T>, i: int, j: int)
  {
    && |s| == |t| && 0 <= i < |s| && 0 <= j < |s|
    && t[i] == s[j] && t[j] == s[i]
    && forall k :: 0 <= k < |s| && k != i && k != j ==> t[k] == s[k]
  }

  datatype Move = Move(i: int, j: int)

  /** `moves` lead from `s` to `t` by exchanges inside [lo, hi). */
  ghost predicate Via<T(!new)>(s: seq<T>, t: seq<T>, lo: int, hi: int, moves: seq<Move>)
    decreases |moves|
  {
    if moves == [] then s == t
    else
      var m := moves[|moves| - 1];
      && lo <= m.i < hi && lo <= m.j < hi
      && exists u :: Via(s, u, lo, hi, moves[..|moves| - 1]) && Exchanged(u, t, m.i, m.j)
  }

  /** `t` is `s` with the entries of [lo, hi) rearranged. */
  ghost predicate RangePerm<T(!new)>(s: seq<T>, t: seq<T>, lo: int, hi: int)
  {
    0 <= lo <= hi <= |s| && exists moves :: Via(s, t, lo, hi, moves)
  }

  lemma PermRefl<T(!new)>(s: seq<T>, lo: int, hi: int)
    requires 0 <= lo <= hi <= |s|
    ensures RangePerm(s, s, lo, hi)
  {
    assert Via(s, s, lo, hi, []);
  }

  lemma PermStep<T(!new)>(s: seq<T>, t: seq<T>, u: seq<T>, lo: int, hi: int, i: int, j: int)
    requires RangePerm(s, t, lo, hi) && Exchanged(t, u, i, j) && lo <= i < hi && lo <= j < hi
    ensures RangePerm(s, u, lo, hi)
  {
    var moves :| Via(s, t, lo, hi, moves);
    var more := moves + [Move(i, j)];
    assert more[..|more| - 1] == moves;
    assert Via(s, u, lo, hi, more);
  }

  lemma {:induction false} PermVia<T(!new)>(s: seq<T>, t: seq<T>, u: seq<T>, lo: int, hi: int, moves: seq<Move>)
    requires RangePerm(s, t, lo, hi) && Via(t, u, lo, hi, moves)
    ensures RangePerm(s, u, lo, hi)
    decreases |moves|
  {
    if moves != [] {
      var front, m := moves[..|moves| - 1], moves[|moves| - 1];
      var v :| Via(t, v, lo, hi, front) && Exchanged(v, u, m.i, m.j);
      PermVia(s, t, v, lo, hi, front);
      PermStep(s, v, u, lo, hi, m.i, m.j);
    }
  }

  lemma PermTrans<T(!new)>(s: seq<T>, t: seq<T>, u: seq<T>, lo: int, hi: int)
    requires RangePerm(s, t, lo, hi) && RangePerm(t, u, lo, hi)
    ensures RangePerm(s, u, lo, hi)
  {
    var moves :| Via(t, u, lo, hi, moves);
    PermVia(s, t, u, lo, hi, moves);
  }

  lemma {:induction false} ViaWiden<T(!new)>(s: seq<T>, t: seq<T>, lo: int, hi: int, lo': int, hi': int,
                                             moves: seq<Move>)
    requires Via(s, t, lo, hi, moves) && lo' <= lo && hi <= hi'
    ensures Via(s, t, lo', hi', moves)
    decreases |moves|
  {
    if moves != [] {
      var front, m := moves[..|moves| - 1], moves[|moves| - 1];
      var u :| Via(s, u, lo, hi, front) && Exchanged(u, t, m.i, m.j);
      ViaWiden(s, u, lo, hi, lo', hi', front);
    }
  }

  lemma PermWiden<T(!new)>(s: seq<T>, t: seq<T>, lo: int, hi: int, lo': int, hi': int)
    requires RangePerm(s, t, lo, hi) && 0 <= lo' <= lo && hi <= hi' <= |s|
    ensures RangePerm(s, t, lo', hi')
  {
    var moves :| Via(s, t, lo, hi, moves);
    ViaWiden(s, t, lo, hi, lo', hi', moves);
  }

  /** Where the entry at `q` came from. */
  lemma {:induction false} ViaSource<T(!new)>(s: seq<T>, t: seq<T>, lo: int, hi: int, moves: seq<Move>, q: int)
    returns (p: int)
    requires Via(s, t, lo, hi, moves) && 0 <= lo && hi <= |s| && 0 <= q < |s|
    ensures |t| == |s| && 0 <= p < |s| && s[p] == t[q]
    ensures if lo <= q < hi then lo <= p < hi else p == q
    decreases |moves|
  {
    if moves == [] {
      p := q;
    } else {
      var front, m := moves[..|moves| - 1], moves[|moves| - 1];
      var u :| Via(s, u, lo, hi, front) && Exchanged(u, t, m.i, m.j);
      p := ViaSource(s, u, lo, hi, front, if q == m.i then m.j else if q == m.j then m.i else q);
    }
  }

  /** Every entry of the rearranged range was in the range; the others stayed. */
  lemma PermSource<T(!new)>(s: seq<T>, t: seq<T>, lo: int, hi: int, q: int) returns (p: int)
    requires RangePerm(s, t, lo, hi) && 0 <= q < |s|
    ensures |t| == |s| && 0 <= p < |s| && s[p] == t[q]
    ensures if lo <= q < hi then lo <= p < hi else p == q
  {
    var moves :| Via(s, t, lo, hi, moves);
    p := ViaSource(s, t, lo, hi, moves, q);
  }

  lemma PermLength<T(!new)>(s: seq<T>, t: seq<T>, lo: int, hi: int)
    requires RangePerm(s, t, lo, hi)
    ensures |t| == |s|
  {
    var moves :| Via(s, t, lo, hi, moves);
    ViaMultiset(s, t, lo, hi, moves);
  }

  lemma {:induction false} ViaMultiset<T(!new)>(s: seq<T>, t: seq<T>, lo: int, hi: int, moves: seq<Move>)
    requires Via(s, t, lo, hi, moves)
    ensures |t| == |s| && multiset(s) == multiset(t)
    decreases |moves|
  {
    if moves != [] {
      var front, m := moves[..|moves| - 1], moves[|moves| - 1];
      var u :| Via(s, u, lo, hi, front) && Exchanged(u, t, m.i, m.j);
      ViaMultiset(s, u, lo, hi, front);
      assert t == u[m.i := u[m.j]][m.j := u[m.i]];
    }
  }

  /** Rearranging keeps every entry as often as it was. */
  lemma PermMultiset<T(!new)>(s: seq<T>, t: seq<T>, lo: int, hi: int)
    requires RangePerm(s, t, lo, hi)
    ensures multiset(s) == multiset(t)
  {
    var moves :| Via(s, t, lo, hi, moves);
    ViaMultiset(s, t, lo, hi, moves);
  }

  /** Exchange two entries; `s` and `t` are the contents of the array before and after. */
  method Swap<T>(a: array<T>, i: int, j: int, ghost s: seq<T>) returns (ghost t: seq<T>)
    requires 0 <= i < a.Length && 0 <= j < a.Length && a[..] == s
    modifies a
    ensures a[..] == t && Exchanged(s, t, i, j)
  {
    a[i], a[j] := a[j], a[i];
    t := a[..];
  }
}
