/**
 `AttrIndexBuilder_t`: the block index of integer attributes.  For every block of 128 rows,
 and at the end for all rows, it writes a row of minima and a row of maxima into one buffer.

 In the buffer, a row is `stride` cells: the document id in the first, and each attribute in
 the cell that its locator names.
 */
module AttrIndex {

  const FREQ := 128
  const LLONG_MIN := -0x8000_0000_0000_0000
  const LLONG_MAX := 0x7fff_ffff_ffff_ffff

  type Attr = x: int | LLONG_MIN <= x <= LLONG_MAX witness 0

  datatype Row = Row(id: nat, attrs: seq<Attr>)

  function Least(a: Attr, b: Attr): Attr
  {
    if a < b then a else b
  }

  function Greatest(a: Attr, b: Attr): Attr
  {
    if a > b then a else b
  }

  // ----- what the entry of a range of rows is to hold -----

  /** All rows have `m` attributes. */
  ghost predicate Rows(rows: seq<Row>, m: nat)
  {
    forall r :: 0 <= r < |rows| ==> |rows[r].attrs| == m
  }

  ghost function LeastEach(a: seq<Attr>, b: seq<Attr>): seq<Attr>
    requires |a| == |b|
  {
    seq(|a|, i requires 0 <= i < |a| => Least(a[i], b[i]))
  }

  ghost function GreatestEach(a: seq<Attr>, b: seq<Attr>): seq<Attr>
    requires |a| == |b|
  {
    seq(|a|, i requires 0 <= i < |a| => Greatest(a[i], b[i]))
  }

  ghost function Mins(rows: seq<Row>, lo: nat, hi: nat, m: nat): (s: seq<Attr>)
    requires lo <= hi <= |rows| && Rows(rows, m)
    ensures |s| == m
    decreases hi
  {
    if lo == hi then seq(m, _ => LLONG_MAX) else LeastEach(Mins(rows, lo, hi - 1, m), rows[hi - 1].attrs)
  }

  ghost function Maxs(rows: seq<Row>, lo: nat, hi: nat, m: nat): (s: seq<Attr>)
    requires lo <= hi <= |rows| && Rows(rows, m)
    ensures |s| == m && forall i :: 0 <= i < m ==> s[i] >= 0
    decreases hi
  {
    if lo == hi then seq(m, _ => 0) else GreatestEach(Maxs(rows, lo, hi - 1, m), rows[hi - 1].attrs)
  }

  /** The first document id that is not 0. */
  ghost function StartOf(rows: seq<Row>, lo: nat, hi: nat): nat
    requires lo <= hi <= |rows|
    decreases hi
  {
    if lo == hi then 0
    else if StartOf(rows, lo, hi - 1) != 0 then StartOf(rows, lo, hi - 1) else rows[hi - 1].id
  }

  ghost function LastOf(rows: seq<Row>, lo: nat, hi: nat): nat
    requires lo <= hi <= |rows|
  {
    if lo == hi then 0 else rows[hi - 1].id
  }

  datatype Entry = Entry(minId: nat, mins: seq<Attr>, maxId: nat, maxs: seq<Attr>)

  ghost function EntryOf(rows: seq<Row>, lo: nat, hi: nat, m: nat): Entry
    requires lo <= hi <= |rows| && Rows(rows, m)
  {
    Entry(StartOf(rows, lo, hi), Mins(rows, lo, hi, m), LastOf(rows, lo, hi), Maxs(rows, lo, hi, m))
  }

  /** An entry bounds every attribute of every row of its range. */
  lemma {:induction false} EntryBounds(rows: seq<Row>, lo: nat, hi: nat, m: nat, r: nat, i: nat)
    requires lo <= r < hi <= |rows| && Rows(rows, m) && i < m
    ensures EntryOf(rows, lo, hi, m).mins[i] <= rows[r].attrs[i] <= EntryOf(rows, lo, hi, m).maxs[i]
  {
    if r < hi - 1 {
      EntryBounds(rows, lo, hi - 1, m, r, i);
    }
  }

  /** `id` is the first document id in the range that is not 0, or 0 if there is none. */
  ghost predicate FirstId(rows: seq<Row>, lo: nat, hi: nat, id: int)
    requires lo <= hi <= |rows|
  {
    || (id == 0 && forall r :: lo <= r < hi ==> rows[r].id == 0)
    || (exists r :: lo <= r < hi && id == rows[r].id != 0 && forall q :: lo <= q < r ==> rows[q].id == 0)
  }

  /** An entry starts at the first document id and ends at the last. */
  lemma {:induction false} EntryIds(rows: seq<Row>, lo: nat, hi: nat, m: nat)
    requires lo <= hi <= |rows| && Rows(rows, m)
    ensures FirstId(rows, lo, hi, EntryOf(rows, lo, hi, m).minId)
    ensures lo < hi ==> EntryOf(rows, lo, hi, m).maxId == rows[hi - 1].id
    decreases hi
  {
    if lo < hi {
      EntryIds(rows, lo, hi - 1, m);
    }
  }

  /** Rows come in the order of their ids, which are not 0. */
  ghost predicate AscendingIds(rows: seq<Row>)
  {
    forall q, r :: 0 <= q <= r < |rows| ==> 0 < rows[q].id <= rows[r].id
  }

  /** The bounds are taken by some row, except that the upper bound is never below 0: it is
      taken exactly if some row is not negative there. */
  lemma EntryTight(rows: seq<Row>, lo: nat, hi: nat, m: nat, i: nat)
    requires lo < hi <= |rows| && Rows(rows, m) && i < m
    ensures exists r :: lo <= r < hi && rows[r].attrs[i] == EntryOf(rows, lo, hi, m).mins[i]
    ensures (exists r :: lo <= r < hi && rows[r].attrs[i] == EntryOf(rows, lo, hi, m).maxs[i])
            <==> (exists r :: lo <= r < hi && rows[r].attrs[i] >= 0)
    ensures (forall r :: lo <= r < hi ==> rows[r].attrs[i] < 0) ==> EntryOf(rows, lo, hi, m).maxs[i] == 0
  {
    var r := MinTaken(rows, lo, hi, m, i);
    assert rows[r].attrs[i] == EntryOf(rows, lo, hi, m).mins[i];
    var q := MaxTaken(rows, lo, hi, m, i);
    if lo <= q < hi {
      assert rows[q].attrs[i] == EntryOf(rows, lo, hi, m).maxs[i];
    } else {
      forall r | lo <= r < hi ensures rows[r].attrs[i] <= 0 {
        EntryBounds(rows, lo, hi, m, r, i);
      }
    }
  }

  lemma {:induction false} MinTaken(rows: seq<Row>, lo: nat, hi: nat, m: nat, i: nat) returns (r: nat)
    requires lo < hi <= |rows| && Rows(rows, m) && i < m
    ensures lo <= r < hi && rows[r].attrs[i] == Mins(rows, lo, hi, m)[i]
  {
    r := hi - 1;
    var before := Mins(rows, lo, hi - 1, m)[i];
    if lo < hi - 1 && before <= rows[r].attrs[i] {
      r := MinTaken(rows, lo, hi - 1, m, i);
    }
  }

  /** The row with the greatest value, or -1 if all are negative. */
  lemma {:induction false} MaxTaken(rows: seq<Row>, lo: nat, hi: nat, m: nat, i: nat) returns (r: int)
    requires lo <= hi <= |rows| && Rows(rows, m) && i < m
    ensures lo <= r < hi ==> rows[r].attrs[i] == Maxs(rows, lo, hi, m)[i]
    ensures !(lo <= r < hi) ==> Maxs(rows, lo, hi, m)[i] == 0 && forall q :: lo <= q < hi ==> rows[q].attrs[i] < 0
  {
    r := -1;
    if lo < hi {
      r := MaxTaken(rows, lo, hi - 1, m, i);
      if rows[hi - 1].attrs[i] >= 0 && rows[hi - 1].attrs[i] >= Maxs(rows, lo, hi - 1, m)[i] {
        r := hi - 1;
      } else if r == hi - 1 {
        r := -1;
      }
    }
  }

  /** Adding rows one by one is the same as adding a whole block. */
  lemma {:induction false} MinsJoin(rows: seq<Row>, lo: nat, mid: nat, hi: nat, m: nat)
    requires lo <= mid <= hi <= |rows| && Rows(rows, m)
    ensures LeastEach(Mins(rows, lo, mid, m), Mins(rows, mid, hi, m)) == Mins(rows, lo, hi, m)
    decreases hi
  {
    if mid < hi {
      MinsJoin(rows, lo, mid, hi - 1, m);
    }
  }

  lemma {:induction false} MaxsJoin(rows: seq<Row>, lo: nat, mid: nat, hi: nat, m: nat)
    requires lo <= mid <= hi <= |rows| && Rows(rows, m)
    ensures GreatestEach(Maxs(rows, lo, mid, m), Maxs(rows, mid, hi, m)) == Maxs(rows, lo, hi, m)
    decreases hi
  {
    if mid < hi {
      MaxsJoin(rows, lo, mid, hi - 1, m);
    }
  }

  /** More rows after a range do not change its entry. */
  lemma {:induction false} EntryPrefix(rows: seq<Row>, row: Row, lo: nat, hi: nat, m: nat)
    requires lo <= hi <= |rows| && Rows(rows, m) && |row.attrs| == m
    ensures Rows(rows + [row], m) && EntryOf(rows + [row], lo, hi, m) == EntryOf(rows, lo, hi, m)
    decreases hi
  {
    assert Rows(rows + [row], m);
    if lo < hi {
      EntryPrefix(rows, row, lo, hi - 1, m);
    }
  }

  // ----- the buffer -----

  /** Locators name different cells, after the id. */
  predicate Layout(locs: seq<nat>, stride: nat)
  {
    && stride > 0
    && (forall i :: 0 <= i < |locs| ==> 0 < locs[i] < stride)
    && (forall i, j :: 0 <= i < j < |locs| ==> locs[i] != locs[j])
  }

  /** The row of cells from `p` holds an id and attribute values. */
  ghost predicate RowAt(out: seq<int>, p: int, locs: seq<nat>, stride: nat, id: nat, vals: seq<Attr>)
    requires Layout(locs, stride) && |vals| == |locs|
  {
    0 <= p && p + stride <= |out| && out[p] == id && forall i :: 0 <= i < |locs| ==> out[p + locs[i]] == vals[i]
  }

  /** The number of entries for `n` rows: one per started block, and one for all rows. */
  function Entries(n: nat): nat
  {
    (n + FREQ - 1) / FREQ + 1
  }

  ghost predicate EntryAt(out: seq<int>, k: nat, locs: seq<nat>, stride: nat, e: Entry)
    requires Layout(locs, stride) && |e.mins| == |e.maxs| == |locs|
  {
    && RowAt(out, 2 * k * stride, locs, stride, e.minId, e.mins)
    && RowAt(out, 2 * k * stride + stride, locs, stride, e.maxId, e.maxs)
  }

  /** Write one row of cells. */
  method WriteRow(out: array<int>, p: int, locs: seq<nat>, stride: nat, id: nat, vals: seq<Attr>)
    requires Layout(locs, stride) && |vals| == |locs| && 0 <= p && p + stride <= out.Length
    modifies out
    ensures RowAt(out[..], p, locs, stride, id, vals)
    ensures forall c :: 0 <= c < out.Length && !(p <= c < p + stride) ==> out[c] == old(out[c])
  {
    out[p] := id;
    for i := 0 to |locs|
      invariant out[p] == id && forall j :: 0 <= j < i ==> out[p + locs[j]] == vals[j]
      invariant forall c :: 0 <= c < out.Length && !(p <= c < p + stride) ==> out[c] == old(out[c])
    {
      out[p + locs[i]] := vals[i];
    }
  }

  method WriteEntry(out: array<int>, k: nat, locs: seq<nat>, stride: nat, e: Entry)
    requires Layout(locs, stride) && |e.mins| == |e.maxs| == |locs| && 2 * k * stride + 2 * stride <= out.Length
    modifies out
    ensures EntryAt(out[..], k, locs, stride, e)
    ensures forall c :: 0 <= c < 2 * k * stride ==> out[c] == old(out[c])
  {
    var p := 2 * k * stride;
    WriteRow(out, p, locs, stride, e.minId, e.mins);
    ghost var out1 := out[..];
    assert RowAt(out1, p, locs, stride, e.minId, e.mins);
    WriteRow(out, p + stride, locs, stride, e.maxId, e.maxs);
    assert forall c :: p <= c < p + stride ==> out[c] == out1[c];
  }

  lemma Below(k: nat, n: nat, stride: nat)
    requires k < n
    ensures 2 * k * stride + 2 * stride <= 2 * n * stride
  {
    assert 2 * n * stride - (2 * k * stride + 2 * stride) == 2 * ((n - k - 1) * stride);
  }

  /** Entries below are where they were. */
  lemma EntryStays(out: seq<int>, out': seq<int>, k: nat, n: nat, locs: seq<nat>, stride: nat, e: Entry)
    requires Layout(locs, stride) && |e.mins| == |e.maxs| == |locs| && k < n && EntryAt(out, k, locs, stride, e)
    requires |out| == |out'| && 2 * n * stride <= |out| && forall c :: 0 <= c < 2 * n * stride ==> out'[c] == out[c]
    ensures EntryAt(out', k, locs, stride, e)
  {
    Below(k, n, stride);
    var p := 2 * k * stride;
    assert RowAt(out', p, locs, stride, e.minId, e.mins);
    assert RowAt(out', p + stride, locs, stride, e.maxId, e.maxs);
  }

  // ----- the entries of full blocks -----

  ghost predicate Blocks(out: seq<int>, rows: seq<Row>, n: nat, locs: seq<nat>, stride: nat)
    requires Layout(locs, stride) && Rows(rows, |locs|) && FREQ * n <= |rows|
  {
    forall k: nat {:trigger EntryOf(rows, FREQ * k, FREQ * (k + 1), |locs|)} ::
      k < n ==> EntryAt(out, k, locs, stride, EntryOf(rows, FREQ * k, FREQ * (k + 1), |locs|))
  }

  lemma BlocksStay(out: seq<int>, out': seq<int>, rows: seq<Row>, n: nat, locs: seq<nat>, stride: nat)
    requires Layout(locs, stride) && Rows(rows, |locs|) && FREQ * n <= |rows| && Blocks(out, rows, n, locs, stride)
    requires |out| == |out'| && 2 * n * stride <= |out| && forall c :: 0 <= c < 2 * n * stride ==> out'[c] == out[c]
    ensures Blocks(out', rows, n, locs, stride)
  {
    forall k: nat | k < n ensures EntryAt(out', k, locs, stride, EntryOf(rows, FREQ * k, FREQ * (k + 1), |locs|)) {
      EntryStays(out, out', k, n, locs, stride, EntryOf(rows, FREQ * k, FREQ * (k + 1), |locs|));
    }
  }

  lemma BlocksPrefix(out: seq<int>, rows: seq<Row>, row: Row, n: nat, locs: seq<nat>, stride: nat)
    requires Layout(locs, stride) && Rows(rows, |locs|) && FREQ * n <= |rows| && Blocks(out, rows, n, locs, stride)
    requires |row.attrs| == |locs|
    ensures Rows(rows + [row], |locs|) && Blocks(out, rows + [row], n, locs, stride)
  {
    EntryPrefix(rows, row, 0, 0, |locs|);
    forall k: nat | k < n
      ensures EntryAt(out, k, locs, stride, EntryOf(rows + [row], FREQ * k, FREQ * (k + 1), |locs|)) {
      EntryPrefix(rows, row, FREQ * k, FREQ * (k + 1), |locs|);
    }
  }

  // ----- the builder -----

  method LeastInto(a: seq<Attr>, b: seq<Attr>) returns (c: seq<Attr>)
    requires |a| == |b|
    ensures c == LeastEach(a, b)
  {
    c := a;
    for i := 0 to |a|
      invariant |c| == |a| && (forall j :: 0 <= j < i ==> c[j] == Least(a[j], b[j]))
      invariant forall j :: i <= j < |a| ==> c[j] == a[j]
    {
      c := c[i := Least(c[i], b[i])];
    }
  }

  method GreatestInto(a: seq<Attr>, b: seq<Attr>) returns (c: seq<Attr>)
    requires |a| == |b|
    ensures c == GreatestEach(a, b)
  {
    c := a;
    for i := 0 to |a|
      invariant |c| == |a| && (forall j :: 0 <= j < i ==> c[j] == Greatest(a[j], b[j]))
      invariant forall j :: i <= j < |a| ==> c[j] == a[j]
    {
      c := c[i := Greatest(c[i], b[i])];
    }
  }

  class Builder {
    const locs: seq<nat>
    const stride: nat
    var out: array<int>
    var elements: nat
    var loop: nat
    var local: Entry
    var index: Entry
    ghost var rows: seq<Row>

    /** Between two rows: full blocks are written, `local` is the entry of the rows since, and
        `index` that of the written rows, but with the first id of all rows. */
    ghost predicate Valid()
      reads this, out
    {
      && Layout(locs, stride) && Rows(rows, |locs|)
      && FREQ * elements + loop == |rows| && loop <= FREQ && (rows != [] ==> loop > 0)
      && local == EntryOf(rows, FREQ * elements, |rows|, |locs|)
      && index == EntryOf(rows, 0, FREQ * elements, |locs|).(minId := StartOf(rows, 0, |rows|))
      && 2 * elements * stride <= out.Length && Blocks(out[..], rows, elements, locs, stride)
    }

    constructor (locs: seq<nat>, stride: nat, out: array<int>)
      requires Layout(locs, stride)
      ensures this.out == out && this.locs == locs && this.stride == stride && elements == 0 && loop == 0
    {
      this.locs, this.stride, this.out := locs, stride, out;
      elements, loop := 0, 0;
      local, index := Entry(0, [], 0, []), Entry(0, [], 0, []);
      rows := [];
    }

    function NoRows(): Entry
    {
      Entry(0, seq(|locs|, _ => LLONG_MAX), 0, seq(|locs|, _ => 0))
    }

    method Prepare()
      requires Layout(locs, stride)
      modifies this`elements, this`loop, this`local, this`index, this`rows, out
      ensures Valid() && rows == [] && forall c :: 0 <= c < out.Length ==> out[c] == 0
    {
      forall c | 0 <= c < out.Length {
        out[c] := 0;
      }
      elements, loop, rows := 0, 0, [];
      index := NoRows();
      local := NoRows();
    }

    /** How much of the buffer is used, and how much `n` rows need. */
    function ActualSize(): nat
      reads this
    {
      elements * stride * 2
    }

    function ExpectedSize(n: nat): nat
    {
      Entries(n) * stride * 2
    }

    /** Write the entry of the rows since the last flush, and count it into the index entry. */
    method FlushComputed()
      requires Valid() && loop > 0 && 2 * elements * stride + 2 * stride <= out.Length
      modifies this`elements, this`loop, this`local, this`index, out
      ensures elements == old(elements) + 1 && loop == 0 && local == NoRows()
      ensures index == EntryOf(rows, 0, |rows|, |locs|)
      ensures Blocks(out[..], rows, old(elements), locs, stride)
      ensures EntryAt(out[..], old(elements), locs, stride, EntryOf(rows, FREQ * old(elements), |rows|, |locs|))
    {
      ghost var out0, done, m := out[..], FREQ * elements, |locs|;
      WriteEntry(out, elements, locs, stride, local);
      BlocksStay(out0, out[..], rows, elements, locs, stride);
      var mins := LeastInto(index.mins, local.mins);
      var maxs := GreatestInto(index.maxs, local.maxs);
      MinsJoin(rows, 0, done, |rows|, m);
      MaxsJoin(rows, 0, done, |rows|, m);
      index := Entry(index.minId, mins, local.maxId, maxs);
      elements := elements + 1;
      local, loop := NoRows(), 0;
    }

    /** Count one row in. */
    method CollectWithoutMvas(row: Row)
      requires Valid() && |row.attrs| == |locs| && ExpectedSize(|rows| + 1) <= out.Length
      modifies this`elements, this`loop, this`local, this`index, this`rows, out
      ensures Valid() && rows == old(rows) + [row]
    {
      RoomForBlocks(|rows| + 1, elements, loop, stride);
      if loop >= FREQ {
        FlushComputed();
        NextBlock();
      }
      Count(row);
    }

    /** A flush after a full block leaves the builder ready. */
    lemma NextBlock()
      requires Layout(locs, stride) && Rows(rows, |locs|) && elements > 0 && FREQ * elements == |rows| && loop == 0
      requires local == NoRows()
      requires index == EntryOf(rows, 0, |rows|, |locs|) && 2 * elements * stride <= out.Length
      requires Blocks(out[..], rows, elements - 1, locs, stride)
      requires EntryAt(out[..], elements - 1, locs, stride, EntryOf(rows, FREQ * (elements - 1), |rows|, |locs|))
      ensures Ready()
    {
    }

    /** As Valid, but all rows may be in full blocks. */
    ghost predicate Ready()
      reads this, out
    {
      && Layout(locs, stride) && Rows(rows, |locs|)
      && FREQ * elements + loop == |rows| && loop < FREQ
      && local == EntryOf(rows, FREQ * elements, |rows|, |locs|)
      && index == EntryOf(rows, 0, FREQ * elements, |locs|).(minId := StartOf(rows, 0, |rows|))
      && 2 * elements * stride <= out.Length && Blocks(out[..], rows, elements, locs, stride)
    }

    method Count(row: Row)
      requires Ready() && |row.attrs| == |locs|
      modifies this`loop, this`local, this`index, this`rows
      ensures Valid() && rows == old(rows) + [row]
    {
      ghost var m, n, done := |locs|, |rows|, FREQ * elements;
      EntryPrefix(rows, row, done, n, m);
      EntryPrefix(rows, row, 0, done, m);
      EntryPrefix(rows, row, 0, n, m);
      BlocksPrefix(out[..], rows, row, elements, locs, stride);
      var start := if local.minId == 0 then row.id else local.minId;
      var first := if index.minId == 0 then row.id else index.minId;
      loop := loop + 1;
      var mins := LeastInto(local.mins, row.attrs);
      var maxs := GreatestInto(local.maxs, row.attrs);
      local, index := Entry(start, mins, row.id, maxs), index.(minId := first);
      rows := rows + [row];
    }

    /** Write the last block, if one was started, and the entry of all rows. */
    method FinishCollect()
      requires Valid() && ExpectedSize(|rows|) <= out.Length
      modifies this`elements, this`loop, this`local, this`index, out
      ensures rows == old(rows) && Layout(locs, stride) && Rows(rows, |locs|) && ActualSize() == ExpectedSize(|rows|)
      ensures Complete(out[..], rows, locs, stride)
    {
      ghost var full := FlushRest();
      WriteIndexEntry(full);
      EntriesOf(|rows|, full, elements);
    }

    method FlushRest() returns (ghost full: nat)
      requires Valid() && ExpectedSize(|rows|) <= out.Length
      modifies this`elements, this`loop, this`local, this`index, out
      ensures FREQ * full <= |rows| && index == EntryOf(rows, 0, |rows|, |locs|)
      ensures 2 * elements * stride + 2 * stride <= out.Length && Blocks(out[..], rows, full, locs, stride)
      ensures if rows == [] then elements == full == 0
              else elements == full + 1 && FREQ * full < |rows| <= FREQ * (full + 1)
      ensures rows != [] ==> EntryAt(out[..], full, locs, stride, EntryOf(rows, FREQ * full, |rows|, |locs|))
    {
      RoomForBlocks(|rows|, elements, loop, stride);
      full := elements;
      if loop != 0 {
        assert 2 * (full + 1) * stride + 2 * stride <= out.Length;
        FlushComputed();
        assert elements == full + 1;
      }
    }

    method WriteIndexEntry(ghost full: nat)
      requires Layout(locs, stride) && Rows(rows, |locs|) && FREQ * full <= |rows|
      requires index == EntryOf(rows, 0, |rows|, |locs|)
      requires 2 * elements * stride + 2 * stride <= out.Length && Blocks(out[..], rows, full, locs, stride)
      requires if rows == [] then elements == full == 0
               else elements == full + 1 && FREQ * full < |rows| <= FREQ * (full + 1)
      requires rows != [] ==> EntryAt(out[..], full, locs, stride, EntryOf(rows, FREQ * full, |rows|, |locs|))
      modifies this`elements, out
      ensures elements == old(elements) + 1 && Complete(out[..], rows, locs, stride)
    {
      ghost var out0 := out[..];
      WriteEntry(out, elements, locs, stride, index);
      StillComplete(out0, out[..], rows, full, elements, locs, stride);
      elements := elements + 1;
    }
  }

  lemma EntriesOf(n: nat, full: nat, elements: nat)
    requires if n == 0 then elements == 1 else elements == full + 2 && FREQ * full < n <= FREQ * (full + 1)
    ensures elements == Entries(n)
  {
  }

  /** The blocks written so far, a started block and the last entry fit into the expected size. */
  lemma RoomForBlocks(n: nat, k: nat, loop: nat, stride: nat)
    requires FREQ * k + loop <= n <= FREQ * k + loop + 1 && loop <= FREQ
    ensures Entries(n) >= k + 1 + (if n > FREQ * k then 1 else 0)
    ensures 2 * k * stride + 2 * stride <= Entries(n) * stride * 2
    ensures n > FREQ * k ==> 2 * (k + 1) * stride + 2 * stride <= Entries(n) * stride * 2
  {
    Below(k, Entries(n), stride);
    if n > FREQ * k {
      Below(k + 1, Entries(n), stride);
    }
  }

  lemma StillComplete(out: seq<int>, out': seq<int>, rows: seq<Row>, full: nat, n: nat, locs: seq<nat>, stride: nat)
    requires Layout(locs, stride) && Rows(rows, |locs|) && FREQ * full <= |rows|
    requires Blocks(out, rows, full, locs, stride)
    requires if rows == [] then n == full == 0 else n == full + 1 && FREQ * full < |rows| <= FREQ * (full + 1)
    requires rows != [] ==> EntryAt(out, full, locs, stride, EntryOf(rows, FREQ * full, |rows|, |locs|))
    requires |out| == |out'| && 2 * n * stride <= |out| && forall c :: 0 <= c < 2 * n * stride ==> out'[c] == out[c]
    requires EntryAt(out', n, locs, stride, EntryOf(rows, 0, |rows|, |locs|))
    ensures Complete(out', rows, locs, stride)
  {
    if rows != [] {
      assert full == (|rows| + FREQ - 1) / FREQ - 1;
      Below(full, n, stride);
      BlocksStay(out, out', rows, full, locs, stride);
      EntryStays(out, out', full, n, locs, stride, EntryOf(rows, FREQ * full, |rows|, |locs|));
    }
  }

  /** The finished index: an entry for each block, and one for all rows. */
  ghost predicate Complete(out: seq<int>, rows: seq<Row>, locs: seq<nat>, stride: nat)
    requires Layout(locs, stride) && Rows(rows, |locs|)
  {
    var full := (|rows| + FREQ - 1) / FREQ - 1;
    && EntryAt(out, full + 1, locs, stride, EntryOf(rows, 0, |rows|, |locs|))
    && (rows != [] ==>
          && Blocks(out, rows, full, locs, stride)
          && EntryAt(out, full, locs, stride, EntryOf(rows, FREQ * full, |rows|, |locs|)))
  }

  // ----- what a reader of the index may rely on -----

  /** The cells at `p` and a row further hold the first document id of the range that is not 0,
      and the id of its last row. */
  ghost predicate IdsAt(out: seq<int>, p: int, stride: nat, rows: seq<Row>, lo: nat, hi: nat)
    requires lo < hi <= |rows|
  {
    && 0 <= p && p + stride < |out|
    && FirstId(rows, lo, hi, out[p]) && out[p + stride] == rows[hi - 1].id
  }

  lemma EntryAtIds(out: seq<int>, k: nat, locs: seq<nat>, stride: nat, rows: seq<Row>, lo: nat, hi: nat)
    requires Layout(locs, stride) && Rows(rows, |locs|) && lo < hi <= |rows|
    requires EntryAt(out, k, locs, stride, EntryOf(rows, lo, hi, |locs|))
    ensures IdsAt(out, 2 * k * stride, stride, rows, lo, hi)
  {
    EntryIds(rows, lo, hi, |locs|);
  }

  /** In a finished index, the document ids written for a block, and those written last, are the
      first and the last id of the block, and of all rows. */
  lemma IndexIds(out: seq<int>, rows: seq<Row>, locs: seq<nat>, stride: nat, k: nat)
    requires Layout(locs, stride) && Rows(rows, |locs|) && Complete(out, rows, locs, stride) && FREQ * k < |rows|
    ensures var hi := if FREQ * (k + 1) < |rows| then FREQ * (k + 1) else |rows|;
      IdsAt(out, 2 * k * stride, stride, rows, FREQ * k, hi)
    ensures IdsAt(out, 2 * (Entries(|rows|) - 1) * stride, stride, rows, 0, |rows|)
  {
    var full := (|rows| + FREQ - 1) / FREQ - 1;
    EntryAtIds(out, full + 1, locs, stride, rows, 0, |rows|);
    if k == full {
      EntryAtIds(out, full, locs, stride, rows, FREQ * full, |rows|);
    } else {
      assert EntryAt(out, k, locs, stride, EntryOf(rows, FREQ * k, FREQ * (k + 1), |locs|));
      EntryAtIds(out, k, locs, stride, rows, FREQ * k, FREQ * (k + 1));
    }
  }

  /** So they bound the id of every row, if the rows come in the order of their ids. */
  lemma IndexBoundsIds(out: seq<int>, rows: seq<Row>, locs: seq<nat>, stride: nat, r: nat)
    requires Layout(locs, stride) && Rows(rows, |locs|) && Complete(out, rows, locs, stride)
    requires r < |rows| && AscendingIds(rows)
    ensures var p := 2 * (r / FREQ) * stride;
      0 <= p && p + stride < |out| && out[p] <= rows[r].id <= out[p + stride]
    ensures var p := 2 * (Entries(|rows|) - 1) * stride;
      0 <= p && p + stride < |out| && out[p] <= rows[r].id <= out[p + stride]
  {
    IndexIds(out, rows, locs, stride, r / FREQ);
  }

  /** In a finished index, the minima and maxima written for the block of a row, and those
      written last, bound every attribute of the row. */
  lemma IndexBounds(out: seq<int>, rows: seq<Row>, locs: seq<nat>, stride: nat, r: nat, i: nat)
    requires Layout(locs, stride) && Rows(rows, |locs|) && Complete(out, rows, locs, stride) && r < |rows| && i < |locs|
    ensures var p := 2 * (r / FREQ) * stride;
      0 <= p && p + 2 * stride <= |out| && out[p + locs[i]] <= rows[r].attrs[i] <= out[p + stride + locs[i]]
    ensures var p := 2 * (Entries(|rows|) - 1) * stride;
      0 <= p && p + 2 * stride <= |out| && out[p + locs[i]] <= rows[r].attrs[i] <= out[p + stride + locs[i]]
  {
    var full, k := (|rows| + FREQ - 1) / FREQ - 1, r / FREQ;
    EntryBounds(rows, 0, |rows|, |locs|, r, i);
    if k == full {
      EntryBounds(rows, FREQ * full, |rows|, |locs|, r, i);
    } else {
      assert EntryAt(out, k, locs, stride, EntryOf(rows, FREQ * k, FREQ * (k + 1), |locs|));
      EntryBounds(rows, FREQ * k, FREQ * (k + 1), |locs|, r, i);
    }
  }

  /** Index all rows, in a buffer of the expected size. */
  method BuildIndex(rows: seq<Row>, locs: seq<nat>, stride: nat, out: array<int>) returns (b: Builder)
    requires Layout(locs, stride) && Rows(rows, |locs|) && Entries(|rows|) * stride * 2 <= out.Length
    modifies out
    ensures b.ActualSize() == Entries(|rows|) * stride * 2
    ensures Complete(out[..], rows, locs, stride)
  {
    b := new Builder(locs, stride, out);
    b.Prepare();
    for n := 0 to |rows|
      invariant fresh(b) && b.Valid() && b.out == out && b.locs == locs && b.stride == stride && b.rows == rows[..n]
    {
      Fits(n + 1, |rows|, stride);
      b.CollectWithoutMvas(rows[n]);
      assert rows[..n + 1] == rows[..n] + [rows[n]];
    }
    assert rows[..|rows|] == rows;
    b.FinishCollect();
  }

  lemma Fits(n: nat, n': nat, stride: nat)
    requires n <= n'
    ensures Entries(n) * stride * 2 <= Entries(n') * stride * 2
  {
    assert (Entries(n') - Entries(n)) * stride >= 0;
  }
}
