/**
 `CSphHash`: open addressing with linear probing and tombstones, proved to be a map.

 The hash function is a parameter.  Sizes are powers of two, so masking a hash with
 size - 1 is taking it modulo the size (`ProbesAreMasked`).
 */
module OpenHash {
  import opened Common

  const NO_ENTRY: int := 0x7fff_ffff_ffff_ffff
  const DEAD_ENTRY: int := 0x7fff_ffff_ffff_fffe

  predicate Live(k: int)
  {
    k != NO_ENTRY && k != DEAD_ENTRY
  }

  /** Where the probes for `k` start in a table of `n` slots. */
  function Home(hash: int -> nat, k: int, n: int): (h: int)
    requires n > 0
    ensures 0 <= h < n
  {
    hash(k) % n
  }

  function Next(i: int, n: int): int
  {
    if i + 1 == n then 0 else i + 1
  }

  /** Walking up from `h` and around the end, `j` comes before `i`. */
  predicate Before(h: int, j: int, i: int)
  {
    if h <= i then h <= j < i else h <= j || j < i
  }

  // ----- tables as sequences of keys -----

  /** Probing for a live key meets no end mark before the key. */
  ghost predicate Chains(hash: int -> nat, keys: seq<int>, n: int)
    requires 0 < n <= |keys|
  {
    forall i, j {:trigger Before(Home(hash, keys[i], n), j, i)} ::
      0 <= i < n && 0 <= j < n && Live(keys[i]) && Before(Home(hash, keys[i], n), j, i) ==> keys[j] != NO_ENTRY
  }

  ghost predicate Unique(keys: seq<int>, n: int)
    requires n <= |keys|
  {
    forall i, j :: 0 <= i < n && 0 <= j < n && Live(keys[i]) && keys[i] == keys[j] ==> i == j
  }

  ghost predicate IsTable(hash: int -> nat, keys: seq<int>, n: int)
  {
    0 < n <= |keys| && Chains(hash, keys, n) && Unique(keys, n)
  }

  /** The live entries as a map. */
  ghost function Contents<V>(keys: seq<int>, vals: seq<V>, n: nat): map<int, V>
    requires n <= |keys| && n <= |vals|
  {
    if n == 0 then map[]
    else if Live(keys[n - 1]) then Contents(keys, vals, n - 1)[keys[n - 1] := vals[n - 1]]
    else Contents(keys, vals, n - 1)
  }

  /** The keys of the map are the live keys of the table. */
  lemma {:induction false} ContentsKey<V>(keys: seq<int>, vals: seq<V>, n: nat, k: int) returns (i: int)
    requires n <= |keys| && n <= |vals|
    ensures k in Contents(keys, vals, n) <==> 0 <= i < n
    ensures 0 <= i < n ==> Live(k) && keys[i] == k
    ensures !(0 <= i < n) && Live(k) ==> forall s :: 0 <= s < n ==> keys[s] != k
  {
    if n == 0 {
      i := -1;
    } else if Live(k) && keys[n - 1] == k {
      i := n - 1;
    } else {
      i := ContentsKey(keys, vals, n - 1, k);
      i := if 0 <= i < n - 1 then i else -1;
    }
  }

  /** The values of the map are the values beside its keys. */
  lemma {:induction false} ContentsAt<V>(keys: seq<int>, vals: seq<V>, n: nat, i: nat)
    requires i < n <= |keys| && n <= |vals| && Unique(keys, n) && Live(keys[i])
    ensures keys[i] in Contents(keys, vals, n) && Contents(keys, vals, n)[keys[i]] == vals[i]
  {
    if i < n - 1 {
      UniquePrefix(keys, n, n - 1);
      ContentsAt(keys, vals, n - 1, i);
    }
  }

  lemma UniquePrefix(keys: seq<int>, n: int, i: int)
    requires i <= n <= |keys| && Unique(keys, n)
    ensures Unique(keys, i)
  {
  }

  lemma {:induction false} ContentsBeyond<V>(keys: seq<int>, vals: seq<V>, n: nat, p: nat, k: int, v: V)
    requires n <= p < |keys| && p < |vals|
    ensures Contents(keys[p := k], vals[p := v], n) == Contents(keys, vals, n)
  {
    if n > 0 {
      ContentsBeyond(keys, vals, n - 1, p, k, v);
    }
  }

  /** Slots that are not free, live or dead. */
  ghost function Occupied(keys: seq<int>, n: nat): (c: nat)
    requires n <= |keys|
    ensures c <= n
  {
    if n == 0 then 0 else Occupied(keys, n - 1) + if keys[n - 1] != NO_ENTRY then 1 else 0
  }

  lemma {:induction false} FreeSlot(keys: seq<int>, n: nat) returns (z: int)
    requires n <= |keys| && Occupied(keys, n) < n
    ensures 0 <= z < n && keys[z] == NO_ENTRY
  {
    if keys[n - 1] == NO_ENTRY {
      z := n - 1;
    } else {
      z := FreeSlot(keys, n - 1);
    }
  }

  lemma {:induction false} OccupiedUpdate(keys: seq<int>, p: int, k: int, n: nat)
    requires 0 <= p < |keys| && n <= |keys| && k != NO_ENTRY
    ensures Occupied(keys[p := k], n) == Occupied(keys, n) + if p < n && keys[p] == NO_ENTRY then 1 else 0
  {
    if n > 0 {
      OccupiedUpdate(keys, p, k, n - 1);
    }
  }

  /** `i` is where the probes for `k` can stop: everything before it is occupied by other keys. */
  ghost predicate ProbedTo(hash: int -> nat, keys: seq<int>, n: int, k: int, i: int)
    requires 0 < n <= |keys|
  {
    0 <= i < n && forall j :: 0 <= j < n && Before(Home(hash, k, n), j, i) ==> keys[j] != NO_ENTRY && keys[j] != k
  }

  /** An end mark where the probes stop proves the key absent. */
  lemma AbsentAtEnd(hash: int -> nat, keys: seq<int>, n: int, k: int, i: int)
    requires IsTable(hash, keys, n) && Live(k) && ProbedTo(hash, keys, n, k, i) && keys[i] == NO_ENTRY
    ensures forall s :: 0 <= s < n ==> keys[s] != k
  {
    var h := Home(hash, k, n);
    forall s | 0 <= s < n ensures keys[s] != k {
      assert s == i || Before(h, s, i) || Before(h, i, s);
    }
  }

  /** Free slots have the default value. */
  ghost predicate FreshSlots<V>(keys: seq<int>, vals: seq<V>, n: int, zero: V)
    requires n <= |keys| && n <= |vals|
  {
    forall i :: 0 <= i < n && keys[i] == NO_ENTRY ==> vals[i] == zero
  }

  /** Storing an absent key at a slot its probes reach, free or dead, keeps the table. */
  lemma StoreKey(hash: int -> nat, keys: seq<int>, n: int, k: int, p: int)
    requires IsTable(hash, keys, n) && Live(k) && 0 <= p < n && !Live(keys[p])
    requires forall s :: 0 <= s < n ==> keys[s] != k
    requires forall j :: 0 <= j < n && Before(Home(hash, k, n), j, p) ==> keys[j] != NO_ENTRY
    ensures IsTable(hash, keys[p := k], n)
  {
  }

  lemma KillKey(hash: int -> nat, keys: seq<int>, n: int, p: int)
    requires IsTable(hash, keys, n) && 0 <= p < n && Live(keys[p])
    ensures IsTable(hash, keys[p := DEAD_ENTRY], n)
  {
  }

  lemma {:induction false} StoreContents<V>(keys: seq<int>, vals: seq<V>, n: int, k: int, p: int, v: V)
    requires 0 <= p < n <= |keys| && n <= |vals| && Live(k) && !Live(keys[p])
    requires forall s :: 0 <= s < n ==> keys[s] != k
    ensures Contents(keys[p := k], vals[p := v], n) == Contents(keys, vals, n)[k := v]
  {
    if p == n - 1 {
      ContentsBeyond(keys, vals, n - 1, p, k, v);
    } else {
      StoreContents(keys, vals, n - 1, k, p, v);
    }
  }

  lemma {:induction false} KillContents<V>(keys: seq<int>, vals: seq<V>, n: int, p: int)
    requires 0 <= p < n <= |keys| && n <= |vals| && Unique(keys, n) && Live(keys[p])
    ensures Contents(keys[p := DEAD_ENTRY], vals, n) == Contents(keys, vals, n) - {keys[p]}
  {
    if p == n - 1 {
      ContentsBeyond(keys, vals, n - 1, p, DEAD_ENTRY, vals[p]);
      assert vals[p := vals[p]] == vals;
      var _ := ContentsKey(keys, vals, n - 1, keys[p]);
    } else {
      UniquePrefix(keys, n, n - 1);
      KillContents(keys, vals, n - 1, p);
    }
  }

  /** Overwriting the value of a live slot. */
  lemma {:induction false} SetContents<V>(keys: seq<int>, vals: seq<V>, n: int, p: int, v: V)
    requires 0 <= p < n <= |keys| && n <= |vals| && Unique(keys, n) && Live(keys[p])
    ensures Contents(keys, vals[p := v], n) == Contents(keys, vals, n)[keys[p] := v]
  {
    if p == n - 1 {
      ContentsBeyond(keys, vals, n - 1, p, keys[p], v);
      assert keys[p := keys[p]] == keys;
    } else {
      UniquePrefix(keys, n, n - 1);
      SetContents(keys, vals, n - 1, p, v);
    }
  }

  // ----- probing -----

  /** Steps from `i` up to `z`. */
  ghost function Ahead(i: int, z: int, n: int): int
  {
    if i <= z then z - i else z - i + n
  }

  /** One more slot probed; the walk cannot come full circle before a free slot `z`. */
  lemma ProbeOn(hash: int -> nat, keys: seq<int>, n: int, k: int, i: int, z: int)
    requires 0 < n <= |keys| && ProbedTo(hash, keys, n, k, i) && keys[i] != NO_ENTRY && keys[i] != k
    requires 0 <= z < n && keys[z] == NO_ENTRY && !Before(Home(hash, k, n), z, i)
    ensures ProbedTo(hash, keys, n, k, Next(i, n)) && !Before(Home(hash, k, n), z, Next(i, n))
    ensures Ahead(Next(i, n), z, n) < Ahead(i, z, n)
    ensures forall j :: 0 <= j < n ==>
      (Before(Home(hash, k, n), j, Next(i, n)) <==> Before(Home(hash, k, n), j, i) || j == i)
  {
    assert z != i;
  }

  /** `dead` is the last tombstone on the way from the home slot of `k` to `at`. */
  ghost predicate LastDead(hash: int -> nat, keys: seq<int>, n: int, k: int, at: int, dead: int)
    requires 0 < n <= |keys|
  {
    var h := Home(hash, k, n);
    && 0 <= dead < n && keys[dead] == DEAD_ENTRY && Before(h, dead, at)
    && forall j :: 0 <= j < n && Before(h, j, at) && keys[j] == DEAD_ENTRY ==> j == dead || Before(h, j, dead)
  }

  /** Probe for `k`: the slot that holds it; or the end mark that shows its absence, and the
      last tombstone passed on the way, if any. */
  method Probe(hash: int -> nat, keys: array<int>, n: int, k: int) returns (found: bool, at: int, dead: int)
    requires IsTable(hash, keys[..], n) && Occupied(keys[..], n) < n && Live(k)
    ensures 0 <= at < n && ProbedTo(hash, keys[..], n, k, at)
    ensures found ==> keys[at] == k
    ensures !found ==> keys[at] == NO_ENTRY && forall s :: 0 <= s < n ==> keys[s] != k
    ensures -1 <= dead && (dead >= 0 ==> LastDead(hash, keys[..], n, k, at, dead))
    ensures dead == -1 ==> forall j :: 0 <= j < n && Before(Home(hash, k, n), j, at) ==> keys[j] != DEAD_ENTRY
  {
    ghost var ks := keys[..];
    ghost var z := FreeSlot(ks, n);
    at, dead := Home(hash, k, n), -1;
    while keys[at] != k && keys[at] != NO_ENTRY
      invariant ProbedTo(hash, ks, n, k, at) && !Before(Home(hash, k, n), z, at)
      invariant -1 <= dead && (dead >= 0 ==> LastDead(hash, ks, n, k, at, dead))
      invariant dead == -1 ==> forall j :: 0 <= j < n && Before(Home(hash, k, n), j, at) ==> keys[j] != DEAD_ENTRY
      decreases Ahead(at, z, n)
    {
      ProbeOn(hash, ks, n, k, at, z);
      if keys[at] == DEAD_ENTRY {
        dead := at;
      }
      at := Next(at, n);
    }
    found := keys[at] == k;
    if !found {
      AbsentAtEnd(hash, ks, n, k, at);
    }
  }

  // ----- growing -----

  /** (int)(size * 0.95f), exact for powers of two: 0.95f is 15938355 / 2^24. */
  function MaxLoad(n: int): int
  {
    n * 15938355 / 16777216
  }

  lemma MaxLoadGrows(n: int)
    requires n > 0
    ensures 0 <= MaxLoad(n) < n && MaxLoad(n) < MaxLoad(2 * n)
  {
  }

  /** What powers of two leave modulo 20. */
  lemma {:induction false} PowerRemainder(n: nat)
    requires PowerOfTwo(n)
    ensures MayRemain(n % 20)
  {
    if n > 1 {
      PowerRemainder(n / 2);
      Doubled(n, n / 2, n / 2 / 20, n / 2 % 20);
    }
  }

  predicate MayRemain(r: nat)
  {
    r == 1 || r == 2 || r == 4 || r == 8 || r == 12 || r == 16
  }

  lemma Doubled(n: nat, half: nat, q: nat, r: nat)
    requires n == 2 * half && half == 20 * q + r && MayRemain(r)
    ensures MayRemain(n % 20)
  {
    if r < 10 {
      RemainderIs(n, 20, 2 * q, 2 * r);
    } else {
      RemainderIs(n, 20, 2 * q + 1, 2 * r - 20);
    }
  }

  /** The load limit is 95 percent of the size, rounded down, up to 2^24 slots. */
  lemma MaxLoadIs(n: nat)
    requires PowerOfTwo(n) && n <= 0x100_0000
    ensures MaxLoad(n) == 95 * n / 100
  {
    PowerRemainder(n);
    LoadRemainder(n, n / 20, n % 20);
    LoadQuotient(n, 95 * n / 100, 95 * n % 100);
  }

  lemma LoadRemainder(n: nat, q: nat, r: nat)
    requires n == 20 * q + r && MayRemain(r)
    ensures 95 * n % 100 >= 20
  {
    assert 95 * n == 100 * (19 * q) + 95 * r;
    assert 95 * r % 100 >= 20;
  }

  lemma LoadQuotient(n: nat, m: nat, r: nat)
    requires 95 * n == 100 * m + r && 20 <= r < 100 && n <= 0x100_0000
    ensures MaxLoad(n) == m
  {
    assert 16777216 * m <= n * 15938355 < 16777216 * (m + 1);
  }

  /** A key beyond the first `i` slots is not among their contents. */
  lemma NotYetMoved<V>(keys: seq<int>, vals: seq<V>, n: int, i: int, keys': seq<int>, vals': seq<V>, n': int)
    requires 0 <= i < n <= |keys| && n <= |vals| && Unique(keys, n) && Live(keys[i])
    requires 0 <= n' <= |keys'| && n' <= |vals'| && Contents(keys', vals', n') == Contents(keys, vals, i)
    ensures forall s :: 0 <= s < n' ==> keys'[s] != keys[i]
  {
    var _ := ContentsKey(keys, vals, i, keys[i]);
    var _ := ContentsKey(keys', vals', n', keys[i]);
  }

  lemma EmptyTable<V>(hash: int -> nat, keys: seq<int>, vals: seq<V>, n: int, zero: V)
    requires 0 < n <= |keys| && n <= |vals| && forall i :: 0 <= i < n ==> keys[i] == NO_ENTRY && vals[i] == zero
    ensures IsTable(hash, keys, n) && Occupied(keys, n) == 0 && FreshSlots(keys, vals, n, zero)
    ensures Contents(keys, vals, n) == map[]
  {
    NothingThere(keys, vals, n);
  }

  lemma {:induction false} NothingThere<V>(keys: seq<int>, vals: seq<V>, n: nat)
    requires n <= |keys| && n <= |vals| && forall i :: 0 <= i < n ==> keys[i] == NO_ENTRY
    ensures Occupied(keys, n) == 0 && Contents(keys, vals, n) == map[]
  {
    if n > 0 {
      NothingThere(keys, vals, n - 1);
    }
  }

  /** A table with its values, and how many of its slots are in use. */
  ghost predicate IsMap<V>(hash: int -> nat, keys: seq<int>, vals: seq<V>, n: int, zero: V, used: int)
  {
    && IsTable(hash, keys, n) && n <= |vals| && FreshSlots(keys, vals, n, zero) && Occupied(keys, n) <= used
  }

  /** Store an absent key with its value at the end of its probes. */
  method Place<V>(hash: int -> nat, keys: array<int>, vals: array<V>, n: int, k: int, v: V, ghost zero: V,
                  ghost used: int)
    returns (ghost ks': seq<int>, ghost vs': seq<V>)
    requires IsMap(hash, keys[..], vals[..], n, zero, used) && used < n && keys as object != vals
    requires Live(k) && forall s :: 0 <= s < n ==> keys[s] != k
    modifies keys, vals
    ensures keys[..] == ks' && vals[..] == vs' && IsMap(hash, ks', vs', n, zero, used + 1)
    ensures Contents(ks', vs', n) == old(Contents(keys[..], vals[..], n))[k := v]
    ensures old(NoTombstones(keys[..], n)) ==> NoTombstones(ks', n)
  {
    ghost var ks, vs := keys[..], vals[..];
    var found, at, _ := Probe(hash, keys, n, k);
    StoreKey(hash, ks, n, k, at);
    StoreContents(ks, vs, n, k, at, v);
    OccupiedUpdate(ks, at, k, n);
    keys[at], vals[at] := k, v;
    ks', vs' := ks[at := k], vs[at := v];
  }

  /** The part of an old table that the new one already holds. */
  ghost predicate Moved<V>(hash: int -> nat, keys: seq<int>, vals: seq<V>, i: int, keys': seq<int>, vals': seq<V>,
                           n': int, zero: V)
  {
    && 0 <= i <= |keys| && i <= |vals| && Unique(keys, i)
    && IsMap(hash, keys', vals', n', zero, Occupied(keys, i))
    && Contents(keys', vals', n') == Contents(keys, vals, i)
    && NoTombstones(keys', n')
  }

  ghost predicate NoTombstones(keys: seq<int>, n: int)
    requires n <= |keys|
  {
    forall i :: 0 <= i < n ==> keys[i] != DEAD_ENTRY
  }

  method MoveOne<V>(hash: int -> nat, k: int, v: V, keys': array<int>, vals': array<V>, n': int, zero: V,
                    ghost ks: seq<int>, ghost vs: seq<V>, ghost n: int, ghost i: int)
    returns (ghost ks': seq<int>, ghost vs': seq<V>)
    requires 0 <= i < n <= |ks| && n <= |vs| && n < n' && Unique(ks, n) && k == ks[i] && v == vs[i]
    requires Moved(hash, ks, vs, i, keys'[..], vals'[..], n', zero) && keys' as object != vals'
    modifies keys', vals'
    ensures keys'[..] == ks' && vals'[..] == vs' && Moved(hash, ks, vs, i + 1, ks', vs', n', zero)
  {
    UniquePrefix(ks, n, i + 1);
    ks', vs' := keys'[..], vals'[..];
    if Live(k) {
      NotYetMoved(ks, vs, n, i, ks', vs', n');
      ks', vs' := Place(hash, keys', vals', n', k, v, zero, Occupied(ks, i));
    }
  }

  /** Rehash all live entries into a table twice as large; tombstones are left behind. */
  method Rehash<V>(hash: int -> nat, keys: array<int>, vals: array<V>, n: int, zero: V)
    returns (keys': array<int>, vals': array<V>)
    requires IsTable(hash, keys[..], n) && n <= vals.Length
    ensures fresh(keys') && fresh(vals') && keys' as object != vals'
    ensures Moved(hash, keys[..], vals[..], n, keys'[..], vals'[..], 2 * n, zero)
  {
    var room := 2 * if n < 8 then 8 else n;
    keys' := new int[room](_ => NO_ENTRY);
    vals' := new V[room](_ => zero);
    ghost var ks, vs := keys[..], vals[..];
    ghost var ks', vs' := keys'[..], vals'[..];
    EmptyTable(hash, ks', vs', 2 * n, zero);
    for i := 0 to n
      invariant keys[..] == ks && vals[..] == vs && keys'[..] == ks' && vals'[..] == vs'
      invariant Moved(hash, ks, vs, i, ks', vs', 2 * n, zero)
    {
      ks', vs' := MoveOne(hash, keys[i], vals[i], keys', vals', 2 * n, zero, ks, vs, n, i);
    }
  }

  // ----- the hash -----

  predicate PowerOfTwo(n: nat)
  {
    n == 1 || (n > 1 && n % 2 == 0 && PowerOfTwo(n / 2))
  }

  /** Bitwise and. */
  function And(a: nat, b: nat): nat
  {
    if a == 0 || b == 0 then 0 else 2 * And(a / 2, b / 2) + (a % 2) * (b % 2)
  }

  /** Probes start at the hash masked with the size less one, and go on by masking the next number. */
  lemma ProbesAreMasked(hash: int -> nat, k: int, i: nat, size: nat)
    requires PowerOfTwo(size) && i < size
    ensures Home(hash, k, size) == And(hash(k), size - 1) && Next(i, size) == And(i + 1, size - 1)
  {
    MaskIsRemainder(hash(k), size);
    MaskIsRemainder(i + 1, size);
    NextIsRemainder(i, size);
  }

  lemma NextIsRemainder(i: nat, size: nat)
    requires i < size
    ensures Next(i, size) == (i + 1) % size
  {
    if i + 1 == size {
      RemainderIs(i + 1, size, 1, 0);
    } else {
      RemainderIs(i + 1, size, 0, i + 1);
    }
  }

  /** Masking with a power of two less one is taking the remainder. */
  lemma {:induction false} MaskIsRemainder(h: nat, size: nat)
    requires PowerOfTwo(size)
    ensures And(h, size - 1) == h % size
  {
    if size > 1 {
      var half := size / 2;
      assert size == 2 * half;
      MaskIsRemainder(h / 2, half);
      MaskStep(h, half, size);
    }
  }

  lemma MaskStep(h: nat, half: nat, size: nat)
    requires half > 0 && size == 2 * half && And(h / 2, half - 1) == (h / 2) % half
    ensures And(h, size - 1) == h % size
  {
    assert (size - 1) / 2 == half - 1 && (size - 1) % 2 == 1;
    assert And(h, size - 1) == 2 * And(h / 2, half - 1) + h % 2;
    HalfRemainder(h, half);
  }

  lemma HalfRemainder(h: nat, half: nat)
    requires half > 0
    ensures h % (2 * half) == 2 * ((h / 2) % half) + h % 2
  {
    var q, r := (h / 2) / half, (h / 2) % half;
    assert h == 2 * (h / 2) + h % 2 && h / 2 == half * q + r;
    assert h == (2 * half) * q + (2 * r + h % 2);
    RemainderIs(h, 2 * half, q, 2 * r + h % 2);
  }

  lemma RemainderIs(h: nat, d: nat, q: nat, r: nat)
    requires h == d * q + r && r < d
    ensures h % d == r
  {
    Closer(d, q, h / d, r, h % d);
  }

  /** A number has one quotient and one remainder. */
  lemma Closer(d: nat, q: nat, q': nat, r: nat, r': nat)
    requires d * q + r == d * q' + r' && r < d && r' < d
    ensures r == r'
  {
    if q < q' {
      assert d * (q' - q) == r - r';
      Product(d, q' - q);
    } else if q' < q {
      assert d * (q - q') == r' - r;
      Product(d, q - q');
    }
  }

  lemma Product(d: nat, n: nat)
    requires n >= 1
    ensures d * n >= d
  {
  }

  /** The smallest power of two that is not below n. */
  function RoundUp(n: nat): (s: nat)
    requires n > 0
    ensures n <= s < 2 * n && PowerOfTwo(s)
  {
    if n == 1 then 1 else 2 * RoundUp((n + 1) / 2)
  }

  /** The state of a hash: a table, its counters, and how often an entry was deleted. */
  ghost predicate HashOk<V>(hash: int -> nat, keys: seq<int>, vals: seq<V>, size: int, used: int, maxUsed: int,
                            zero: V, deleted: int)
  {
    && IsMap(hash, keys, vals, size, zero, used)
    && used <= maxUsed == MaxLoad(size)
    && used == |Contents(keys, vals, size).Keys| + deleted && 0 <= deleted
  }

  lemma EnterOk<V>(hash: int -> nat, keys: seq<int>, vals: seq<V>, size: int, used: int, maxUsed: int, zero: V,
                   deleted: int, k: int, p: int)
    requires HashOk(hash, keys, vals, size, used, maxUsed, zero, deleted) && used < maxUsed && Live(k)
    requires 0 <= p < size && !Live(keys[p]) && forall s :: 0 <= s < size ==> keys[s] != k
    requires forall j :: 0 <= j < size && Before(Home(hash, k, size), j, p) ==> keys[j] != NO_ENTRY
    ensures HashOk(hash, keys[p := k], vals, size, used + 1, maxUsed, zero, deleted)
    ensures k !in Contents(keys, vals, size)
    ensures Contents(keys[p := k], vals, size) == Contents(keys, vals, size)[k := vals[p]]
  {
    StoreKey(hash, keys, size, k, p);
    StoreContents(keys, vals, size, k, p, vals[p]);
    var _ := ContentsKey(keys, vals, size, k);
    assert vals[p := vals[p]] == vals;
    OccupiedUpdate(keys, p, k, size);
    assert Contents(keys[p := k], vals, size).Keys == Contents(keys, vals, size).Keys + {k};
  }

  lemma KillOk<V>(hash: int -> nat, keys: seq<int>, vals: seq<V>, size: int, used: int, maxUsed: int, zero: V,
                  deleted: int, p: int)
    requires HashOk(hash, keys, vals, size, used, maxUsed, zero, deleted) && 0 <= p < size && Live(keys[p])
    ensures HashOk(hash, keys[p := DEAD_ENTRY], vals, size, used, maxUsed, zero, deleted + 1)
    ensures Contents(keys[p := DEAD_ENTRY], vals, size) == Contents(keys, vals, size) - {keys[p]}
  {
    KillKey(hash, keys, size, p);
    KillContents(keys, vals, size, p);
    ContentsAt(keys, vals, size, p);
    OccupiedUpdate(keys, p, DEAD_ENTRY, size);
    assert Contents(keys[p := DEAD_ENTRY], vals, size).Keys + {keys[p]} == Contents(keys, vals, size).Keys;
  }

  lemma SetOk<V>(hash: int -> nat, keys: seq<int>, vals: seq<V>, size: int, used: int, maxUsed: int, zero: V,
                 deleted: int, p: int, v: V)
    requires HashOk(hash, keys, vals, size, used, maxUsed, zero, deleted) && 0 <= p < size && Live(keys[p])
    ensures HashOk(hash, keys, vals[p := v], size, used, maxUsed, zero, deleted)
    ensures Contents(keys, vals[p := v], size) == Contents(keys, vals, size)[keys[p] := v]
  {
    SetContents(keys, vals, size, p, v);
    ContentsAt(keys, vals, size, p);
    assert Contents(keys, vals[p := v], size).Keys == Contents(keys, vals, size).Keys;
  }

  class Hash<V> {
    const hash: int -> nat
    const zero: V
    var keys: array<int>
    var vals: array<V>
    var size: int
    var used: int
    var maxUsed: int
    ghost var deleted: int

    ghost predicate Valid()
      reads this, keys, vals
    {
      && keys as object != vals && HashOk(hash, keys[..], vals[..], size, used, maxUsed, zero, deleted)
      && size > 0 && PowerOfTwo(size)
    }

    /** The map that the hash stands for. */
    ghost function Map(): map<int, V>
      reads this, keys, vals
      requires Valid()
    {
      Contents(keys[..], vals[..], size)
    }

    /** An empty table; one of no slots if the size asked for is not positive. */
    constructor (hash: int -> nat, zero: V, n: int)
      ensures this.hash == hash && this.zero == zero
      ensures n > 0 ==> Valid() && Map() == map[] && n <= size < 2 * n
      ensures n <= 0 ==> size == 0 && used == 0 && maxUsed == 0
      ensures deleted == 0 && fresh(keys) && fresh(vals) && keys.Length == vals.Length == size
    {
      this.hash, this.zero := hash, zero;
      var slots := if n > 0 then RoundUp(n) else 0;
      size := slots;
      keys := new int[slots](_ => NO_ENTRY);
      vals := new V[slots](_ => zero);
      used, maxUsed, deleted := 0, if n > 0 then MaxLoad(slots) else 0, 0;
      new;
      if n > 0 {
        EmptyTable(hash, keys[..], vals[..], size, zero);
        MaxLoadGrows(size);
      }
    }

    method Grow()
      requires Valid()
      modifies this
      ensures Valid() && Map() == old(Map()) && used == old(used) && deleted == old(deleted)
      ensures fresh(keys) && fresh(vals) && used < maxUsed && NoTombstones(keys[..], size)
    {
      ghost var ks, vs := keys[..], vals[..];
      MaxLoadGrows(size);
      keys, vals := Rehash(hash, keys, vals, size, zero);
      size := 2 * size;
      maxUsed := MaxLoad(size);
    }

    /** The slot of `k`, or -1. */
    method FindEntry(k: int) returns (p: int)
      requires Valid() && Live(k)
      ensures if p == -1 then k !in Map() else 0 <= p < size && keys[p] == k && k in Map() && Map()[k] == vals[p]
      ensures forall s :: 0 <= s < size && keys[s] == k ==> s == p
    {
      MaxLoadGrows(size);
      var found, at, _ := Probe(hash, keys, size, k);
      p := if found then at else -1;
      ghost var _ := ContentsKey(keys[..], vals[..], size, k);
      if found {
        ContentsAt(keys[..], vals[..], size, at);
      }
    }

    method Find(k: int) returns (v: Option<V>)
      requires Valid() && Live(k)
      ensures v == if k in Map() then Some(Map()[k]) else None
    {
      var p := FindEntry(k);
      v := if p == -1 then None else Some(vals[p]);
    }

    /** The slot of `k`, which is added if it is missing.  A new entry has the default value after
        the table grew or when no tombstone is on the way to its slot; otherwise it takes over the
        last tombstone on the way together with the value that was deleted there. */
    method Acquire(k: int) returns (p: int)
      requires Valid() && Live(k)
      modifies this, keys
      ensures Valid() && deleted == old(deleted) && 0 <= p < size && keys[p] == k && k in Map() && Map()[k] == vals[p]
      ensures (keys == old(keys) || fresh(keys)) && (vals == old(vals) || fresh(vals))
      ensures if k in old(Map()) then Map() == old(Map()) && used == old(used)
              else Map() == old(Map())[k := vals[p]] && used == old(used) + 1
      ensures k !in old(Map()) && old(used >= maxUsed) ==> vals[p] == zero
      ensures k !in old(Map()) && old(used < maxUsed) ==>
          && keys == old(keys) && vals == old(vals) && size == old(size)
          && (old(AtLastDead(k, p)) || (vals[p] == zero && old(AtEnd(k, p))))
    {
      MaxLoadGrows(size);
      ghost var _ := ContentsKey(keys[..], vals[..], size, k);
      var found, at, dead := Probe(hash, keys, size, k);
      if found {
        ContentsAt(keys[..], vals[..], size, at);
        return at;
      }
      if used >= maxUsed {
        at, dead := GrowFor(k);
      }
      p := if dead >= 0 then dead else at;
      Enter(k, p);
    }

    /** Grow, and probe again for the missing key `k`. */
    method GrowFor(k: int) returns (at: int, dead: int)
      requires Valid() && Live(k) && k !in Map()
      modifies this
      ensures Valid() && Map() == old(Map()) && used == old(used) < maxUsed && deleted == old(deleted)
      ensures fresh(keys) && fresh(vals) && dead == -1 && 0 <= at < size && keys[at] == NO_ENTRY
      ensures ProbedTo(hash, keys[..], size, k, at) && forall s :: 0 <= s < size ==> keys[s] != k
    {
      Grow();
      MaxLoadGrows(size);
      ghost var _ := ContentsKey(keys[..], vals[..], size, k);
      var found;
      found, at, dead := Probe(hash, keys, size, k);
    }

    /** `p` is free and the probes for `k` come to it without passing a tombstone. */
    ghost predicate AtEnd(k: int, p: int)
      requires Valid()
      reads this, keys, vals
    {
      && 0 <= p < size && keys[p] == NO_ENTRY
      && forall j :: 0 <= j < size && Before(Home(hash, k, size), j, p) ==> keys[j] != DEAD_ENTRY
    }

    /** `p` is the last tombstone that the probes for `k` pass before they come to a free slot. */
    ghost predicate AtLastDead(k: int, p: int)
      requires Valid()
      reads this, keys, vals
    {
      exists at ::
        ProbedTo(hash, keys[..], size, k, at) && keys[at] == NO_ENTRY && LastDead(hash, keys[..], size, k, at, p)
    }

    /** Mark slot `p`, free or dead, with the missing key `k`. */
    method Enter(k: int, p: int)
      requires Valid() && used < maxUsed && Live(k) && 0 <= p < size && !Live(keys[p])
      requires forall s :: 0 <= s < size ==> keys[s] != k
      requires forall j :: 0 <= j < size && Before(Home(hash, k, size), j, p) ==> keys[j] != NO_ENTRY
      modifies this`used, keys
      ensures Valid() && used == old(used) + 1 && keys[p] == k
      ensures k !in old(Map()) && Map() == old(Map())[k := vals[p]]
    {
      ghost var ks := keys[..];
      EnterOk(hash, ks, vals[..], size, used, maxUsed, zero, deleted, k, p);
      keys[p] := k;
      used := used + 1;
      assert keys[..] == ks[p := k];
    }

    method SetValue(p: int, v: V)
      requires Valid() && 0 <= p < size && Live(keys[p])
      modifies vals
      ensures Valid() && vals[p] == v && Map() == old(Map())[keys[p] := v]
    {
      ghost var vs := vals[..];
      SetOk(hash, keys[..], vs, size, used, maxUsed, zero, deleted, p, v);
      vals[p] := v;
      assert vals[..] == vs[p := v];
    }

    /** Add a pair unless the key is there. */
    method Add(k: int, v: V) returns (added: bool)
      requires Valid() && Live(k)
      modifies this, keys, vals
      ensures Valid() && deleted == old(deleted) && added == (k !in old(Map()))
      ensures Map() == if added then old(Map())[k := v] else old(Map())
      ensures (keys == old(keys) || fresh(keys)) && (vals == old(vals) || fresh(vals))
    {
      var u := used;
      var p := Acquire(k);
      if u == used {
        return false;
      }
      SetValue(p, v);
      added := true;
    }

    /** The value of the key, which is first added with `v` if it is missing. */
    method FindOrAdd(k: int, v: V) returns (x: V)
      requires Valid() && Live(k)
      modifies this, keys, vals
      ensures Valid() && deleted == old(deleted) && x == if k in old(Map()) then old(Map())[k] else v
      ensures Map() == old(Map())[k := x]
      ensures (keys == old(keys) || fresh(keys)) && (vals == old(vals) || fresh(vals))
    {
      var u := used;
      var p := Acquire(k);
      if u != used {
        SetValue(p, v);
      }
      x := vals[p];
    }

    method Delete(k: int) returns (was: bool)
      requires Valid() && Live(k)
      modifies keys, this`deleted
      ensures Valid() && was == (k in old(Map())) && Map() == old(Map()) - {k}
      ensures deleted == old(deleted) + if was then 1 else 0
      ensures forall j :: 0 <= j < keys.Length ==>
        keys[j] == if j < size && old(keys[j]) == k then DEAD_ENTRY else old(keys[j])
    {
      var p := FindEntry(k);
      was := p != -1;
      if was {
        ghost var ks := keys[..];
        KillOk(hash, ks, vals[..], size, used, maxUsed, zero, deleted, p);
        keys[p] := DEAD_ENTRY;
        deleted := deleted + 1;
        assert keys[..] == ks[p := DEAD_ENTRY];
      }
    }

    /** The reported length is the number of pairs exactly as long as nothing was deleted. */
    method GetLength() returns (n: int)
      requires Valid()
      ensures n == |Map().Keys| + deleted
      ensures n == |Map().Keys| <==> deleted == 0
    {
      n := used;
    }
  }

  /** The slot of a key comes before every end of its probes. */
  lemma FoundBeforeEnd(hash: int -> nat, keys: seq<int>, n: int, q: int, p: int)
    requires IsTable(hash, keys, n) && 0 <= q < n && Live(keys[q]) && 0 <= p < n && keys[p] == NO_ENTRY
    ensures Before(Home(hash, keys[q], n), q, p)
  {
    var h := Home(hash, keys[q], n);
    assert Before(h, q, p) || Before(h, p, q);
  }

  /** Every tombstone lies, on the probes for `k`, before the slot of `k`. */
  ghost predicate NoneBehind(hash: int -> nat, keys: seq<int>, n: int, k: int)
    requires 0 < n <= |keys|
  {
    forall q, j :: 0 <= q < n && 0 <= j < n && keys[q] == k && keys[j] == DEAD_ENTRY ==> Before(Home(hash, k, n), j, q)
  }

  lemma FirstIsLast(hash: int -> nat, keys: seq<int>, n: int, k: int, q: int, at: int, p: int)
    requires IsTable(hash, keys, n) && Live(k) && 0 <= q < n && keys[q] == k && NoneBehind(hash, keys, n, k)
    requires 0 <= at < n && keys[at] == NO_ENTRY && LastDead(hash, keys[q := DEAD_ENTRY], n, k, at, p)
    ensures p == q
  {
    FoundBeforeEnd(hash, keys, n, q, at);
  }

  /** A key that is deleted and acquired again shows the deleted value, whatever the default
      is, in every table with room in which no tombstone lies behind the slot of the key. */
  method DeletedValueReturns<V>(h: Hash<V>, k: int) returns (p: int)
    requires h.Valid() && Live(k) && k in h.Map() && h.used < h.maxUsed && NoneBehind(h.hash, h.keys[..], h.size, k)
    modifies h, h.keys
    ensures h.Valid() && 0 <= p < h.size && h.keys[p] == k
    ensures h.vals[p] == old(h.Map()[k])
  {
    var q := h.FindEntry(k);
    ghost var ks, n := h.keys[..], h.size;
    var _ := h.Delete(k);
    ghost var ks' := h.keys[..];
    assert ks' == ks[q := DEAD_ENTRY];
    p := h.Acquire(k);
    if ks'[p] == NO_ENTRY {
      FoundBeforeEnd(h.hash, ks, n, q, p);
      assert false;
    }
    ghost var at :| 0 <= at < n && ks'[at] == NO_ENTRY && LastDead(h.hash, ks', n, k, at, p);
    FirstIsLast(h.hash, ks, n, k, q, at, p);
  }
}
