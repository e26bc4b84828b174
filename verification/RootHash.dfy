/**
 The root hash of an epoch: the manager hashes the concatenation of the epoch's witness
 keys when it closes the epoch, and the auditor recomputes it from the keys it finds.

 `order` stands for listing a std::set and sorting the list by last character, a fixed
 function of the set; `sha` stands for SHA-256 printed as 64 hexadecimal digits.
 */
module RootHash {
  import opened Common

  const KEY_LENGTH: nat := 64

  /** The listing of a key set names every key once, in ascending order of last characters. */
  ghost predicate Lists(keys: seq<string>, s: set<string>)
  {
    && (forall k :: k in keys <==> k in s)
    && (forall i, j :: 0 <= i < j < |keys| ==> keys[i] != keys[j])
    && (forall i, j :: 0 <= i < j < |keys| && keys[i] != "" && keys[j] != "" ==>
          keys[i][|keys[i]| - 1] <= keys[j][|keys[j]| - 1])
  }

  ghost predicate HashKeys(s: set<string>)
  {
    forall k :: k in s ==> |k| == KEY_LENGTH
  }

  ghost function Concat(keys: seq<string>): string
  {
    if keys == [] then "" else Concat(keys[..|keys| - 1]) + keys[|keys| - 1]
  }

  /** The texts of the parts, one after the other. */
  lemma {:induction false} ConcatAppend(a: seq<string>, b: seq<string>)
    ensures Concat(a + b) == Concat(a) + Concat(b)
    ensures |b| == 1 ==> Concat(b) == b[0]
    decreases |b|
  {
    if b == [] {
      assert a + b == a;
    } else {
      var front, last := b[..|b| - 1], b[|b| - 1];
      ConcatAppend(a, front);
      assert (a + b)[..|a + b| - 1] == a + front;
      Regroup(Concat(a), Concat(front), last);
    }
  }

  /** What manager and auditor both compute. */
  method RootHash(sha: string -> string, order: set<string> -> seq<string>, keys: set<string>) returns (root: string)
    ensures root == sha(Concat(order(keys)))
  {
    var sorted := order(keys);
    var omni := "";
    for i := 0 to |sorted|
      invariant omni == Concat(sorted[..i])
    {
      assert sorted[..i + 1][..i] == sorted[..i];
      omni := omni + sorted[i];
    }
    assert sorted[..|sorted|] == sorted;
    root := sha(omni);
  }

  /** strncmp(a, b, 64) == 0 */
  predicate SameFirst64(a: string, b: string)
  {
    a == b || (|a| >= KEY_LENGTH && |b| >= KEY_LENGTH && a[..KEY_LENGTH] == b[..KEY_LENGTH])
  }

  /** What the C string `s` has at `i`, its final NUL included. */
  function CharAt(s: string, i: nat): char
  {
    if i < |s| then s[i] else '\0'
  }

  /** The comparison looks at the first 64 characters, and at a NUL that ends a text before. */
  lemma SameFirst64Means(a: string, b: string)
    requires '\0' !in a && '\0' !in b
    ensures SameFirst64(a, b) <==> forall i :: 0 <= i < KEY_LENGTH ==> CharAt(a, i) == CharAt(b, i)
  {
    if forall i :: 0 <= i < KEY_LENGTH ==> CharAt(a, i) == CharAt(b, i) {
      SameLength(a, b);
      SameLength(b, a);
      forall i | 0 <= i < KEY_LENGTH && i < |a| && i < |b| ensures a[i] == b[i] {
        assert CharAt(a, i) == CharAt(b, i);
      }
    }
  }

  lemma SameLength(a: string, b: string)
    requires '\0' !in b && forall i :: 0 <= i < KEY_LENGTH ==> CharAt(a, i) == CharAt(b, i)
    ensures |a| < KEY_LENGTH ==> |b| <= |a|
  {
    if |a| < KEY_LENGTH {
      assert CharAt(a, |a|) == CharAt(b, |a|);
    }
  }

  method CheckRootHash(sha: string -> string, order: set<string> -> seq<string>, keys: set<string>, root: string)
    returns (ok: bool)
    ensures ok <==> SameFirst64(root, sha(Concat(order(keys))))
  {
    var recomputed := RootHash(sha, order, keys);
    ok := SameFirst64(root, recomputed);
  }

  /** A concatenation of 64-character keys splits in one way only. */
  lemma {:induction false} ConcatUnique(a: seq<string>, b: seq<string>)
    requires forall k :: k in a || k in b ==> |k| == KEY_LENGTH
    requires Concat(a) == Concat(b)
    ensures a == b
  {
    if a == [] || b == [] {
      assert |Concat(a)| == |Concat(b)|;
    } else {
      var x, y := a[|a| - 1], b[|b| - 1];
      var fa, fb := a[..|a| - 1], b[..|b| - 1];
      assert x in a && y in b;
      assert Concat(a)[|Concat(fa)|..] == x && Concat(b)[|Concat(fb)|..] == y;
      assert Concat(a)[..|Concat(fa)|] == Concat(fa) && Concat(b)[..|Concat(fb)|] == Concat(fb);
      ConcatUnique(fa, fb);
      assert a == fa + [x] && b == fb + [y];
    }
  }

  /** The check holds exactly when the key set is the one the manager hashed at close,
      unless SHA-256 collides on the two key texts. */
  lemma CheckIsExact(sha: string -> string, order: set<string> -> seq<string>, closed: set<string>, now: set<string>)
    requires HashKeys(closed) && HashKeys(now)
    requires Lists(order(closed), closed) && Lists(order(now), now)
    requires |sha(Concat(order(closed)))| == KEY_LENGTH && |sha(Concat(order(now)))| == KEY_LENGTH
    requires sha(Concat(order(closed))) == sha(Concat(order(now))) ==> Concat(order(closed)) == Concat(order(now))
    ensures SameFirst64(sha(Concat(order(closed))), sha(Concat(order(now)))) <==> closed == now
  {
    var rc, rn := sha(Concat(order(closed))), sha(Concat(order(now)));
    if SameFirst64(rc, rn) {
      assert rc[..KEY_LENGTH] == rc && rn[..KEY_LENGTH] == rn;
      ConcatUnique(order(closed), order(now));
      assert forall k :: k in closed <==> k in now;
    }
  }
}
