/**
 * The key order of `json.dumps(..., sort_keys=True)`: the keys of a
 * dictionary listed once each, ascending under Python's string order.
 */
module SortedKeys {
  import opened PyStr

  /** Each key is strictly smaller than every later one. */
  predicate StrictlySorted(ks: seq<string>) {
    forall i, j :: 0 <= i < j < |ks| ==> Less(ks[i], ks[j])
  }

  /** `k` is the smallest element of `keys`. */
  predicate IsLeast(k: string, keys: set<string>) {
    k in keys && forall j :: j in keys ==> !Less(j, k)
  }

  /** Every non-empty finite set of strings has a least element. */
  lemma {:induction false} LeastExists(keys: set<string>)
    requires keys != {}
    ensures exists k :: IsLeast(k, keys)
    decreases |keys|
  {
    var x :| x in keys;
    var rest := keys - {x};
    if rest == {} {
      assert keys == {x};
      LessIrreflexive(x);
      assert IsLeast(x, keys);
    } else {
      LeastExists(rest);
      var m :| IsLeast(m, rest);
      if Less(x, m) {
        forall j | j in keys ensures !Less(j, x) {
          if j != x {
            if Less(j, x) {
              LessTransitive(j, x, m);
            }
          } else {
            LessIrreflexive(x);
          }
        }
        assert IsLeast(x, keys);
      } else {
        assert IsLeast(m, keys);
      }
    }
  }

  /** The keys of `keys` in ascending order, as `sorted()` lists them. */
  ghost function Sorted(keys: set<string>): (ks: seq<string>)
    ensures |ks| == |keys|
    ensures forall i :: 0 <= i < |ks| ==> ks[i] in keys
    ensures forall k :: k in keys ==> k in ks
    ensures StrictlySorted(ks)
    decreases |keys|
  {
    if keys == {} then []
    else
      var k := LeastOf(keys);
      var tail := Sorted(keys - {k});
      assert forall i :: 0 <= i < |tail| ==> Less(k, tail[i]) by {
        forall i | 0 <= i < |tail| ensures Less(k, tail[i]) {
          LessTotal(k, tail[i]);
        }
      }
      [k] + tail
  }

  ghost function LeastOf(keys: set<string>): (k: string)
    requires keys != {}
    ensures IsLeast(k, keys)
  {
    LeastExists(keys);
    var k :| IsLeast(k, keys); k
  }

  /** A set has only one strictly ascending listing, so any strictly sorted
      sequence holding exactly the keys is what `Sorted` yields. */
  lemma {:induction false} SortedUnique(a: seq<string>, b: seq<string>)
    requires StrictlySorted(a) && StrictlySorted(b)
    requires forall i :: 0 <= i < |a| ==> a[i] in b
    requires forall i :: 0 <= i < |b| ==> b[i] in a
    ensures a == b
  {
    if a != [] { assert a[0] in b; }
    if b != [] { assert b[0] in a; }
    if a == [] || b == [] {
      return;
    }
    if a[0] != b[0] {
      var m :| 0 <= m < |b| && b[m] == a[0];
      var n :| 0 <= n < |a| && a[n] == b[0];
      assert Less(b[0], a[0]);
      assert Less(a[0], b[0]);
      LessAsymmetric(a[0], b[0]);
      assert false;
    }
    var a', b' := a[1..], b[1..];
    forall i | 0 <= i < |a'| ensures a'[i] in b' {
      var m :| 0 <= m < |b| && b[m] == a'[i];
      assert Less(a[0], a'[i]);
      if m == 0 { LessIrreflexive(a[0]); }
      assert b'[m - 1] == a'[i];
    }
    forall i | 0 <= i < |b'| ensures b'[i] in a' {
      var m :| 0 <= m < |a| && a[m] == b'[i];
      assert Less(b[0], b'[i]);
      if m == 0 { LessIrreflexive(b[0]); }
      assert a'[m - 1] == b'[i];
    }
    SortedUnique(a', b');
  }

  /** The sorted listing of `keys` is the strictly sorted sequence `ks`
      holding exactly those keys. */
  lemma SortedIs(keys: set<string>, ks: seq<string>)
    requires StrictlySorted(ks)
    requires forall i :: 0 <= i < |ks| ==> ks[i] in keys
    requires forall k :: k in keys ==> k in ks
    ensures Sorted(keys) == ks
  {
    SortedUnique(Sorted(keys), ks);
  }
}
