/** The two list primitives the relay is built from: `Array.prototype.find`
    (first match) and the splice-while-scanning loop, whose effect is an
    order-preserving filter. */
module Search {
  import opened Records

  /** `k` is the index of the first element of `s` satisfying `p`. */
  ghost predicate IsFirst<T>(s: seq<T>, p: T -> bool, k: int) {
    0 <= k < |s| && p(s[k]) && forall j :: 0 <= j < k ==> !p(s[j])
  }

  ghost predicate NoneMatch<T>(s: seq<T>, p: T -> bool) {
    forall j :: 0 <= j < |s| ==> !p(s[j])
  }

  /** The index `Array.prototype.find` would stop at, if any. */
  function Find<T>(s: seq<T>, p: T -> bool): (r: Option<nat>)
    ensures r.Some? ==> IsFirst(s, p, r.value)
    ensures r.None? ==> NoneMatch(s, p)
  {
    if s == [] then None
    else if p(s[0]) then Some(0)
    else match Find(s[1..], p)
      case None => None
      case Some(k) => Some(k + 1)
  }

  /** At most one index is the first match. */
  lemma FirstIsUnique<T>(s: seq<T>, p: T -> bool, k: int, k': int)
    requires IsFirst(s, p, k) && IsFirst(s, p, k')
    ensures k == k'
  {
  }

  /** The same, for every index at once. */
  lemma FirstIsUniqueFor<T>(s: seq<T>, p: T -> bool, k: int)
    requires IsFirst(s, p, k)
    ensures forall k' :: IsFirst(s, p, k') ==> k' == k
  {
    forall k' | IsFirst(s, p, k') ensures k' == k {
      FirstIsUnique(s, p, k', k);
    }
  }

  /** Find returns exactly the first matching index. */
  lemma FindIsFirst<T>(s: seq<T>, p: T -> bool, k: int)
    requires IsFirst(s, p, k)
    ensures Find(s, p) == Some(k)
  {
    var r := Find(s, p);
    if r.Some? {
      FirstIsUnique(s, p, r.value, k);
    }
  }

  /** `s` with every element matching `drop` spliced out, the others kept in
      their original order. */
  function Without<T>(s: seq<T>, drop: T -> bool): (r: seq<T>)
    ensures |r| <= |s|
    ensures forall x :: x in r ==> x in s && !drop(x)
  {
    if s == [] then []
    else Without(s[..|s| - 1], drop) + (if drop(s[|s| - 1]) then [] else [s[|s| - 1]])
  }

  /** Stepping a prefix forward by one element, as a scanning loop does. */
  lemma WithoutExtend<T>(s: seq<T>, drop: T -> bool, k: nat)
    requires k < |s|
    ensures Without(s[..k + 1], drop)
         == Without(s[..k], drop) + (if drop(s[k]) then [] else [s[k]])
  {
    assert s[..k + 1][..k] == s[..k];
  }

  /** One step of a loop that scans `current` at index `j`, splicing out the
      elements that match `drop`: `current` is the scanned part of `s` with
      those elements removed, followed by the part not yet scanned. */
  lemma SpliceStep<T>(s: seq<T>, drop: T -> bool, m: nat, current: seq<T>)
    requires m < |s|
    requires current == Without(s[..m], drop) + s[m..]
    ensures var j := |Without(s[..m], drop)|;
      && j < |current| && current[j] == s[m]
      && (drop(s[m]) ==>
            current[..j] + current[j + 1..] == Without(s[..m + 1], drop) + s[m + 1..]
            && j == |Without(s[..m + 1], drop)|)
      && (!drop(s[m]) ==>
            current == Without(s[..m + 1], drop) + s[m + 1..] && j + 1 == |Without(s[..m + 1], drop)|)
  {
    var kept := Without(s[..m], drop);
    WithoutExtend(s, drop, m);
    assert s[m..] == [s[m]] + s[m + 1..];
    SpliceAt(kept, s[m], s[m + 1..]);
    if drop(s[m]) {
      assert Without(s[..m + 1], drop) == kept;
    } else {
      assert Without(s[..m + 1], drop) == kept + [s[m]];
    }
  }

  /** Removing the element at index `|front|` of `front + [x] + back`. */
  lemma SpliceAt<T>(front: seq<T>, x: T, back: seq<T>)
    ensures var current := front + [x] + back;
      && current == front + ([x] + back)
      && current[|front|] == x
      && current[..|front|] + current[|front| + 1..] == front + back
  {
    var current := front + [x] + back;
    assert current[..|front|] == front;
    assert current[|front| + 1..] == back;
  }

  /** Nothing that should stay is dropped. */
  lemma {:induction false} WithoutKeeps<T>(s: seq<T>, drop: T -> bool, x: T)
    requires x in s && !drop(x)
    ensures x in Without(s, drop)
  {
    var last := s[|s| - 1];
    if x != last {
      assert x in s[..|s| - 1] by {
        var i :| 0 <= i < |s| && s[i] == x;
        assert i < |s| - 1;
        assert s[..|s| - 1][i] == x;
      }
      WithoutKeeps(s[..|s| - 1], drop, x);
    }
  }

  /** Splicing out the same elements twice changes nothing more. */
  lemma {:induction false} WithoutIdempotent<T>(s: seq<T>, drop: T -> bool)
    ensures Without(Without(s, drop), drop) == Without(s, drop)
  {
    if s != [] {
      var init := s[..|s| - 1];
      var last := s[|s| - 1];
      WithoutIdempotent(init, drop);
      var f := Without(init, drop);
      if !drop(last) {
        var g := f + [last];
        assert g[..|g| - 1] == f;
        calc {
          Without(g, drop);
          Without(f, drop) + [last];
          f + [last];
        }
      } else {
        assert Without(s, drop) == f;
      }
    }
  }
}
