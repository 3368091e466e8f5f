/**
 * The array operations the web app's state updates are built from:
 * `filter`, `findIndex`, removal and insertion at an index, and a swap of two
 * slots, each on an immutable sequence (every update in the app works on a
 * copy of the array it replaces).
 */
module Lists {

  /** `s.filter(keep)`: the elements `keep` accepts, in their order. */
  function Filter<T>(s: seq<T>, keep: T -> bool): (r: seq<T>)
    ensures |r| <= |s|
    ensures forall i :: 0 <= i < |r| ==> keep(r[i])
  {
    if s == [] then [] else (if keep(s[0]) then [s[0]] else []) + Filter(s[1..], keep)
  }

  /** An element survives the filter exactly when it was there and is accepted. */
  lemma {:induction false} FilterMembers<T>(s: seq<T>, keep: T -> bool, x: T)
    ensures x in Filter(s, keep) <==> x in s && keep(x)
    decreases |s|
  {
    if s != [] {
      FilterMembers(s[1..], keep, x);
      assert s == [s[0]] + s[1..];
    }
  }

  /** Filtering keeps the order: it distributes over concatenation. */
  lemma {:induction false} FilterAppend<T>(a: seq<T>, b: seq<T>, keep: T -> bool)
    ensures Filter(a + b, keep) == Filter(a, keep) + Filter(b, keep)
    decreases |a|
  {
    if a == [] {
      assert a + b == b;
    } else {
      assert (a + b)[0] == a[0];
      assert (a + b)[1..] == a[1..] + b;
      FilterAppend(a[1..], b, keep);
    }
  }

  /** A filter that accepts everything is the identity. */
  lemma {:induction false} FilterKeepsAll<T>(s: seq<T>, keep: T -> bool)
    requires forall i :: 0 <= i < |s| ==> keep(s[i])
    ensures Filter(s, keep) == s
    decreases |s|
  {
    if s != [] {
      FilterKeepsAll(s[1..], keep);
    }
  }

  /** `s.findIndex(p)`, with `|s|` standing for `-1`. */
  function FirstIndex<T>(s: seq<T>, p: T -> bool): (k: nat)
    ensures k <= |s|
    ensures k < |s| ==> p(s[k])
    ensures forall j :: 0 <= j < k ==> !p(s[j])
  {
    if s == [] then 0
    else if p(s[0]) then 0
    else
      var k := 1 + FirstIndex(s[1..], p);
      assert forall j :: 1 <= j < k ==> s[j] == s[1..][j - 1];
      k
  }

  /** The first index is determined by the elements up to it. */
  lemma FirstIndexAt<T>(s: seq<T>, p: T -> bool, k: nat)
    requires k < |s| && p(s[k]) && forall j :: 0 <= j < k ==> !p(s[j])
    ensures FirstIndex(s, p) == k
  {
  }

  /** `s` without its element at index `i`: `filter((_, j) => j !== i)` for an index inside `s`. */
  function RemoveAt<T>(s: seq<T>, i: nat): (r: seq<T>)
    requires i < |s|
    ensures |r| == |s| - 1
    ensures forall j :: 0 <= j < i ==> r[j] == s[j]
    ensures forall j :: i <= j < |r| ==> r[j] == s[j + 1]
  {
    s[..i] + s[i + 1..]
  }

  /** `filter((_, j) => j !== i)` for any number `i`: an index outside `s` removes nothing. */
  function WithoutIndex<T>(s: seq<T>, i: int): (r: seq<T>)
    ensures 0 <= i < |s| ==> r == RemoveAt(s, i)
    ensures !(0 <= i < |s|) ==> r == s
  {
    if 0 <= i < |s| then RemoveAt(s, i) else s
  }

  /** `s` with `x` inserted before index `k`. */
  function InsertAt<T>(s: seq<T>, k: nat, x: T): (r: seq<T>)
    requires k <= |s|
    ensures |r| == |s| + 1 && r[k] == x
    ensures forall j :: 0 <= j < k ==> r[j] == s[j]
    ensures forall j :: k < j < |r| ==> r[j] == s[j - 1]
  {
    s[..k] + [x] + s[k..]
  }

  /** Removing what was just inserted gives the original back. */
  lemma RemoveInserted<T>(s: seq<T>, k: nat, x: T)
    requires k <= |s|
    ensures RemoveAt(InsertAt(s, k, x), k) == s
  {
    assert RemoveAt(InsertAt(s, k, x), k) == s[..k] + s[k..];
  }

  /** Taking an element out and putting it back anywhere keeps the multiset. */
  lemma InsertRemoveMultiset<T>(s: seq<T>, i: nat, k: nat)
    requires i < |s| && k < |s|
    ensures multiset(InsertAt(RemoveAt(s, i), k, s[i])) == multiset(s)
  {
    var rest := RemoveAt(s, i);
    assert s == s[..i] + [s[i]] + s[i + 1..];
    assert rest == s[..i] + s[i + 1..];
    assert rest == rest[..k] + rest[k..];
    assert InsertAt(rest, k, s[i]) == rest[..k] + [s[i]] + rest[k..];
    calc {
      multiset(InsertAt(rest, k, s[i]));
      multiset(rest[..k]) + multiset([s[i]]) + multiset(rest[k..]);
      multiset(rest) + multiset([s[i]]);
      multiset(s[..i]) + multiset(s[i + 1..]) + multiset([s[i]]);
      multiset(s);
    }
  }

  /** `[a[i], a[j]] = [a[j], a[i]]` on a copy. */
  function Swap<T>(s: seq<T>, i: nat, j: nat): (r: seq<T>)
    requires i < |s| && j < |s|
    ensures |r| == |s| && r[i] == s[j] && r[j] == s[i]
    ensures forall k :: 0 <= k < |s| && k != i && k != j ==> r[k] == s[k]
  {
    s[i := s[j]][j := s[i]]
  }

  /** A swap is a permutation and undoes itself. */
  lemma SwapTwice<T>(s: seq<T>, i: nat, j: nat)
    requires i < |s| && j < |s|
    ensures Swap(Swap(s, i, j), i, j) == s
    ensures multiset(Swap(s, i, j)) == multiset(s)
  {
    if i != j {
      assert s[i := s[j]] == s[..i] + [s[j]] + s[i + 1..];
    }
  }
}
