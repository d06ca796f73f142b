/** Inversions of a sequence of coordinates: what a swap of neighbours takes away. */
module Ordering {

  /** How many elements of `s` lie below `x`. */
  ghost function Below(x: real, s: seq<real>): nat {
    if s == [] then 0 else (if s[0] < x then 1 else 0) + Below(x, s[1..])
  }

  ghost function Inversions(s: seq<real>): nat {
    if s == [] then 0 else Below(s[0], s[1..]) + Inversions(s[1..])
  }

  ghost predicate Ascending(s: seq<real>) { forall i, j :: 0 <= i < j < |s| ==> s[i] <= s[j] }

  /** Neighbours in order make the whole sequence ascend. */
  lemma {:induction false} NeighboursAscend(s: seq<real>, n: nat)
    requires n <= |s| && forall i :: 0 <= i < n - 1 ==> s[i] <= s[i + 1]
    ensures Ascending(s[..n])
  {
    if 0 < n {
      NeighboursAscend(s, n - 1);
      forall i, j | 0 <= i < j < n ensures s[i] <= s[j] {
        if j == n - 1 && i < n - 2 { assert s[..n - 1][i] <= s[..n - 1][n - 2]; assert s[n - 2] <= s[n - 2 + 1]; }
        else if j == n - 1 { assert s[i] <= s[i + 1]; }
        else { assert s[..n - 1][i] <= s[..n - 1][j]; }
      }
    }
  }

  ghost function Swapped<T>(s: seq<T>, k: nat): seq<T>
    requires k + 1 < |s|
  {
    s[k := s[k + 1]][k + 1 := s[k]]
  }

  lemma {:induction false} BelowSwapped(x: real, s: seq<real>, k: nat)
    requires k + 1 < |s|
    ensures Below(x, Swapped(s, k)) == Below(x, s)
  {
    var t := Swapped(s, k);
    if k == 0 {
      assert t[1..][1..] == s[1..][1..];
    } else {
      assert t[1..] == Swapped(s[1..], k - 1);
      BelowSwapped(x, s[1..], k - 1);
    }
  }

  /** Swapping two neighbours that are out of order takes away one inversion. */
  lemma {:induction false} InversionsSwapped(s: seq<real>, k: nat)
    requires k + 1 < |s| && s[k + 1] < s[k]
    ensures Inversions(Swapped(s, k)) == Inversions(s) - 1
  {
    var t := Swapped(s, k);
    if k == 0 {
      assert t[1..][1..] == s[1..][1..];
      assert Below(s[0], s[1..]) == 1 + Below(s[0], s[1..][1..]);
      assert Below(t[0], t[1..]) == Below(s[1], s[1..][1..]);
    } else {
      assert t[1..] == Swapped(s[1..], k - 1);
      BelowSwapped(s[0], s[1..], k - 1);
      InversionsSwapped(s[1..], k - 1);
    }
  }

  lemma SwappedContents<T>(s: seq<T>, k: nat)
    requires k + 1 < |s|
    ensures multiset(Swapped(s, k)) == multiset(s)
  {
    var t := Swapped(s, k);
    assert s == s[..k] + [s[k], s[k + 1]] + s[k + 2..];
    assert t == s[..k] + [s[k + 1], s[k]] + s[k + 2..];
  }
}
