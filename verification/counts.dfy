/** Sparse message counts keyed by a Discord id string: the `defaultdict(lambda: 0)`
    caches of the metrics cog and the `author_counts` / `channel_counts` documents read
    back from the database. A Python dict keeps its keys in insertion order, so it is
    modelled as a sequence of (key, count) pairs whose keys are distinct. */
module Counts {
  import opened Outcomes

  type Counts = seq<(string, int)>

  predicate HasKey(d: Counts, k: string) {
    exists i :: 0 <= i < |d| && d[i].0 == k
  }

  predicate KeysUnique(d: Counts) {
    forall i, j :: 0 <= i < j < |d| ==> d[i].0 != d[j].0
  }

  /** Every stored count is at least one: a key only appears once it has been counted. */
  predicate AllPositive(d: Counts) {
    forall i :: 0 <= i < |d| ==> d[i].1 > 0
  }

  /** `d[k]` on a plain dict: the stored count, or nothing when `k` is not a key. */
  function Get(d: Counts, k: string): (r: Option<int>)
    ensures r.Some? <==> HasKey(d, k)
  {
    if d == [] then None
    else if d[0].0 == k then Some(d[0].1)
    else
      var r := Get(d[1..], k);
      assert forall i :: 1 <= i < |d| ==> d[i] == d[1..][i - 1];
      r
  }

  /** What a look-up returns is a stored pair, and with distinct keys it is the pair stored
      under that key. */
  lemma {:induction false} GetFinds(d: Counts, k: string)
    ensures Get(d, k).Some? ==> exists i :: 0 <= i < |d| && d[i] == (k, Get(d, k).value)
    ensures KeysUnique(d) ==> forall i :: 0 <= i < |d| && d[i].0 == k ==> Get(d, k) == Some(d[i].1)
  {
    if d != [] && d[0].0 != k {
      GetFinds(d[1..], k);
      assert forall i :: 1 <= i < |d| ==> d[i] == d[1..][i - 1];
      if Get(d, k).Some? {
        var i :| 0 <= i < |d[1..]| && d[1..][i] == (k, Get(d, k).value);
        assert d[i + 1] == d[1..][i];
      }
    }
  }

  /** `sum(d.values())` */
  function Sum(d: Counts): int {
    if d == [] then 0 else d[0].1 + Sum(d[1..])
  }

  /** `d[k] += 1` on a `defaultdict(lambda: 0)`: an absent key is appended with count 1. */
  function Bump(d: Counts, k: string): (r: Counts)
    ensures Get(r, k) == Some(Get(d, k).GetOr(0) + 1)
    ensures forall k' :: k' != k ==> Get(r, k') == Get(d, k')
    ensures Sum(r) == Sum(d) + 1
    ensures |r| > 0
  {
    if d == [] then [(k, 1)]
    else if d[0].0 == k then
      var r := [(k, d[0].1 + 1)] + d[1..];
      assert r[1..] == d[1..];
      r
    else
      var rest := Bump(d[1..], k);
      var r := [d[0]] + rest;
      assert r[1..] == rest;
      r
  }

  /** Bumping keeps the keys distinct and the counts positive. */
  lemma BumpKeepsShape(d: Counts, k: string)
    requires KeysUnique(d) && AllPositive(d)
    ensures KeysUnique(Bump(d, k)) && AllPositive(Bump(d, k))
  {
    BumpKeepsUnique(d, k);
    BumpKeepsPositive(d, k);
  }

  lemma {:induction false} BumpKeepsUnique(d: Counts, k: string)
    requires KeysUnique(d)
    ensures KeysUnique(Bump(d, k))
  {
    if d == [] {
    } else if d[0].0 == k {
      var r := Bump(d, k);
      assert r == [(k, d[0].1 + 1)] + d[1..];
      assert forall i :: 0 <= i < |r| ==> r[i].0 == d[i].0;
    } else {
      var rest := Bump(d[1..], k);
      var r := Bump(d, k);
      BumpKeepsUnique(d[1..], k);
      assert r == [d[0]] + rest;
      assert !HasKey(rest, d[0].0) by {
        forall i | 0 <= i < |d[1..]|
          ensures d[1..][i].0 != d[0].0
        {
          assert d[1..][i] == d[i + 1];
        }
        assert Get(rest, d[0].0) == Get(d[1..], d[0].0);
      }
      forall i, j | 0 <= i < j < |r|
        ensures r[i].0 != r[j].0
      {
        assert r[j] == rest[j - 1];
        if i > 0 {
          assert r[i] == rest[i - 1];
        }
      }
    }
  }

  lemma {:induction false} BumpKeepsPositive(d: Counts, k: string)
    requires AllPositive(d)
    ensures AllPositive(Bump(d, k))
  {
    if d == [] {
    } else if d[0].0 == k {
      var r := Bump(d, k);
      assert r == [(k, d[0].1 + 1)] + d[1..];
      assert forall i :: 1 <= i < |r| ==> r[i] == d[i];
    } else {
      var rest := Bump(d[1..], k);
      var r := Bump(d, k);
      BumpKeepsPositive(d[1..], k);
      assert r == [d[0]] + rest;
      assert forall i :: 1 <= i < |r| ==> r[i] == rest[i - 1];
    }
  }

  /** Under positive counts the total is zero exactly when there are no keys. */
  lemma {:induction false} SumPositive(d: Counts)
    requires AllPositive(d)
    ensures Sum(d) >= |d|
    ensures Sum(d) == 0 <==> d == []
  {
    if d != [] {
      SumPositive(d[1..]);
    }
  }

  /** For non-negative counts no single count exceeds the total. */
  lemma {:induction false} GetAtMostSum(d: Counts, k: string)
    requires forall i :: 0 <= i < |d| ==> d[i].1 >= 0
    requires HasKey(d, k)
    ensures Get(d, k).value <= Sum(d)
  {
    if d[0].0 != k {
      assert HasKey(d[1..], k) by {
        var i :| 0 <= i < |d| && d[i].0 == k;
        assert d[1..][i - 1].0 == k;
      }
      GetAtMostSum(d[1..], k);
      SumNonNegative(d[1..]);
    } else {
      SumNonNegative(d[1..]);
    }
  }

  lemma {:induction false} SumNonNegative(d: Counts)
    requires forall i :: 0 <= i < |d| ==> d[i].1 >= 0
    ensures Sum(d) >= 0
  {
    if d != [] {
      SumNonNegative(d[1..]);
    }
  }
}
