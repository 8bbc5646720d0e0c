/** `leaderboard`: every account, richest first, where wealth is bank plus cash (debt is
    not subtracted). The source bubble-sorts ascending and then reverses the list. */
module Leaderboard {
  import Ledger

  /** One document of the economy collection. */
  datatype Entry = Entry(user: Ledger.UserId, account: Ledger.Account)

  /** The balance the leaderboard ranks by and shows. */
  function Worth(e: Entry): int {
    e.account.bank + e.account.cash
  }

  predicate Ascending(s: seq<Entry>) {
    forall i, j :: 0 <= i < j < |s| ==> Worth(s[i]) <= Worth(s[j])
  }

  predicate Descending(s: seq<Entry>) {
    forall i, j :: 0 <= i < j < |s| ==> Worth(s[i]) >= Worth(s[j])
  }

  /** `s[j], s[j+1] = s[j+1], s[j]` */
  function Swap(s: seq<Entry>, j: nat): (r: seq<Entry>)
    requires j + 1 < |s|
    ensures |r| == |s| && r[j] == s[j + 1] && r[j + 1] == s[j]
    ensures forall k :: 0 <= k < |s| && k != j && k != j + 1 ==> r[k] == s[k]
    ensures multiset(r) == multiset(s)
  {
    s[j := s[j + 1]][j + 1 := s[j]]
  }

  /** `list.reverse()` */
  function Reverse(s: seq<Entry>): (r: seq<Entry>)
    ensures |r| == |s|
    ensures forall i :: 0 <= i < |s| ==> r[i] == s[|s| - 1 - i]
    ensures multiset(r) == multiset(s)
  {
    if s == [] then []
    else
      var r := Reverse(s[1..]) + [s[0]];
      assert s == [s[0]] + s[1..];
      r
  }

  /** Reversing an ascending list gives a descending one. */
  lemma ReverseOfAscending(s: seq<Entry>)
    requires Ascending(s)
    ensures Descending(Reverse(s))
  {
    var r := Reverse(s);
    forall i, j | 0 <= i < j < |r|
      ensures Worth(r[i]) >= Worth(r[j])
    {
      assert r[i] == s[|s| - 1 - i] && r[j] == s[|s| - 1 - j];
    }
  }

  /** The nested loops of the source: pass `i` carries the largest of the first `n - i`
      entries to position `n - 1 - i`, swapping neighbours only when the left one is
      strictly richer. */
  method BubbleSort(data: seq<Entry>) returns (s: seq<Entry>)
    ensures multiset(s) == multiset(data)
    ensures Ascending(s)
  {
    s := data;
    var n := |s|;
    for i := 0 to n
      invariant |s| == n && multiset(s) == multiset(data)
      invariant forall a, b :: n - i <= a < b < n ==> Worth(s[a]) <= Worth(s[b])
      invariant forall a, b :: 0 <= a < n - i <= b < n ==> Worth(s[a]) <= Worth(s[b])
    {
      for j := 0 to n - 1 - i
        invariant |s| == n && multiset(s) == multiset(data)
        invariant forall a, b :: n - i <= a < b < n ==> Worth(s[a]) <= Worth(s[b])
        invariant forall a, b :: 0 <= a < n - i <= b < n ==> Worth(s[a]) <= Worth(s[b])
        invariant forall k :: 0 <= k <= j ==> Worth(s[k]) <= Worth(s[j])
      {
        if Worth(s[j]) > Worth(s[j + 1]) {
          s := Swap(s, j);
        }
      }
    }
  }

  /** The ranking the command displays: every document once, richest first. */
  method Rank(data: seq<Entry>) returns (ranked: seq<Entry>)
    ensures multiset(ranked) == multiset(data)
    ensures Descending(ranked)
  {
    var sorted := BubbleSort(data);
    ranked := Reverse(sorted);
    ReverseOfAscending(sorted);
  }

  /** Whoever is ranked first is at least as rich as every account in the collection. */
  lemma RankedFirstIsRichest(data: seq<Entry>, ranked: seq<Entry>)
    requires multiset(ranked) == multiset(data) && Descending(ranked) && ranked != []
    ensures forall e :: e in data ==> Worth(ranked[0]) >= Worth(e)
  {
    forall e | e in data
      ensures Worth(ranked[0]) >= Worth(e)
    {
      assert e in multiset(data);
      assert e in multiset(ranked);
      var k :| 0 <= k < |ranked| && ranked[k] == e;
    }
  }
}
