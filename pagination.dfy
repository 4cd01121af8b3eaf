/** Paging over ordered key ranges: the page size rule and the exclusive
    `start_after` bound shared by the registry's listing queries. */
module Pagination {
  import opened Wrappers
  import opened CosmStd
  import opened Seqs
  import opened LexOrder

  /** Page size used when a query gives no limit. */
  const DEFAULT_LIMIT: u32 := 10
  /** Largest page a query returns, whatever limit it asks for. */
  const MAX_LIMIT: u32 := 1000

  /** `limit.unwrap_or(DEFAULT_LIMIT).min(MAX_LIMIT)`: there is no lower clamp,
      so an explicit limit of 0 gives an empty page. */
  function EffectiveLimit(limit: Option<u32>): (n: nat)
    ensures n <= MAX_LIMIT
    ensures limit == None ==> n == DEFAULT_LIMIT
    ensures limit.Some? && limit.value <= MAX_LIMIT ==> n == limit.value
    ensures limit.Some? && limit.value > MAX_LIMIT ==> n == MAX_LIMIT
  {
    var l := limit.UnwrapOr(DEFAULT_LIMIT);
    if l < MAX_LIMIT then l else MAX_LIMIT
  }

  /** `k` lies beyond the exclusive lower bound `start` (no bound when absent). */
  predicate After(start: Option<string>, k: string) {
    start.None? || Less(start.value, k)
  }

  /** The keys an ascending range scan over `keys` yields from the exclusive
      bound `start`. */
  function Range(keys: set<string>, start: Option<string>): (r: seq<string>)
    ensures StrictlyAscending(r)
    ensures forall k :: k in r <==> k in keys && After(start, k)
  {
    var all := Ascending(keys);
    FilterAscending(all, k => After(start, k));
    Filter(all, k => After(start, k))
  }

  /** One page: the first `n` keys of the range after `start`. */
  function PageOf(keys: set<string>, start: Option<string>, n: nat): (r: seq<string>)
    ensures |r| <= n
    ensures StrictlyAscending(r)
    ensures forall k :: k in r ==> k in keys && After(start, k)
  {
    Take(Range(keys, start), n)
  }

  /** Taking a prefix of an ascending sequence leaves out only elements that
      come after everything taken, and only when the prefix is full. */
  lemma TakeMissesOnlyLater(xs: seq<string>, n: nat, x: string)
    requires StrictlyAscending(xs)
    requires x in xs && x !in Take(xs, n)
    ensures |Take(xs, n)| == n
    ensures n == 0 || Less(Take(xs, n)[n - 1], x)
  {
    var j :| 0 <= j < |xs| && xs[j] == x;
    assert j >= |Take(xs, n)|;
  }

  /** A page holds every key after `start` up to its last element: a key it
      does not hold lies beyond a full page. */
  lemma PageIsComplete(keys: set<string>, start: Option<string>, n: nat, k: string)
    requires k in keys && After(start, k)
    ensures var r := PageOf(keys, start, n);
      k in r || (|r| == n && (n == 0 || Less(r[n - 1], k)))
  {
    if k !in PageOf(keys, start, n) {
      TakeMissesOnlyLater(Range(keys, start), n, k);
    }
  }

  /** In an ascending sequence, the elements after position `n - 1` are
      exactly those above its element there. */
  lemma SuffixIsAbove(all: seq<string>, n: nat, k: string)
    requires StrictlyAscending(all) && 0 < n <= |all|
    ensures k in all[n..] <==> k in all && Less(all[n - 1], k)
  {
    if k in all && Less(all[n - 1], k) {
      var i :| 0 <= i < |all| && all[i] == k;
      if i < n - 1 {
        LessAsymmetric(all[i], all[n - 1]);
      } else if i == n - 1 {
        LessIrreflexive(k);
      }
      assert all[n..][i - n] == k;
    }
  }

  /** The keys after the last key of a full page are the keys that follow it. */
  lemma ResumedKeysFollowPage(keys: set<string>, start: Option<string>, n: nat, k: string)
    requires 0 < n <= |Range(keys, start)|
    ensures k in Range(keys, Some(Range(keys, start)[n - 1])) <==> k in Range(keys, start)[n..]
  {
    var all := Range(keys, start);
    var last := all[n - 1];
    assert last in all;
    assert After(start, last);
    SuffixIsAbove(all, n, k);
    if k in keys && Less(last, k) && start.Some? {
      LessTransitive(start.value, last, k);
    }
  }

  /** Resuming a scan after the last key of a full page yields exactly the
      keys that follow that page. */
  lemma RangeResumesAfterPage(keys: set<string>, start: Option<string>, n: nat)
    requires 0 < n <= |Range(keys, start)|
    ensures Range(keys, Some(Range(keys, start)[n - 1])) == Range(keys, start)[n..]
  {
    var all := Range(keys, start);
    var resumed := Range(keys, Some(all[n - 1]));
    forall k ensures k in resumed <==> k in all[n..] {
      ResumedKeysFollowPage(keys, start, n, k);
    }
    AscendingUnique(resumed, all[n..]);
  }

  /** Passing the last key of a full page as `start_after` continues the
      listing: the two pages together are the longer page. */
  lemma NextPageContinues(keys: set<string>, start: Option<string>, n: nat, m: nat)
    requires 0 < n && |PageOf(keys, start, n)| == n
    ensures var first := PageOf(keys, start, n);
      first + PageOf(keys, Some(first[n - 1]), m) == PageOf(keys, start, n + m)
  {
    var all := Range(keys, start);
    assert PageOf(keys, start, n) == all[..n];
    RangeResumesAfterPage(keys, start, n);
    assert PageOf(keys, Some(all[n - 1]), m) == Take(all[n..], m);
    TakeSplit(all, n, m);
  }
}
