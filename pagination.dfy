/** Pagination of the working table: a fixed page size, the number of pages
    as a ceiling division, and each page as the positional slice
    `iloc[start_idx:end_idx]`, which stops at the end of the table. */
module Pagination {

  const PageSize: nat := 5

  function Min(a: nat, b: nat): nat
  {
    if a <= b then a else b
  }

  /** `n // page_size` plus one more page when a remainder is left over. */
  function TotalPages(n: nat): (t: nat)
    ensures t * PageSize >= n
    ensures n > 0 ==> (t - 1) * PageSize < n
    ensures t == 0 <==> n == 0
  {
    n / PageSize + (if n % PageSize != 0 then 1 else 0)
  }

  /** `start_idx` for 1-based page `p`: page p starts on a page boundary,
      right after the p - 1 full pages before it. */
  function StartIdx(p: nat): (s: nat)
    requires p >= 1
    ensures s % PageSize == 0 && s / PageSize == p - 1
  {
    (p - 1) * PageSize
  }

  /** `end_idx`: one page past `start_idx` (exclusive), which is where the
      next page starts, so consecutive pages neither overlap nor leave a gap. */
  function EndIdx(p: nat): (e: nat)
    requires p >= 1
    ensures e - StartIdx(p) == PageSize
    ensures e == StartIdx(p + 1)
  {
    StartIdx(p) + PageSize
  }

  /** The positions `iloc[lo:hi]` selects in a table of `n` rows, in order:
      lo up to hi, cut off at the end of the table. */
  function SliceIndices(n: nat, lo: nat, hi: nat): (r: seq<nat>)
    ensures |r| == if lo <= hi && lo <= n then Min(hi, n) - lo else 0
    ensures forall k :: 0 <= k < |r| ==> r[k] == lo + k && r[k] < n
  {
    var a := Min(lo, n);
    var b := Min(hi, n);
    if a <= b then seq(b - a, k requires 0 <= k < b - a => a + k) else []
  }

  /** The positions of page p: `iloc[start_idx:end_idx]`. A page in
      `[1, TotalPages(n)]` is never empty and never longer than a page; a
      page past the last is empty. */
  function PageIndices(n: nat, p: nat): (r: seq<nat>)
    requires p >= 1
    ensures |r| <= PageSize
    ensures forall k :: 0 <= k < |r| ==> r[k] == StartIdx(p) + k && r[k] < n
    ensures p <= TotalPages(n) ==> |r| == Min(EndIdx(p), n) - StartIdx(p) > 0
    ensures p > TotalPages(n) ==> r == []
  {
    SliceIndices(n, StartIdx(p), EndIdx(p))
  }

  /** The rows `iloc[StartIdx(p):EndIdx(p)]` selects: those at PageIndices. */
  function PageRows<T>(s: seq<T>, p: nat): (r: seq<T>)
    requires p >= 1
    ensures |r| == |PageIndices(|s|, p)|
    ensures forall k :: 0 <= k < |r| ==> r[k] == s[PageIndices(|s|, p)[k]]
  {
    s[Min(StartIdx(p), |s|)..Min(EndIdx(p), |s|)]
  }

  /** Row position `i` of a table of `n` rows is shown on page `p`. */
  predicate OnPage(n: nat, p: nat, i: nat)
    requires p >= 1
  {
    StartIdx(p) <= i < Min(EndIdx(p), n)
  }

  lemma OnPageIffListed(n: nat, p: nat, i: nat)
    requires p >= 1
    ensures OnPage(n, p, i) <==> i in PageIndices(n, p)
  {
    var r := PageIndices(n, p);
    if OnPage(n, p, i) {
      assert r[i - StartIdx(p)] == i;
    }
  }

  /** The positions of pages 1 to k, concatenated in page order. */
  function PagesUpTo(n: nat, k: nat): seq<nat>
  {
    if k == 0 then [] else PagesUpTo(n, k - 1) + PageIndices(n, k)
  }

  /** The rows of pages 1 to k, concatenated in page order. */
  function PageRowsUpTo<T>(s: seq<T>, k: nat): seq<T>
  {
    if k == 0 then [] else PageRowsUpTo(s, k - 1) + PageRows(s, k)
  }

  /** Pages 1 to k together hold exactly positions 0 up to the end of page
      k, in order. */
  lemma {:induction false} PagesUpToPrefix(n: nat, k: nat)
    requires k <= TotalPages(n)
    ensures var all := PagesUpTo(n, k);
      |all| == Min(k * PageSize, n) && forall j :: 0 <= j < |all| ==> all[j] == j
  {
    if k > 0 {
      PagesUpToPrefix(n, k - 1);
      var page := PageIndices(n, k);
      assert StartIdx(k) == (k - 1) * PageSize == Min((k - 1) * PageSize, n);
      var all := PagesUpTo(n, k);
      forall j | 0 <= j < |all| ensures all[j] == j {
        if j >= |PagesUpTo(n, k - 1)| {
          assert all[j] == page[j - StartIdx(k)];
        }
      }
    }
  }

  /** Pages 1 to TotalPages(n), concatenated, list every row position of the
      table exactly once, in the table's order. */
  lemma PagesPartitionTable(n: nat)
    ensures var all := PagesUpTo(n, TotalPages(n));
      |all| == n && forall j :: 0 <= j < n ==> all[j] == j
  {
    PagesUpToPrefix(n, TotalPages(n));
  }

  /** Pages 1 to k together hold the table's rows up to the end of page k. */
  lemma {:induction false} PageRowsUpToPrefix<T>(s: seq<T>, k: nat)
    requires k <= TotalPages(|s|)
    ensures PageRowsUpTo(s, k) == s[..Min(k * PageSize, |s|)]
  {
    if k > 0 {
      PageRowsUpToPrefix(s, k - 1);
      assert StartIdx(k) == Min((k - 1) * PageSize, |s|);
      assert s[..Min(k * PageSize, |s|)]
          == s[..Min((k - 1) * PageSize, |s|)] + s[StartIdx(k)..Min(EndIdx(k), |s|)];
    }
  }

  /** Showing every page in turn shows the whole table, each row once and in
      its original order. */
  lemma PagesReassembleTable<T>(s: seq<T>)
    ensures PageRowsUpTo(s, TotalPages(|s|)) == s
  {
    PageRowsUpToPrefix(s, TotalPages(|s|));
    assert s[..|s|] == s;
  }
}
