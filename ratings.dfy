/** Ratings: the five metrics, the three-way radio that rates each of them,
    the cell writes for the rows of one page, and the entry number shown in
    each row's heading. */
module Ratings {
  import opened Tables
  import opened Pagination

  /** The annotation columns, in the order they are added and rated. */
  const Metrics: seq<string> := ["Prosociality", "Engaged", "Respect", "Coherency", "Overall"]

  /** The five metric names are pairwise different. */
  lemma MetricsDistinct()
    ensures forall j, k :: 0 <= j < k < |Metrics| ==> Metrics[j] != Metrics[k]
  {
  }

  /** The radio's options, in display order. */
  const RadioOptions: seq<string> := ["Option A wins", "Tie", "Option B wins"]

  /** The radio's `index=1`: the option selected until the user picks one. */
  const DefaultIndex: nat := 1

  /** An option the user has picked on a radio. */
  datatype Choice = OptionAWins | Tie | OptionBWins {
    function Index(): (k: nat)
      ensures k < |RadioOptions|
    {
      match this
      case OptionAWins => 0
      case Tie => 1
      case OptionBWins => 2
    }
  }

  /** The decimal digits of `n`, as Python's `str` writes a non-negative int. */
  function Decimal(n: nat): (s: string)
    ensures |s| >= 1 && (n >= 10 <==> |s| >= 2)
    ensures forall k :: 0 <= k < |s| ==> '0' <= s[k] <= '9'
  {
    var d := ((n % 10) + '0' as int) as char;
    if n < 10 then [d] else Decimal(n / 10) + [d]
  }

  /** Different numbers have different decimal strings. */
  lemma {:induction false} DecimalInjective(a: nat, b: nat)
    requires Decimal(a) == Decimal(b)
    ensures a == b
  {
    var s := Decimal(a);
    assert s[|s| - 1] == Decimal(b)[|s| - 1];
    assert a % 10 == b % 10;
    if a >= 10 {
      assert Decimal(a / 10) == s[..|s| - 1] == Decimal(b / 10);
      DecimalInjective(a / 10, b / 10);
    }
  }

  /** The radio's widget key `f"{metric}_{i}"`: it splits back into the
      metric name, the separator and the row label's decimal text. */
  function WidgetKey(metric: string, i: nat): (k: string)
    ensures |k| == |metric| + 1 + |Decimal(i)|
    ensures k[..|metric|] == metric && k[|metric|] == '_' && k[|metric| + 1..] == Decimal(i)
  {
    metric + "_" + Decimal(i)
  }

  /** No metric name contains `_`, so every radio of every row has a key of
      its own: two keys are equal exactly when both metric and row are. */
  lemma WidgetKeysDistinct(m1: string, i1: nat, m2: string, i2: nat)
    requires m1 in Metrics && m2 in Metrics
    ensures WidgetKey(m1, i1) == WidgetKey(m2, i2) <==> m1 == m2 && i1 == i2
  {
    var k1, k2 := WidgetKey(m1, i1), WidgetKey(m2, i2);
    if k1 == k2 {
      assert k1[|m1|] == '_' && k2[|m2|] == '_';
      assert forall m, j :: m in Metrics && 0 <= j < |m| ==> m[j] != '_';
      assert |m1| == |m2|;
      assert m1 == k1[..|m1|] == m2;
      assert Decimal(i1) == k1[|m1| + 1..] == Decimal(i2);
      DecimalInjective(i1, i2);
    }
  }

  /** The radios' widget state: the option picked on each radio the user has
      touched, by metric and row label. By `WidgetKeysDistinct` this is the
      same as keying it by the radio's widget key. */
  type Widgets = map<(string, nat), Choice>

  /** The pick stored under the radio for `metric` on row label i, if any. */
  function Picked(w: Widgets, metric: string, i: nat): (r: Option<Choice>)
    ensures r.Some? <==> (metric, i) in w
    ensures r.Some? ==> r.value == w[(metric, i)]
  {
    if (metric, i) in w then Some(w[(metric, i)]) else None
  }

  /** The pick a stored cell text stands for, if it is one of the options. */
  function ChoiceOf(text: string): (r: Option<Choice>)
    ensures r.Some? <==> text in RadioOptions
    ensures r.Some? ==> RadioOptions[r.value.Index()] == text
  {
    if text == RadioOptions[0] then Some(OptionAWins)
    else if text == RadioOptions[1] then Some(Tie)
    else if text == RadioOptions[2] then Some(OptionBWins)
    else None
  }

  /** The value `st.radio(metric, RadioOptions, index=1)` returns: the label
      of the user's pick, or the default "Tie" when there is none. The label
      always is one of the three options, and it gives back the pick. */
  function Radio(picked: Option<Choice>): (v: string)
    ensures v in RadioOptions
    ensures picked == None ==> v == "Tie"
    ensures picked.Some? ==> ChoiceOf(v) == picked
  {
    RadioOptions[if picked.Some? then picked.value.Index() else DefaultIndex]
  }

  predicate HasMetricColumns(f: Frame)
  {
    forall m :: m in Metrics ==> m in f.columns
  }

  /** The column step over the five metrics: each one missing from the table
      is appended, unset in every row; the table then has all five. */
  function WithMetricColumns(f: Frame): (r: Frame)
    requires WellFormed(f)
    ensures WellFormed(r) && HasMetricColumns(r) && |r.rows| == |f.rows|
  {
    AddColumnsProperties(f, Metrics);
    assert forall m :: m in Metrics ==> m in ColumnSet(AddColumns(f, Metrics));
    AddColumns(f, Metrics)
  }

  /** `.at[i, metric] = value`: one cell of the row at position i. */
  function SetCell(f: Frame, i: nat, metric: string, value: Cell): (r: Frame)
    requires i < |f.rows|
    ensures r.columns == f.columns && |r.rows| == |f.rows|
    ensures r.rows[i] == f.rows[i][metric := value]
    ensures forall j :: 0 <= j < |f.rows| && j != i ==> r.rows[j] == f.rows[j]
  {
    Frame(f.columns, f.rows[i := f.rows[i][metric := value]])
  }

  /** The five radio writes for row label i, in source order. They keep the
      row's columns and add the metric columns; what the cells then hold is
      stated by `RateRowMetricCells` and `RateRowOtherCells`. */
  function RateRow(row: Row, i: nat, w: Widgets): (r: Row)
    ensures r.Keys == row.Keys + (set m | m in Metrics)
  {
    row[Metrics[0] := Some(Radio(Picked(w, Metrics[0], i)))]
       [Metrics[1] := Some(Radio(Picked(w, Metrics[1], i)))]
       [Metrics[2] := Some(Radio(Picked(w, Metrics[2], i)))]
       [Metrics[3] := Some(Radio(Picked(w, Metrics[3], i)))]
       [Metrics[4] := Some(Radio(Picked(w, Metrics[4], i)))]
  }

  /** After the five writes each metric cell holds its radio's label. */
  lemma RateRowMetricCells(row: Row, i: nat, w: Widgets)
    ensures forall m :: m in Metrics ==> RateRow(row, i, w)[m] == Some(Radio(Picked(w, m, i)))
  {
    MetricsDistinct();
  }

  /** The five writes keep every cell outside the metric columns. */
  lemma RateRowOtherCells(row: Row, i: nat, w: Widgets)
    ensures forall c :: c in row && c !in Metrics ==> RateRow(row, i, w)[c] == row[c]
  {
  }

  /** The table once the rows at positions lo up to hi have been rated. */
  function RateRange(f: Frame, lo: nat, hi: nat, w: Widgets): (r: Frame)
    ensures r.columns == f.columns && |r.rows| == |f.rows|
    ensures forall i :: 0 <= i < |f.rows| ==>
      r.rows[i] == if lo <= i < hi then RateRow(f.rows[i], i, w) else f.rows[i]
    ensures WellFormed(f) && HasMetricColumns(f) ==> WellFormed(r)
  {
    Frame(f.columns, seq(|f.rows|, i requires 0 <= i < |f.rows| =>
      if lo <= i < hi then RateRow(f.rows[i], i, w) else f.rows[i]))
  }

  /** Rating a row of a table that has the metric columns keeps the table
      rectangular. */
  lemma RateRowKeepsShape(f: Frame, i: nat, w: Widgets)
    requires WellFormed(f) && HasMetricColumns(f) && i < |f.rows|
    ensures WellFormed(Frame(f.columns, f.rows[i := RateRow(f.rows[i], i, w)]))
  {
    assert (set m | m in Metrics) <= ColumnSet(f);
  }

  /** Rating one more row extends the rated range by that row. */
  lemma RateRangeStep(f: Frame, lo: nat, hi: nat, w: Widgets)
    requires lo <= hi < |f.rows|
    ensures RateRange(f, lo, hi + 1, w)
         == Frame(f.columns, RateRange(f, lo, hi, w).rows[hi := RateRow(f.rows[hi], hi, w)])
  {
    assert RateRange(f, lo, hi + 1, w).rows == RateRange(f, lo, hi, w).rows[hi := RateRow(f.rows[hi], hi, w)];
  }

  /** The table once every row of page p has been rated. Only the five
      metric cells of the page's rows are written, each with one of the three
      labels; every other cell of every row, the columns and the number and
      order of the rows are as before. */
  function RatePage(f: Frame, p: nat, w: Widgets): (r: Frame)
    requires p >= 1
    ensures r.columns == f.columns && |r.rows| == |f.rows|
    ensures forall i, m :: 0 <= i < |f.rows| && OnPage(|f.rows|, p, i) && m in Metrics ==>
      m in r.rows[i] && r.rows[i][m] == Some(Radio(Picked(w, m, i))) && r.rows[i][m].value in RadioOptions
    ensures forall i, c :: 0 <= i < |f.rows| && c in f.rows[i] && !(OnPage(|f.rows|, p, i) && c in Metrics) ==>
      c in r.rows[i] && r.rows[i][c] == f.rows[i][c]
    ensures WellFormed(f) && HasMetricColumns(f) ==> WellFormed(r)
  {
    RateRange(f, StartIdx(p), Min(EndIdx(p), |f.rows|), w)
  }

  /** With no radio touched, every metric of every row on the page reads
      "Tie" afterwards, whatever it held before. */
  lemma UntouchedPageIsAllTie(f: Frame, p: nat, i: nat, m: string)
    requires p >= 1 && i < |f.rows| && OnPage(|f.rows|, p, i) && m in Metrics
    ensures RatePage(f, p, map[]).rows[i][m] == Some("Tie")
  {
  }

  /** Two rows that have the same columns outside the metric columns, with
      the same cells there, are the same once rated. */
  lemma RowsAgree(a: Row, b: Row, i: nat, w: Widgets)
    requires a.Keys + (set m | m in Metrics) == b.Keys + (set m | m in Metrics)
    requires forall c :: c in a && c !in Metrics ==> a[c] == b[c]
    ensures RateRow(a, i, w) == RateRow(b, i, w)
  {
    RateRowMetricCells(a, i, w);
    RateRowMetricCells(b, i, w);
    RateRowOtherCells(a, i, w);
    RateRowOtherCells(b, i, w);
  }

  /** Rating a row again overrides its earlier rating. */
  lemma RateRowLastWriteWins(row: Row, i: nat, w1: Widgets, w2: Widgets)
    ensures RateRow(RateRow(row, i, w1), i, w2) == RateRow(row, i, w2)
  {
    RateRowOtherCells(row, i, w1);
    RowsAgree(RateRow(row, i, w1), row, i, w2);
  }

  /** Rating a page again overrides the earlier ratings of that page: the
      last widget state wins, and earlier picks leave no trace. */
  lemma RatePageLastWriteWins(f: Frame, p: nat, w1: Widgets, w2: Widgets)
    requires p >= 1
    ensures RatePage(RatePage(f, p, w1), p, w2) == RatePage(f, p, w2)
  {
    var n := |f.rows|;
    var g := RatePage(f, p, w1);
    var a := RatePage(g, p, w2);
    var b := RatePage(f, p, w2);
    forall i | 0 <= i < n ensures a.rows[i] == b.rows[i] {
      if OnPage(n, p, i) {
        RateRowLastWriteWins(f.rows[i], i, w1, w2);
      }
    }
    assert a.rows == b.rows;
  }

  /** Rating a page twice with the same widget state equals rating it once. */
  lemma RatePageIdempotent(f: Frame, p: nat, w: Widgets)
    requires p >= 1
    ensures RatePage(RatePage(f, p, w), p, w) == RatePage(f, p, w)
  {
    RatePageLastWriteWins(f, p, w, w);
  }

  /** The number in the heading "Entry {i+1+start_idx}", where i is the
      row's index label, already absolute. */
  function EntryLabel(i: nat, startIdx: nat): (r: nat)
    ensures r == IntendedEntryLabel(i) + startIdx
    ensures startIdx > 0 ==> r > IntendedEntryLabel(i)
  {
    i + 1 + startIdx
  }

  /** The headings of page p, as written. */
  function PageEntryLabels(n: nat, p: nat): (r: seq<nat>)
    requires p >= 1
    ensures |r| == |PageIndices(n, p)|
  {
    var idx := PageIndices(n, p);
    seq(|idx|, k requires 0 <= k < |idx| => EntryLabel(idx[k], StartIdx(p)))
  }

  /** As written, a heading on page p exceeds its row's 1-based position by
      StartIdx(p): from page 2 on, the page offset is counted twice. */
  lemma EntryLabelCountsOffsetTwice(n: nat, p: nat, k: nat)
    requires p >= 1 && k < |PageIndices(n, p)|
    ensures PageEntryLabels(n, p)[k] == IntendedEntryLabel(PageIndices(n, p)[k]) + StartIdx(p)
    ensures p >= 2 ==> PageEntryLabels(n, p)[k] > IntendedEntryLabel(PageIndices(n, p)[k])
  {
  }

  /** A six-row table: its sixth row is alone on page 2 and is headed
      "Entry 11". */
  lemma EntryLabelExceedsRowCount()
    ensures TotalPages(6) == 2
    ensures PageIndices(6, 2) == [5]
    ensures PageEntryLabels(6, 2) == [11]
  {
    assert PageIndices(6, 2)[0] == 5;
  }

  /** The heading number a row is meant to show: its 1-based position. */
  function IntendedEntryLabel(i: nat): nat
  {
    i + 1
  }

  /** The headings of page p with the intended numbering. */
  function IntendedPageEntryLabels(n: nat, p: nat): (r: seq<nat>)
    requires p >= 1
    ensures |r| == |PageIndices(n, p)|
  {
    var idx := PageIndices(n, p);
    seq(|idx|, k requires 0 <= k < |idx| => IntendedEntryLabel(idx[k]))
  }

  function IntendedEntryLabelsUpTo(n: nat, k: nat): seq<nat>
  {
    if k == 0 then [] else IntendedEntryLabelsUpTo(n, k - 1) + IntendedPageEntryLabels(n, k)
  }

  /** With the intended numbering, paging through the whole table shows the
      headings 1, 2, ..., n, in that order, each once. */
  lemma {:induction false} IntendedEntryLabelsNumberTable(n: nat, k: nat)
    requires k <= TotalPages(n)
    ensures var all := IntendedEntryLabelsUpTo(n, k);
      |all| == |PagesUpTo(n, k)| && forall j :: 0 <= j < |all| ==> all[j] == j + 1
  {
    PagesUpToPrefix(n, k);
    if k > 0 {
      IntendedEntryLabelsNumberTable(n, k - 1);
      var before := IntendedEntryLabelsUpTo(n, k - 1);
      var page := IntendedPageEntryLabels(n, k);
      var all := IntendedEntryLabelsUpTo(n, k);
      PagesUpToPrefix(n, k - 1);
      assert |before| == StartIdx(k);
      forall j | 0 <= j < |all| ensures all[j] == j + 1 {
        if j >= |before| {
          assert all[j] == page[j - |before|];
        }
      }
    }
  }
}
