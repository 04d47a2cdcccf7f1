/** The annotation session: the working table kept in the session state
    across reruns of the script, and what one rerun does to it. */
module AnnotationSession {
  import opened Tables
  import opened Pagination
  import opened Ratings

  /** The uploaded workbook as read with `sheet_name=None`: sheet name to
      table. */
  type Workbook = map<string, Frame>

  predicate WellFormedWorkbook(wb: Workbook)
  {
    forall name :: name in wb ==> WellFormed(wb[name])
  }

  /** The table a rerun works on: the one already in the session slot, or
      else the selected sheet. */
  function WorkingTable(slot: Option<Frame>, sheet: Frame): Frame
  {
    if slot.Some? then slot.value else sheet
  }

  /** What one rerun leaves in the session slot: the working table, with
      the metric columns ensured, with page `page` rated from widgets `w`. */
  function Run(slot: Option<Frame>, sheet: Frame, page: nat, w: Widgets): (r: Frame)
    requires page >= 1 && WellFormed(WorkingTable(slot, sheet))
    ensures WellFormed(r) && HasMetricColumns(r)
    ensures |r.rows| == |WorkingTable(slot, sheet).rows|
  {
    RatePage(WithMetricColumns(WorkingTable(slot, sheet)), page, w)
  }

  /** The inputs of one rerun: the selected sheet, the page number and the
      radios' widget state. */
  datatype RunInput = RunInput(sheet: Frame, page: nat, widgets: Widgets)

  predicate ValidRuns(runs: seq<RunInput>)
  {
    forall k :: 0 <= k < |runs| ==> runs[k].page >= 1 && WellFormed(runs[k].sheet)
  }

  /** The session slot after the reruns `runs`, in order. */
  function RunAll(slot: Option<Frame>, runs: seq<RunInput>): (r: Option<Frame>)
    requires slot.Some? ==> WellFormed(slot.value)
    requires ValidRuns(runs)
    ensures runs == [] ==> r == slot
    ensures runs != [] ==> r.Some? && WellFormed(r.value)
    decreases |runs|
  {
    if runs == [] then slot
    else RunAll(Some(Run(slot, runs[0].sheet, runs[0].page, runs[0].widgets)), runs[1..])
  }

  /** `t` is a working copy of sheet `s`: same rows in the same order, the
      sheet's columns first, no columns but the sheet's and the metric
      columns, every cell outside the metric columns as the sheet has it,
      and all metric columns present. */
  ghost predicate CopyOf(s: Frame, t: Frame)
  {
    && WellFormed(s) && WellFormed(t) && HasMetricColumns(t)
    && |t.rows| == |s.rows|
    && |t.columns| >= |s.columns| && t.columns[..|s.columns|] == s.columns
    && ColumnSet(t) == ColumnSet(s) + (set m | m in Metrics)
    && (forall i, c :: 0 <= i < |s.rows| && c in s.rows[i] && c !in Metrics ==>
          c in t.rows[i] && t.rows[i][c] == s.rows[i][c])
  }

  /** A rerun on a session that already holds a copy of `s` keeps it a copy
      of `s`, whichever sheet is selected. */
  lemma RunKeepsCopy(s: Frame, t: Frame, sheet: Frame, page: nat, w: Widgets)
    requires CopyOf(s, t) && page >= 1
    ensures CopyOf(s, Run(Some(t), sheet, page, w))
  {
    AddColumnsPresent(t, Metrics);
    assert WithMetricColumns(t) == t;
    var r := RatePage(t, page, w);
    assert r == Run(Some(t), sheet, page, w);
    assert ColumnSet(r) == ColumnSet(t);
    forall i, c | 0 <= i < |s.rows| && c in s.rows[i] && c !in Metrics
      ensures c in r.rows[i] && r.rows[i][c] == s.rows[i][c]
    {
      assert c in t.rows[i] && t.rows[i][c] == r.rows[i][c];
    }
  }

  /** The first rerun copies the selected sheet. */
  lemma FirstRunCopiesSheet(s: Frame, page: nat, w: Widgets)
    requires WellFormed(s) && page >= 1
    ensures CopyOf(s, Run(None, s, page, w))
  {
    var a := WithMetricColumns(s);
    AddColumnsProperties(s, Metrics);
    var r := Run(None, s, page, w);
    assert r.columns == a.columns;
  }

  lemma {:induction false} RunAllKeepsCopy(s: Frame, t: Frame, runs: seq<RunInput>)
    requires CopyOf(s, t) && ValidRuns(runs)
    ensures RunAll(Some(t), runs).Some? && CopyOf(s, RunAll(Some(t), runs).value)
    decreases |runs|
  {
    if runs != [] {
      var t' := Run(Some(t), runs[0].sheet, runs[0].page, runs[0].widgets);
      RunKeepsCopy(s, t, runs[0].sheet, runs[0].page, runs[0].widgets);
      assert ValidRuns(runs[1..]);
      RunAllKeepsCopy(s, t', runs[1..]);
    }
  }

  /** Starting from an empty session, the working table stays a copy of the
      sheet selected on the first run: selecting another sheet later never
      replaces it or adds that sheet's columns, and no rerun changes its
      rows, their order or any cell outside the metric columns. */
  lemma FirstSheetStaysWorkingTable(runs: seq<RunInput>)
    requires runs != [] && ValidRuns(runs)
    ensures RunAll(None, runs).Some? && CopyOf(runs[0].sheet, RunAll(None, runs).value)
  {
    var s := runs[0].sheet;
    FirstRunCopiesSheet(s, runs[0].page, runs[0].widgets);
    assert ValidRuns(runs[1..]);
    RunAllKeepsCopy(s, Run(None, s, runs[0].page, runs[0].widgets), runs[1..]);
  }

  /** The script's session state: the slot `st.session_state['df']`. */
  class Session {
    /** The working table; None until the first run with an uploaded file. */
    var df: Option<Frame>

    ghost predicate Valid()
      reads this
    {
      df.Some? ==> WellFormed(df.value)
    }

    constructor ()
      ensures Valid() && df == None
    {
      df := None;
    }

    /** Copy the selected sheet into the slot only if the slot is empty; a
        table already there is kept, whichever sheet is selected. */
    method InitWorkingTable(sheet: Frame)
      requires Valid() && WellFormed(sheet)
      modifies this
      ensures Valid() && df.Some?
      ensures old(df).Some? ==> df == old(df)
      ensures old(df).None? ==> df == Some(sheet)
    {
      if df.None? {
        df := Some(sheet);
      }
    }

    /** Add each metric column the working table lacks, unset in every row. */
    method AddAnnotationColumns()
      requires Valid() && df.Some?
      modifies this
      ensures Valid() && df == Some(WithMetricColumns(old(df).value))
    {
      ghost var start := df.value;
      var k := 0;
      while k < |Metrics|
        invariant 0 <= k <= |Metrics|
        invariant df == Some(AddColumns(start, Metrics[..k]))
      {
        var col := Metrics[k];
        ghost var before := df.value;
        if col !in df.value.columns {
          df := Some(WithColumn(df.value, col));
        }
        assert df.value == AddColumn(before, col);
        AddColumnsPrefixStep(start, Metrics, k);
        k := k + 1;
      }
      assert Metrics[..k] == Metrics;
    }

    /** The five radio writes `.at[i, metric] = st.radio(...)` for the row
        with index label i: its metric cells take the radios' values. */
    method RateRowAt(i: nat, w: Widgets)
      requires Valid() && df.Some? && HasMetricColumns(df.value) && i < |df.value.rows|
      modifies this
      ensures Valid() && df.Some? && HasMetricColumns(df.value)
      ensures df == Some(Frame(old(df).value.columns,
                               old(df).value.rows[i := RateRow(old(df).value.rows[i], i, w)]))
    {
      ghost var f := df.value;
      df := Some(SetCell(df.value, i, "Prosociality", Some(Radio(Picked(w, "Prosociality", i)))));
      df := Some(SetCell(df.value, i, "Engaged", Some(Radio(Picked(w, "Engaged", i)))));
      df := Some(SetCell(df.value, i, "Respect", Some(Radio(Picked(w, "Respect", i)))));
      df := Some(SetCell(df.value, i, "Coherency", Some(Radio(Picked(w, "Coherency", i)))));
      df := Some(SetCell(df.value, i, "Overall", Some(Radio(Picked(w, "Overall", i)))));
      assert df.value.rows == f.rows[i := RateRow(f.rows[i], i, w)];
      RateRowKeepsShape(f, i, w);
    }

    /** The loop over the rows of a page slice, in order: each row is
        headed with its entry number and gets its five radio writes. `labels`
        are the index labels of the slice, which starts at `startIdx`. */
    method RenderEntries(labels: seq<nat>, startIdx: nat, w: Widgets) returns (entries: seq<nat>)
      requires Valid() && df.Some? && HasMetricColumns(df.value)
      requires startIdx + |labels| <= |df.value.rows|
      requires forall k :: 0 <= k < |labels| ==> labels[k] == startIdx + k
      modifies this
      ensures Valid() && df == Some(RateRange(old(df).value, startIdx, startIdx + |labels|, w))
      ensures |entries| == |labels|
      ensures forall k :: 0 <= k < |labels| ==> entries[k] == EntryLabel(labels[k], startIdx)
    {
      ghost var f := df.value;
      entries := [];
      var k := 0;
      assert RateRange(f, startIdx, startIdx, w).rows == f.rows;
      while k < |labels|
        invariant 0 <= k <= |labels|
        invariant df == Some(RateRange(f, startIdx, startIdx + k, w))
        invariant |entries| == k
        invariant forall j :: 0 <= j < k ==> entries[j] == EntryLabel(labels[j], startIdx)
      {
        var i := labels[k];
        entries := entries + [EntryLabel(i, startIdx)];
        RateRowAt(i, w);
        RateRangeStep(f, startIdx, i, w);
        k := k + 1;
      }
    }

    /** Show page `pageNumber`: slice the working table with
        `iloc[start_idx:end_idx]` and render every row of the slice, writing
        the five radios' values into it. Returns the entry numbers the
        headings show. */
    method RenderPage(pageNumber: nat, w: Widgets) returns (entries: seq<nat>)
      requires Valid() && df.Some? && HasMetricColumns(df.value)
      requires 1 <= pageNumber <= TotalPages(|df.value.rows|)
      modifies this
      ensures Valid() && df == Some(RatePage(old(df).value, pageNumber, w))
      ensures entries == PageEntryLabels(|old(df).value.rows|, pageNumber)
    {
      var n := |df.value.rows|;
      var pageSize := PageSize;
      var startIdx := (pageNumber - 1) * pageSize;
      var endIdx := startIdx + pageSize;
      var labels := SliceIndices(n, startIdx, endIdx);
      assert labels == PageIndices(n, pageNumber);
      entries := RenderEntries(labels, startIdx, w);
    }

    /** One rerun of the script with a workbook uploaded: select a sheet,
        keep or create the working table, ensure the metric columns, and
        show and rate one page. */
    method Rerun(workbook: Workbook, selected: string, pageNumber: nat, w: Widgets)
      returns (entries: seq<nat>)
      requires Valid() && WellFormedWorkbook(workbook) && selected in workbook
      requires 1 <= pageNumber <= TotalPages(|WorkingTable(df, workbook[selected]).rows|)
      modifies this
      ensures Valid() && df == Some(Run(old(df), workbook[selected], pageNumber, w))
      ensures entries == PageEntryLabels(|old(WorkingTable(df, workbook[selected])).rows|, pageNumber)
    {
      var sheet := workbook[selected];
      InitWorkingTable(sheet);
      AddAnnotationColumns();
      entries := RenderPage(pageNumber, w);
    }
  }
}
