/**
 The run coordinator (`process_all_tables`, sequential branch): discover the
 tables, settle the simulation month, process every table for it, fold the
 per-table results into the month's counters and classify the run. The
 outcome carries the ledger row the run appends.
 */
module RunCoordinator {
  import opened Wrappers
  import opened Strings
  import opened Listing
  import opened Discovery
  import opened Partitions
  import opened MonthSelector
  import opened Transfer
  import opened TableOrchestrator
  import opened Sorting
  import opened Sequences

  /** The status written to the ledger. */
  datatype Status = Success | Partial | Failed
  {
    /** The string stored in the ledger's `status` column. */
    function Name(): string
    {
      match this
      case Success => "success"
      case Partial => "partial"
      case Failed => "failed"
    }
  }

  /** The run's status from its errors and the number of files transferred. */
  function Classify(errors: seq<string>, filesTransferred: nat): (s: Status)
    ensures s == Success <==> errors == []
    ensures s == Partial <==> errors != [] && filesTransferred > 0
    ensures s == Failed <==> errors != [] && filesTransferred == 0
  {
    if errors != [] then (if filesTransferred > 0 then Partial else Failed) else Success
  }

  /** The in-memory counters of one run (`month_stats` before its status). */
  datatype MonthStats = MonthStats(tablesWithFiles: nat, tablesSkipped: nat, totalFiles: nat,
                                   totalBytes: nat, errors: seq<string>)

  /** One iteration of the sequential loop: fold one table's result in. It
      adds exactly that table's contribution to the counters and appends its
      errors after those collected so far. */
  function Accumulate(acc: MonthStats, r: TableResult): (a: MonthStats)
    ensures Counters(a) == Plus(Counters(acc), Contribution(r))
    ensures a.errors == acc.errors + r.errors
  {
    var counted :=
      if r.hasFiles then
        acc.(tablesWithFiles := acc.tablesWithFiles + 1,
             totalFiles := acc.totalFiles + r.filesTransferred,
             totalBytes := acc.totalBytes + r.bytesTransferred)
      else acc.(tablesSkipped := acc.tablesSkipped + 1);
    counted.(errors := counted.errors + r.errors)
  }

  /** The sequential loop over the results, first table first. */
  function Aggregate(results: seq<TableResult>): (a: MonthStats)
    ensures a.tablesWithFiles + a.tablesSkipped == |results|
  {
    if results == [] then MonthStats(0, 0, 0, 0, [])
    else Accumulate(Aggregate(results[..|results| - 1]), results[|results| - 1])
  }

  /* A reference definition of the counters, independent of the loop: each
     result contributes on its own and contributions add up. */

  /** What a run's counters add up to, with the errors as a multiset. */
  datatype Tally = Tally(withFiles: nat, skipped: nat, files: nat, bytes: nat, errors: multiset<string>)

  /** A table with files adds its files and bytes; any other table only
      counts as skipped. Both add their errors. */
  function Contribution(r: TableResult): Tally
  {
    if r.hasFiles then Tally(1, 0, r.filesTransferred, r.bytesTransferred, multiset(r.errors))
    else Tally(0, 1, 0, 0, multiset(r.errors))
  }

  /** The counters of the loop as a tally. */
  function Counters(a: MonthStats): Tally
  {
    Tally(a.tablesWithFiles, a.tablesSkipped, a.totalFiles, a.totalBytes, multiset(a.errors))
  }

  function Plus(a: Tally, b: Tally): Tally
  {
    Tally(a.withFiles + b.withFiles, a.skipped + b.skipped, a.files + b.files,
          a.bytes + b.bytes, a.errors + b.errors)
  }

  function TallyOf(results: seq<TableResult>): Tally
  {
    if results == [] then Tally(0, 0, 0, 0, multiset{})
    else Plus(Contribution(results[0]), TallyOf(results[1..]))
  }

  /** Every table's errors, tables in order. */
  function AllErrors(results: seq<TableResult>): seq<string>
  {
    if results == [] then [] else results[0].errors + AllErrors(results[1..])
  }

  lemma PlusAssociative(a: Tally, b: Tally, c: Tally)
    ensures Plus(a, Plus(b, c)) == Plus(Plus(a, b), c)
  {
    assert a.errors + (b.errors + c.errors) == (a.errors + b.errors) + c.errors;
  }

  lemma {:induction false} TallyOfAppend(a: seq<TableResult>, b: seq<TableResult>)
    ensures TallyOf(a + b) == Plus(TallyOf(a), TallyOf(b))
  {
    if a == [] {
      assert a + b == b;
      assert TallyOf(a).errors + TallyOf(b).errors == TallyOf(b).errors;
    } else {
      assert (a + b)[0] == a[0] && (a + b)[1..] == a[1..] + b;
      TallyOfAppend(a[1..], b);
      PlusAssociative(Contribution(a[0]), TallyOf(a[1..]), TallyOf(b));
    }
  }

  lemma {:induction false} AllErrorsAppend(a: seq<TableResult>, b: seq<TableResult>)
    ensures AllErrors(a + b) == AllErrors(a) + AllErrors(b)
  {
    if a == [] {
      assert a + b == b;
    } else {
      assert (a + b)[0] == a[0] && (a + b)[1..] == a[1..] + b;
      AllErrorsAppend(a[1..], b);
    }
  }

  /** The loop computes the reference counters: tables with and without files
      are counted, files and bytes are summed over the tables with files, and
      the errors are every table's errors concatenated in table order. */
  lemma {:induction false} AggregateMatchesTally(results: seq<TableResult>)
    ensures var a, t := Aggregate(results), TallyOf(results);
      && a.tablesWithFiles == t.withFiles && a.tablesSkipped == t.skipped
      && a.totalFiles == t.files && a.totalBytes == t.bytes
      && a.errors == AllErrors(results) && multiset(a.errors) == t.errors
  {
    if results != [] {
      var init, last := results[..|results| - 1], results[|results| - 1];
      assert results == init + [last];
      AggregateMatchesTally(init);
      TallyOfAppend(init, [last]);
      AllErrorsAppend(init, [last]);
      assert TallyOf([last]) == Contribution(last);
      assert AllErrors([last]) == last.errors;
    }
  }

  lemma PlusExchange(p: Tally, x: Tally, q: Tally)
    ensures Plus(p, Plus(x, q)) == Plus(x, Plus(p, q))
  {
    assert p.errors + (x.errors + q.errors) == x.errors + (p.errors + q.errors);
  }

  /** The counters do not depend on the order of the results. */
  lemma {:induction false} TallyPermutation(a: seq<TableResult>, b: seq<TableResult>)
    requires multiset(a) == multiset(b)
    ensures TallyOf(a) == TallyOf(b)
    decreases |a|
  {
    if a == [] {
      assert |b| == |multiset(b)| == 0;
    } else {
      var x := a[0];
      assert x in multiset(b);
      var i :| 0 <= i < |b| && b[i] == x;
      var rest := b[..i] + b[i + 1..];
      PermutationWithout(a, b, i);
      TallyPermutation(a[1..], rest);
      assert b == b[..i] + ([x] + b[i + 1..]);
      TallyOfAppend(b[..i], [x] + b[i + 1..]);
      assert TallyOf([x] + b[i + 1..]) == Plus(Contribution(x), TallyOf(b[i + 1..])) by {
        assert ([x] + b[i + 1..])[0] == x && ([x] + b[i + 1..])[1..] == b[i + 1..];
      }
      TallyOfAppend(b[..i], b[i + 1..]);
      PlusExchange(TallyOf(b[..i]), Contribution(x), TallyOf(b[i + 1..]));
    }
  }

  /** Every table processed for the month, in table order. */
  function TableResults(volume: Volume, targetRoot: string, tables: seq<TableRef>, month: string,
                        copy: Copier): (r: seq<TableResult>)
    ensures |r| == |tables|
    ensures forall i :: 0 <= i < |tables| ==> r[i] == ProcessSingleTable(volume, targetRoot, tables[i], month, copy)
  {
    if tables == [] then []
    else [ProcessSingleTable(volume, targetRoot, tables[0], month, copy)]
         + TableResults(volume, targetRoot, tables[1..], month, copy)
  }

  /** The row appended to the progress ledger (its timestamp is left out). */
  datatype LedgerRow = LedgerRow(simulationMonth: string, totalTablesFound: nat, tablesWithFiles: nat,
                                 tablesSkipped: nat, totalFilesTransferred: nat,
                                 totalBytesTransferred: nat, status: Status)

  /** The month's counters as a ledger row: the counters are carried over and
      the status follows the three-way rule on the run's errors and files. */
  function Summarize(month: string, tablesFound: nat, stats: MonthStats): (row: LedgerRow)
    ensures row.simulationMonth == month && row.totalTablesFound == tablesFound
    ensures row.tablesWithFiles == stats.tablesWithFiles && row.tablesSkipped == stats.tablesSkipped
    ensures row.totalFilesTransferred == stats.totalFiles && row.totalBytesTransferred == stats.totalBytes
    ensures row.status == Success <==> stats.errors == []
    ensures row.status == Partial <==> stats.errors != [] && stats.totalFiles > 0
    ensures row.status == Failed <==> stats.errors != [] && stats.totalFiles == 0
  {
    LedgerRow(month, tablesFound, stats.tablesWithFiles, stats.tablesSkipped, stats.totalFiles,
              stats.totalBytes, Classify(stats.errors, stats.totalFiles))
  }

  /** How a run ends: no tables, no month left, or a processed month with its
      ledger row and the errors it collected. */
  datatype RunOutcome = NoTablesFound | AllMonthsProcessed | Processed(row: LedgerRow, errors: seq<string>)

  /** An operator-supplied month counts only when it is a non-empty string. */
  predicate Overrides(monthOverride: Option<string>)
  {
    monthOverride.Some? && monthOverride.value != ""
  }

  /** `process_all_tables(specific_month)` with the sequential loop: source
      volume `sourceRoot`, target volume `targetRoot`, and `lastProcessed` the
      ledger's latest month. */
  function ProcessAllTables(volume: Volume, sourceRoot: string, targetRoot: string,
                            monthOverride: Option<string>, lastProcessed: Option<string>,
                            copy: Copier): (r: RunOutcome)
    ensures r.NoTablesFound? <==> TablePaths(volume, sourceRoot) == []
    ensures r.AllMonthsProcessed? <==>
      TablePaths(volume, sourceRoot) != [] && !Overrides(monthOverride)
      && NextSimulationMonth(volume, sourceRoot, lastProcessed).None?
    ensures r.Processed? && Overrides(monthOverride) ==> r.row.simulationMonth == monthOverride.value
    ensures r.Processed? && !Overrides(monthOverride) ==>
      NextSimulationMonth(volume, sourceRoot, lastProcessed) == Some(r.row.simulationMonth)
    ensures r.Processed? ==>
      && r.row.totalTablesFound == |TablePaths(volume, sourceRoot)|
      && r.row.tablesWithFiles + r.row.tablesSkipped == r.row.totalTablesFound
    ensures r.Processed? ==>
      && (r.row.status == Success <==> r.errors == [])
      && (r.row.status == Partial <==> r.errors != [] && r.row.totalFilesTransferred > 0)
      && (r.row.status == Failed <==> r.errors != [] && r.row.totalFilesTransferred == 0)
  {
    var tables := TablePaths(volume, sourceRoot);
    if tables == [] then NoTablesFound
    else
      var month :=
        if Overrides(monthOverride) then monthOverride
        else NextSimulationMonth(volume, sourceRoot, lastProcessed);
      if month.None? then AllMonthsProcessed
      else
        var results := TableResults(volume, targetRoot, tables, month.value, copy);
        var stats := Aggregate(results);
        Processed(Summarize(month.value, |tables|, stats), stats.errors)
  }

  lemma TableResultsAsMap(volume: Volume, targetRoot: string, ts: seq<TableRef>, month: string,
                          copy: Copier, f: TableRef -> TableResult)
    requires forall t :: f(t) == ProcessSingleTable(volume, targetRoot, t, month, copy)
    ensures TableResults(volume, targetRoot, ts, month, copy) == MapSeq(ts, f)
  {
    var r, m := TableResults(volume, targetRoot, ts, month, copy), MapSeq(ts, f);
    forall i | 0 <= i < |ts| ensures r[i] == m[i] {
      MapSeqAt(ts, f, i);
    }
  }

  /** Processing the same tables in another order yields the same results in
      another order. */
  lemma ResultsPermutation(volume: Volume, targetRoot: string, ts1: seq<TableRef>,
                           ts2: seq<TableRef>, month: string, copy: Copier)
    requires multiset(ts1) == multiset(ts2)
    ensures multiset(TableResults(volume, targetRoot, ts1, month, copy))
         == multiset(TableResults(volume, targetRoot, ts2, month, copy))
  {
    var f := (t: TableRef) => ProcessSingleTable(volume, targetRoot, t, month, copy);
    MapPermutation(ts1, ts2, f);
    TableResultsAsMap(volume, targetRoot, ts1, month, copy, f);
    TableResultsAsMap(volume, targetRoot, ts2, month, copy, f);
  }

  /** The ledger row does not depend on the order in which the tables are
      processed, and the errors are the same up to order. This is what lets
      the worker-pool branch, which folds results in completion order, write
      the row the sequential loop writes. */
  lemma RunOrderIndependent(volume: Volume, targetRoot: string, ts1: seq<TableRef>, ts2: seq<TableRef>,
                            month: string, copy: Copier)
    requires multiset(ts1) == multiset(ts2)
    ensures var s1 := Aggregate(TableResults(volume, targetRoot, ts1, month, copy));
            var s2 := Aggregate(TableResults(volume, targetRoot, ts2, month, copy));
            && Summarize(month, |ts1|, s1) == Summarize(month, |ts2|, s2)
            && multiset(s1.errors) == multiset(s2.errors)
  {
    var r1 := TableResults(volume, targetRoot, ts1, month, copy);
    var r2 := TableResults(volume, targetRoot, ts2, month, copy);
    ResultsPermutation(volume, targetRoot, ts1, ts2, month, copy);
    TallyPermutation(r1, r2);
    AggregateMatchesTally(r1);
    AggregateMatchesTally(r2);
    assert |ts1| == |multiset(ts1)| == |multiset(ts2)| == |ts2|;
    var e1, e2 := Aggregate(r1).errors, Aggregate(r2).errors;
    assert |e1| == |multiset(e1)| == |multiset(e2)| == |e2|;
  }

  /** Results that are all skips fold to counters with nothing transferred. */
  lemma {:induction false} AllSkippedAggregate(results: seq<TableResult>)
    requires forall r :: r in results ==> !r.hasFiles && r.errors == []
    ensures Aggregate(results) == MonthStats(0, |results|, 0, 0, [])
  {
    if results != [] {
      AllSkippedAggregate(results[..|results| - 1]);
    }
  }

  /** An operator-supplied month that no table has is still processed: every
      table is skipped, nothing is transferred, the run counts as a success
      and a ledger row is written for that month. */
  lemma OverrideWithoutPartitions(volume: Volume, sourceRoot: string, targetRoot: string, month: string,
                                  lastProcessed: Option<string>, copy: Copier)
    requires month != "" && TablePaths(volume, sourceRoot) != []
    requires forall t :: t in TablePaths(volume, sourceRoot) ==> month !in ExtractMonths(volume, t.path)
    ensures var n := |TablePaths(volume, sourceRoot)|;
      ProcessAllTables(volume, sourceRoot, targetRoot, Some(month), lastProcessed, copy)
      == Processed(LedgerRow(month, n, 0, n, 0, 0, Success), [])
  {
    var tables := TablePaths(volume, sourceRoot);
    var results := TableResults(volume, targetRoot, tables, month, copy);
    forall r | r in results ensures !r.hasFiles && r.errors == [] {
      var i :| 0 <= i < |results| && results[i] == r;
      assert tables[i] in tables;
    }
    AllSkippedAggregate(results);
  }

  /** When the ledger's latest month is at or after every partition month and
      no month is supplied, the run stops without processing anything. */
  lemma NothingLeftToProcess(volume: Volume, sourceRoot: string, targetRoot: string,
                             lastProcessed: string, copy: Copier)
    requires TablePaths(volume, sourceRoot) != []
    requires forall t, m :: t in TablePaths(volume, sourceRoot) && m in ExtractMonths(volume, t.path)
                            ==> !LexLt(lastProcessed, m)
    ensures ProcessAllTables(volume, sourceRoot, targetRoot, None, Some(lastProcessed), copy) == AllMonthsProcessed
  {
  }

  /** A processed run's row and errors are the reference totals of the
      tables' results: files and bytes summed over the tables with files, the
      tables counted by kind, the errors concatenated in table order. */
  lemma ProcessAllTablesTotals(volume: Volume, sourceRoot: string, targetRoot: string,
                               monthOverride: Option<string>, lastProcessed: Option<string>, copy: Copier)
    ensures var r := ProcessAllTables(volume, sourceRoot, targetRoot, monthOverride, lastProcessed, copy);
      r.Processed? ==>
        var results := TableResults(volume, targetRoot, TablePaths(volume, sourceRoot), r.row.simulationMonth, copy);
        var t := TallyOf(results);
        && r.row.tablesWithFiles == t.withFiles && r.row.tablesSkipped == t.skipped
        && r.row.totalFilesTransferred == t.files && r.row.totalBytesTransferred == t.bytes
        && r.errors == AllErrors(results) && multiset(r.errors) == t.errors
  {
    var r := ProcessAllTables(volume, sourceRoot, targetRoot, monthOverride, lastProcessed, copy);
    if r.Processed? {
      AggregateMatchesTally(TableResults(volume, targetRoot, TablePaths(volume, sourceRoot), r.row.simulationMonth, copy));
    }
  }
}
