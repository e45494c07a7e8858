/**
 The table orchestrator (`process_single_table_for_month`): scan a table's
 partitions, and when the target month is among them, enumerate its files and
 transfer them. A table without the month, or whose month folder holds no
 eligible file, is skipped: it has no files and no errors.
 */
module TableOrchestrator {
  import opened Listing
  import opened Discovery
  import opened Partitions
  import opened FileEnumerator
  import opened Transfer

  /** The per-table result record. */
  datatype TableResult = TableResult(tableLabel: string, hasFiles: bool, filesTransferred: nat,
                                     bytesTransferred: nat, errors: seq<string>)

  /** The result of a table that was skipped. */
  function Skipped(tag: string): TableResult
  {
    TableResult(tag, false, 0, 0, [])
  }

  /** `process_single_table_for_month(table, month)`, copying into `targetRoot`. */
  function ProcessSingleTable(volume: Volume, targetRoot: string, t: TableRef, month: string,
                              copy: Copier): (r: TableResult)
    ensures r.tableLabel == Label(t)
    ensures r.hasFiles <==> month in ExtractMonths(volume, t.path) && FilesForMonth(volume, t.path, month) != []
    ensures !r.hasFiles ==> r == Skipped(Label(t))
    ensures r.hasFiles ==> r.filesTransferred + |r.errors| == |FilesForMonth(volume, t.path, month)|
    ensures r.bytesTransferred <= SumSizes(FilesForMonth(volume, t.path, month))
    ensures r.errors == [] ==> r.bytesTransferred == SumSizes(FilesForMonth(volume, t.path, month)) || !r.hasFiles
    ensures r.hasFiles ==>
      var base, files := TargetBase(targetRoot, t.schema, t.table, month), FilesForMonth(volume, t.path, month);
      && r.filesTransferred == |Succeeded(base, files, copy)|
      && r.bytesTransferred == SumSizes(Succeeded(base, files, copy))
      && r.errors == CopyEach(base, files, copy).errors
  {
    var tag := Label(t);
    if month !in ExtractMonths(volume, t.path) then Skipped(tag)
    else
      var files := FilesForMonth(volume, t.path, month);
      if files == [] then Skipped(tag)
      else
        var stats := TransferFilesForTable(targetRoot, t.schema, t.table, month, files, copy);
        TableResult(tag, true, stats.transferred, stats.bytes, stats.errors)
  }

  /** A table without a partition folder for the month is skipped, and a skip
      is not an error, whatever the rest of the volume holds. */
  lemma SparseTableIsSkipped(volume: Volume, targetRoot: string, t: TableRef, month: string, copy: Copier)
    requires t.path !in volume || forall e :: e in volume[t.path] ==> !Yields(e, month)
    ensures ProcessSingleTable(volume, targetRoot, t, month, copy) == Skipped(Label(t))
  {
  }
}
