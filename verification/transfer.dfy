/**
 The transfer executor (`transfer_files_for_table`): copies each file of one
 table's month to the mirrored folder of the target volume. Every copy
 succeeds or fails on its own; a failure is recorded as `<path>: <message>`
 and the remaining files are still copied.
 */
module Transfer {
  import opened Strings
  import opened FileEnumerator
  import Partitions
  import opened Sequences

  /** What one `dbutils.fs.cp` call did. */
  datatype CopyOutcome = Copied | CopyFailed(message: string)

  /** The platform's copy operation, from source path to destination path,
      supplied by the caller. */
  type Copier = (string, string) -> CopyOutcome

  /** The counters `transfer_files_for_table` returns. */
  datatype TransferStats = TransferStats(transferred: nat, failed: nat, bytes: nat, errors: seq<string>)

  /** The target folder of one table's month:
      `<target>/<schema>/<table>/extraction_month=<month>`. */
  function TargetBase(targetRoot: string, schema: string, table: string, month: string): (r: string)
    ensures StartsWith(r, targetRoot + "/")
    ensures '/' !in month ==> LastSegment(r) == Partitions.MonthKey + month
  {
    var dir := targetRoot + "/" + schema + "/" + table;
    var name := Partitions.MonthKey + month;
    PartitionFolderName(dir, month);
    assert (dir + "/" + name)[..|targetRoot + "/"|] == targetRoot + "/";
    dir + "/" + name
  }

  /** Where a file is copied to: the target folder and the file's own name. */
  function Destination(base: string, filePath: string): string
  {
    base + "/" + LastSegment(filePath)
  }

  /** The copy carried out for one file. */
  function Attempt(base: string, f: FileRef, copy: Copier): CopyOutcome
  {
    copy(f.path, Destination(base, f.path))
  }

  /** The error recorded for a failed copy. */
  function ErrorLine(f: FileRef, message: string): string
  {
    f.path + ": " + message
  }

  /** The files whose copy succeeded, in order. */
  function Succeeded(base: string, files: seq<FileRef>, copy: Copier): (r: seq<FileRef>)
    ensures forall f :: f in r <==> f in files && Attempt(base, f, copy).Copied?
    ensures |r| <= |files|
  {
    if files == [] then []
    else
      var rest := Succeeded(base, files[1..], copy);
      assert forall x :: x in files <==> x == files[0] || x in files[1..];
      if Attempt(base, files[0], copy).Copied? then [files[0]] + rest else rest
  }

  /** The files whose copy failed, in order, each with its failure message. */
  function Failures(base: string, files: seq<FileRef>, copy: Copier): (r: seq<(FileRef, string)>)
    ensures forall f, m :: (f, m) in r <==> f in files && Attempt(base, f, copy) == CopyFailed(m)
  {
    if files == [] then []
    else
      var rest := Failures(base, files[1..], copy);
      assert forall x :: x in files <==> x == files[0] || x in files[1..];
      match Attempt(base, files[0], copy)
      case CopyFailed(m) => [(files[0], m)] + rest
      case Copied => rest
  }

  /** The error line of one failure. */
  function FailureLine(failure: (FileRef, string)): string
  {
    ErrorLine(failure.0, failure.1)
  }

  /** The copy loop: one attempt per file, every outcome counted. */
  function CopyEach(base: string, files: seq<FileRef>, copy: Copier): (r: TransferStats)
    ensures r.transferred + r.failed == |files|
    ensures |r.errors| == r.failed
    ensures r.transferred == |Succeeded(base, files, copy)|
    ensures r.bytes == SumSizes(Succeeded(base, files, copy))
    ensures r.bytes <= SumSizes(files)
    ensures r.failed == 0 ==> r.bytes == SumSizes(files)
  {
    if files == [] then TransferStats(0, 0, 0, [])
    else
      var f := files[0];
      var rest := CopyEach(base, files[1..], copy);
      var ok := Succeeded(base, files[1..], copy);
      assert SumSizes(files) == f.size + SumSizes(files[1..]);
      match Attempt(base, f, copy)
      case Copied =>
        assert Succeeded(base, files, copy) == [f] + ok;
        assert SumSizes([f] + ok) == f.size + SumSizes(ok) by { assert ([f] + ok)[1..] == ok; }
        TransferStats(rest.transferred + 1, rest.failed, rest.bytes + f.size, rest.errors)
      case CopyFailed(message) =>
        assert Succeeded(base, files, copy) == ok;
        TransferStats(rest.transferred, rest.failed + 1, rest.bytes, [ErrorLine(f, message)] + rest.errors)
  }

  /** The errors are one `<path>: <message>` line per failed file, in file
      order, each with that file's own failure message. */
  lemma {:induction false} CopyEachErrors(base: string, files: seq<FileRef>, copy: Copier)
    ensures CopyEach(base, files, copy).errors == MapSeq(Failures(base, files, copy), FailureLine)
  {
    if files != [] {
      CopyEachErrors(base, files[1..], copy);
      var f0 := files[0];
      if Attempt(base, f0, copy).CopyFailed? {
        MapSeqCons((f0, Attempt(base, f0, copy).message), Failures(base, files[1..], copy), FailureLine);
      }
    }
  }

  /** `transfer_files_for_table(schema, table, path, month, files)` with the
      target volume `targetRoot`. */
  function TransferFilesForTable(targetRoot: string, schema: string, table: string, month: string,
                                 files: seq<FileRef>, copy: Copier): (r: TransferStats)
    ensures files == [] ==> r == TransferStats(0, 0, 0, [])
    ensures r.transferred + r.failed == |files|
    ensures |r.errors| == r.failed
    ensures r.bytes <= SumSizes(files)
    ensures r.failed == 0 ==> r.bytes == SumSizes(files)
    ensures r.transferred == |Succeeded(TargetBase(targetRoot, schema, table, month), files, copy)|
    ensures r.bytes == SumSizes(Succeeded(TargetBase(targetRoot, schema, table, month), files, copy))
    ensures r.errors == CopyEach(TargetBase(targetRoot, schema, table, month), files, copy).errors
  {
    if files == [] then TransferStats(0, 0, 0, [])
    else CopyEach(TargetBase(targetRoot, schema, table, month), files, copy)
  }

  /** The last segment of a path ending in `/<name>` is `name`. */
  lemma {:induction false} LastSegmentOfJoin(dir: string, name: string)
    requires '/' !in name
    ensures LastSegment(dir + "/" + name) == name
  {
    if name != [] {
      var p := dir + "/" + name;
      assert p[..|p| - 1] == dir + "/" + name[..|name| - 1];
      LastSegmentOfJoin(dir, name[..|name| - 1]);
      assert name == name[..|name| - 1] + [name[|name| - 1]];
    } else {
      assert (dir + "/" + name)[|dir + "/" + name| - 1] == '/';
    }
  }

  /** The month folder under a table's target directory is named after the
      partition. */
  lemma PartitionFolderName(dir: string, month: string)
    ensures '/' !in month ==> LastSegment(dir + "/" + (Partitions.MonthKey + month)) == Partitions.MonthKey + month
  {
    if '/' !in month {
      var name := Partitions.MonthKey + month;
      assert '/' !in Partitions.MonthKey;
      assert forall c :: c in name ==> c in Partitions.MonthKey || c in month;
      LastSegmentOfJoin(dir, name);
    }
  }

  /** A copied file keeps its name: the destination is the target folder
      followed by `/` and the source file's name. */
  lemma DestinationKeepsFileName(base: string, filePath: string)
    ensures LastSegment(Destination(base, filePath)) == LastSegment(filePath)
    ensures StartsWith(Destination(base, filePath), base + "/")
    ensures |Destination(base, filePath)| == |base| + 1 + |LastSegment(filePath)|
  {
    LastSegmentOfJoin(base, LastSegment(filePath));
    var d := Destination(base, filePath);
    assert d[..|base + "/"|] == base + "/";
  }

  /** Where a file of a table's month is copied to:
      `<target>/<schema>/<table>/extraction_month=<month>/<file name>`. */
  lemma CopyDestination(targetRoot: string, schema: string, table: string, month: string, filePath: string)
    ensures Destination(TargetBase(targetRoot, schema, table, month), filePath)
      == targetRoot + "/" + schema + "/" + table + "/" + Partitions.MonthKey + month + "/" + LastSegment(filePath)
  {
    var dir := targetRoot + "/" + schema + "/" + table;
    assert TargetBase(targetRoot, schema, table, month) == dir + "/" + (Partitions.MonthKey + month);
    assert dir + "/" + (Partitions.MonthKey + month) == dir + "/" + Partitions.MonthKey + month;
  }

  /** Where a shorter name's `/` falls, a longer name holds its own character. */
  lemma SlashAfterName(a: string, x: string, b: string, y: string)
    requires |a| < |b|
    ensures (a + "/" + x)[|a|] == '/' && (b + "/" + y)[|a|] == b[|a|]
  {
  }

  /** A name without `/` followed by `/` is split off unambiguously. */
  lemma SplitAtSlash(a: string, x: string, b: string, y: string)
    requires '/' !in a && '/' !in b
    requires a + "/" + x == b + "/" + y
    ensures a == b && x == y
  {
    var l, r := a + "/" + x, b + "/" + y;
    assert |a| == |b| by {
      if |a| < |b| {
        SlashAfterName(a, x, b, y);
        assert false;
      } else if |b| < |a| {
        SlashAfterName(b, y, a, x);
        assert false;
      }
    }
    assert a == l[..|a|] == r[..|b|] == b;
    assert x == l[|a| + 1..] == r[|b| + 1..] == y;
  }

  /** The target folder split at its first `/` after the root. */
  lemma TargetBaseShape(targetRoot: string, schema: string, table: string, month: string)
    ensures TargetBase(targetRoot, schema, table, month)
      == (targetRoot + "/") + (schema + "/" + (table + "/" + (Partitions.MonthKey + month)))
  {
  }

  /** Different tables or months never share a target folder: when schema
      and table names hold no `/`, the folder determines all three. */
  lemma TargetBaseDistinct(targetRoot: string, s1: string, t1: string, m1: string,
                           s2: string, t2: string, m2: string)
    requires '/' !in s1 && '/' !in t1 && '/' !in s2 && '/' !in t2
    requires TargetBase(targetRoot, s1, t1, m1) == TargetBase(targetRoot, s2, t2, m2)
    ensures s1 == s2 && t1 == t2 && m1 == m2
  {
    var p := targetRoot + "/";
    var rest1, rest2 := t1 + "/" + (Partitions.MonthKey + m1), t2 + "/" + (Partitions.MonthKey + m2);
    TargetBaseShape(targetRoot, s1, t1, m1);
    TargetBaseShape(targetRoot, s2, t2, m2);
    PrefixCancels(p, s1 + "/" + rest1, s2 + "/" + rest2);
    SplitAtSlash(s1, rest1, s2, rest2);
    SplitAtSlash(t1, Partitions.MonthKey + m1, t2, Partitions.MonthKey + m2);
    PrefixCancels(Partitions.MonthKey, m1, m2);
  }

  /** A common prefix can be dropped from both sides of an equation. */
  lemma PrefixCancels(p: string, x: string, y: string)
    requires p + x == p + y
    ensures x == y
  {
    assert x == (p + x)[|p|..];
    assert y == (p + y)[|p|..];
  }
}
