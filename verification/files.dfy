/**
 The file enumerator (`get_files_for_month`): the files of one table's
 `extraction_month=<month>` folder, without the platform's `_`-prefixed marker
 files, each with its size. A folder that cannot be listed has no files.
 */
module FileEnumerator {
  import opened Strings
  import opened Listing
  import Partitions

  /** A file to transfer: its path (without the `dbfs:` scheme) and size. */
  datatype FileRef = FileRef(path: string, size: nat)

  /** The URI scheme removed from listed paths. */
  const Scheme: string := "dbfs:"

  /** `s.replace("dbfs:", "")`: every occurrence removed, scanning left to
      right. `RemoveSchemeUnchanged` and `RemoveSchemeAtFirst` together pin
      the result down. */
  function RemoveScheme(s: string): (r: string)
    ensures |r| <= |s|
  {
    if StartsWith(s, Scheme) then RemoveScheme(s[|Scheme|..])
    else if s == [] then []
    else [s[0]] + RemoveScheme(s[1..])
  }

  lemma RemoveSchemeDrops(s: string)
    requires OccursAt(s, Scheme, 0)
    ensures RemoveScheme(s) == RemoveScheme(s[|Scheme|..])
  {
    assert s[..|Scheme|] == s[0..|Scheme|];
  }

  lemma RemoveSchemeKeeps(s: string)
    requires s != [] && !OccursAt(s, Scheme, 0)
    ensures RemoveScheme(s) == [s[0]] + RemoveScheme(s[1..])
  {
    if |Scheme| <= |s| {
      assert s[..|Scheme|] == s[0..|Scheme|];
    }
  }

  /** A path without the scheme is kept as it is. */
  lemma {:induction false} RemoveSchemeUnchanged(s: string)
    ensures (forall i :: !OccursAt(s, Scheme, i)) ==> RemoveScheme(s) == s
  {
    if s != [] && forall i :: !OccursAt(s, Scheme, i) {
      assert !OccursAt(s, Scheme, 0);
      RemoveSchemeKeeps(s);
      forall i ensures !OccursAt(s[1..], Scheme, i) {
        if i >= 0 {
          OccursAtTail(s, Scheme, i);
        }
      }
      RemoveSchemeUnchanged(s[1..]);
    }
  }

  /** Every occurrence goes, not just a leading one: before the first
      occurrence (at `k`) the path is kept, that occurrence is dropped, and
      removal carries on after it. */
  lemma {:induction false} RemoveSchemeAtFirst(s: string, k: nat)
    requires OccursAt(s, Scheme, k)
    requires forall i :: 0 <= i < k ==> !OccursAt(s, Scheme, i)
    ensures RemoveScheme(s) == s[..k] + RemoveScheme(s[k + |Scheme|..])
  {
    if k == 0 {
      RemoveSchemeDrops(s);
    } else {
      var t := s[1..];
      RemoveSchemeKeeps(s);
      FirstOccurrenceInTail(s, Scheme, k);
      RemoveSchemeAtFirst(t, k - 1);
      assert t[k - 1 + |Scheme|..] == s[k + |Scheme|..];
      assert s[..k] == [s[0]] + t[..k - 1];
    }
  }

  /** The path a listed entry is transferred from: a `dbfs:` path has the
      scheme removed (and any later occurrence of it too), any other path is
      kept. */
  function CleanPath(p: string): (r: string)
    ensures !StartsWith(p, Scheme) ==> r == p
    ensures StartsWith(p, Scheme) && (forall i :: !OccursAt(p[|Scheme|..], Scheme, i)) ==> r == p[|Scheme|..]
    ensures StartsWith(p, Scheme) ==> |r| <= |p| - |Scheme|
    ensures StartsWith(p, Scheme) ==> r == RemoveScheme(p[|Scheme|..])
  {
    if StartsWith(p, Scheme) then
      assert p[..|Scheme|] == p[0..|Scheme|];
      RemoveSchemeDrops(p);
      RemoveSchemeUnchanged(p[|Scheme|..]);
      RemoveScheme(p)
    else p
  }

  /** An entry that is transferred: a file whose name does not start with `_`. */
  predicate IsEligible(e: Entry)
  {
    !e.isDir && !StartsWith(e.name, "_")
  }

  /** The file an eligible entry becomes. */
  function ToFile(e: Entry): FileRef
  {
    FileRef(CleanPath(e.path), e.size)
  }

  /** The eligible entries of a listing as files, in listing order. */
  function EligibleFiles(entries: seq<Entry>): (r: seq<FileRef>)
    ensures forall f :: f in r <==> exists e :: e in entries && IsEligible(e) && f == ToFile(e)
    ensures |r| <= |entries|
  {
    if entries == [] then []
    else
      var rest := EligibleFiles(entries[1..]);
      assert forall x :: x in entries <==> x == entries[0] || x in entries[1..];
      if IsEligible(entries[0]) then [ToFile(entries[0])] + rest else rest
  }

  /** Listing order is kept: the files of an earlier stretch of the listing
      come before those of a later one. */
  lemma {:induction false} EligibleFilesAppend(a: seq<Entry>, b: seq<Entry>)
    ensures EligibleFiles(a + b) == EligibleFiles(a) + EligibleFiles(b)
  {
    if a != [] {
      assert (a + b)[0] == a[0] && (a + b)[1..] == a[1..] + b;
      EligibleFilesAppend(a[1..], b);
    } else {
      assert a + b == b;
    }
  }

  /** The folder holding one month of a table: the table path (which the
      listing gives with its trailing `/`) followed by the partition name. */
  function PartitionPath(tablePath: string, month: string): (r: string)
    ensures StartsWith(r, tablePath)
    ensures Partitions.IsMonthLabel(month) ==>
      Partitions.MatchesAt(r, |tablePath|) && Partitions.CaptureAt(r, |tablePath|) == month
    ensures r[|tablePath|..] == Partitions.MonthKey + month
  {
    var r := tablePath + Partitions.MonthKey + month;
    assert r[..|tablePath|] == tablePath;
    assert r[|tablePath|..|tablePath| + |Partitions.MonthKey|] == Partitions.MonthKey;
    assert r[|tablePath| + |Partitions.MonthKey|..] == month;
    r
  }

  /** `get_files_for_month(table_path, target_month)`. */
  function FilesForMonth(volume: Volume, tablePath: string, month: string): (r: seq<FileRef>)
    ensures PartitionPath(tablePath, month) !in volume ==> r == []
    ensures forall f :: f in r <==>
      PartitionPath(tablePath, month) in volume
      && exists e :: e in volume[PartitionPath(tablePath, month)] && IsEligible(e) && f == ToFile(e)
    ensures PartitionPath(tablePath, month) in volume ==> r == EligibleFiles(volume[PartitionPath(tablePath, month)])
  {
    var partition := PartitionPath(tablePath, month);
    if partition in volume then EligibleFiles(volume[partition]) else []
  }

  /** Total size of a list of files. */
  function SumSizes(files: seq<FileRef>): nat
  {
    if files == [] then 0 else files[0].size + SumSizes(files[1..])
  }
}
