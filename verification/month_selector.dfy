/**
 The month selector (`get_next_simulation_month`): every table's partition
 months are pooled, and the next simulation month is the earliest of them when
 nothing has been processed yet, and otherwise the earliest one later than the
 last processed month.
 */
module MonthSelector {
  import opened Wrappers
  import opened Strings
  import opened Sorting
  import opened Listing
  import opened Discovery
  import opened Partitions

  /** `m` is eligible after the last processed month: anything is when there
      is none, otherwise `m` must sort strictly after it. */
  predicate After(last: Option<string>, m: string)
  {
    last.None? || LexLt(last.value, m)
  }

  lemma SortedHeadIsLeast(s: seq<string>)
    requires s != []
    ensures SortedBy(s, Identity) ==> forall m :: m in s ==> LexLe(s[0], m)
  {
    if SortedBy(s, Identity) {
      forall m | m in s ensures LexLe(s[0], m) {
        var j :| 0 <= j < |s| && s[j] == m;
        if j == 0 {
          LexLeReflexive(m);
        } else {
          assert LexLe(Identity(s[0]), Identity(s[j]));
        }
      }
    }
  }

  /** The first element of `s` greater than `last` (`next_months[0]`). */
  function FirstAfter(s: seq<string>, last: string): (r: Option<string>)
    ensures r.None? <==> forall m :: m in s ==> !LexLt(last, m)
    ensures r.Some? ==> r.value in s && LexLt(last, r.value)
    ensures r.Some? && SortedBy(s, Identity) ==> forall m :: m in s && LexLt(last, m) ==> LexLe(r.value, m)
  {
    if s == [] then None
    else if LexLt(last, s[0]) then
      SortedHeadIsLeast(s);
      Some(s[0])
    else
      assert forall m :: m in s <==> m == s[0] || m in s[1..];
      FirstAfter(s[1..], last)
  }

  /** The selection over the pooled months: `sorted(all_months)`, then its
      first element, or its first element after the last processed month.
      Duplicates in `months` are kept; they cannot change the outcome (see
      `SelectMonthDependsOnlyOnSet`). */
  function SelectMonth(months: seq<string>, last: Option<string>): (r: Option<string>)
    ensures r.Some? <==> exists m :: m in months && After(last, m)
    ensures r.Some? ==> r.value in months && After(last, r.value)
    ensures r.Some? ==> forall m :: m in months && After(last, m) ==> LexLe(r.value, m)
  {
    var sorted := SortBy(months, Identity);
    assert forall m :: m in sorted <==> m in months by {
      forall m ensures m in sorted <==> m in months {
        SortByMembers(months, Identity, m);
      }
    }
    if sorted == [] then None
    else if last.None? then
      SortedHeadIsLeast(sorted);
      assert sorted[0] in months && After(last, sorted[0]);
      Some(sorted[0])
    else FirstAfter(sorted, last.value)
  }

  /** The result depends only on which months occur: the pooled months form a
      set in the notebook, and this shows that dropping duplicates or
      reordering the pool changes nothing. */
  lemma SelectMonthDependsOnlyOnSet(a: seq<string>, b: seq<string>, last: Option<string>)
    requires forall m :: m in a <==> m in b
    ensures SelectMonth(a, last) == SelectMonth(b, last)
  {
    var ra, rb := SelectMonth(a, last), SelectMonth(b, last);
    if ra.Some? {
      assert rb.Some?;
      LexLeAntisymmetric(ra.value, rb.value);
    }
  }

  /** Every partition month of every listed table, table by table. */
  function AllMonths(volume: Volume, tables: seq<TableRef>): (r: seq<string>)
    ensures forall m :: m in r <==> exists t :: t in tables && m in ExtractMonths(volume, t.path)
  {
    if tables == [] then []
    else
      assert forall t :: t in tables <==> t == tables[0] || t in tables[1..];
      ExtractMonths(volume, tables[0].path) + AllMonths(volume, tables[1..])
  }

  /** Some discovered table under `root` has a partition for month `m`. */
  predicate Offered(volume: Volume, root: string, m: string)
  {
    exists t :: t in TablePaths(volume, root) && m in ExtractMonths(volume, t.path)
  }

  /** `get_next_simulation_month(last_processed)` over the source volume `root`. */
  function NextSimulationMonth(volume: Volume, root: string, last: Option<string>): (r: Option<string>)
    ensures r.Some? ==> IsMonthLabel(r.value) && After(last, r.value) && Offered(volume, root, r.value)
    ensures r.Some? ==> forall m :: Offered(volume, root, m) && After(last, m) ==> LexLe(r.value, m)
  {
    var tables := TablePaths(volume, root);
    if tables == [] then None
    else SelectMonth(AllMonths(volume, tables), last)
  }

  /** A month is chosen whenever some table offers an eligible one. */
  lemma NextSimulationMonthExists(volume: Volume, root: string, last: Option<string>, m: string)
    requires Offered(volume, root, m) && After(last, m)
    ensures NextSimulationMonth(volume, root, last).Some?
  {}
}
