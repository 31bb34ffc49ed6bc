/**
 * The time-record collection: upsert keyed by date (`handleUpdateRecord`,
 * App.tsx:137-142) and the date-scoped merge of a single-user backup
 * (App.tsx:181-187). The date is a flat key: records carry no owner.
 */
module RecordStore {

  import opened Types
  import opened Seqs

  function DateOf(r: TimeRecord): string { r.date }

  /** At most one record per date. */
  ghost predicate DatesUnique(rs: seq<TimeRecord>)
  {
    DistinctBy(rs, DateOf)
  }

  /** The records whose date is not `d`, in order. */
  function WithoutDate(rs: seq<TimeRecord>, d: string): (out: seq<TimeRecord>)
    ensures forall i :: 0 <= i < |out| ==> out[i].date != d && out[i] in rs
    ensures forall i :: 0 <= i < |rs| && rs[i].date != d ==> rs[i] in out
  {
    Filter(rs, (r: TimeRecord) => r.date != d)
  }

  /** Drop every record dated like `record`, then append `record`. */
  function UpsertByDate(rs: seq<TimeRecord>, record: TimeRecord): (out: seq<TimeRecord>)
    ensures |out| > 0 && out[|out| - 1] == record
    ensures forall i :: 0 <= i < |out| - 1 ==> out[i].date != record.date
  {
    WithoutDate(rs, record.date) + [record]
  }

  /** The dates of a list of records, position by position. */
  function DatesOf(rs: seq<TimeRecord>): (ds: seq<string>)
    ensures |ds| == |rs|
    ensures forall i :: 0 <= i < |rs| ==> ds[i] == rs[i].date
  {
    Map(rs, DateOf)
  }

  /** Drop every record whose date occurs in `backup`, then append all of `backup`. */
  function MergeByDates(rs: seq<TimeRecord>, backup: seq<TimeRecord>): (out: seq<TimeRecord>)
    ensures |out| >= |backup| && out[|out| - |backup|..] == backup
    ensures forall i, j :: 0 <= i < |out| - |backup| && 0 <= j < |backup| ==> out[i].date != backup[j].date
  {
    var ds := DatesOf(backup);
    var kept := Filter(rs, (r: TimeRecord) => r.date !in ds);
    assert (kept + backup)[|kept|..] == backup;
    kept + backup
  }

  /** Every record whose date differs from the upserted one survives, in its original order and multiplicity. */
  lemma UpsertKeepsOthers(rs: seq<TimeRecord>, record: TimeRecord)
    ensures var out := UpsertByDate(rs, record);
      IsSubsequence(out[..|out| - 1], rs) &&
      forall x: TimeRecord :: x.date != record.date ==> multiset(out)[x] == multiset(rs)[x]
  {
    var keep := (r: TimeRecord) => r.date != record.date;
    var out := UpsertByDate(rs, record);
    assert out[..|out| - 1] == Filter(rs, keep);
    FilterIsSubsequence(rs, keep);
    forall x: TimeRecord | x.date != record.date ensures multiset(out)[x] == multiset(rs)[x] {
      FilterCount(rs, keep, x);
      assert multiset(out) == multiset(Filter(rs, keep)) + multiset{record};
    }
  }

  /** Upserting the same record twice is upserting it once. */
  lemma UpsertIdempotent(rs: seq<TimeRecord>, record: TimeRecord)
    ensures UpsertByDate(UpsertByDate(rs, record), record) == UpsertByDate(rs, record)
  {
    UpsertLatestWins(rs, record, record);
  }

  /** Of two upserts for the same date only the second record remains, whatever the ids. */
  lemma UpsertLatestWins(rs: seq<TimeRecord>, r1: TimeRecord, r2: TimeRecord)
    requires r1.date == r2.date
    ensures UpsertByDate(UpsertByDate(rs, r1), r2) == UpsertByDate(rs, r2)
  {
    var keep := (r: TimeRecord) => r.date != r2.date;
    var f := Filter(rs, keep);
    assert UpsertByDate(rs, r1) == f + [r1];
    FilterAppend(f, [r1], keep);
    FilterIdempotent(rs, keep);
    assert Filter([r1], keep) == [];
  }

  /** Upsert keeps the collection keyed by date. */
  lemma UpsertKeepsDatesUnique(rs: seq<TimeRecord>, record: TimeRecord)
    requires DatesUnique(rs)
    ensures DatesUnique(UpsertByDate(rs, record))
  {
    var keep := (r: TimeRecord) => r.date != record.date;
    FilterKeepsDistinct(rs, keep, DateOf);
    var f := Filter(rs, keep);
    var out := f + [record];
    forall i, j | 0 <= i < j < |out| ensures DateOf(out[i]) != DateOf(out[j]) {
      if j < |f| {
        assert out[i] == f[i] && out[j] == f[j];
      }
    }
  }

  /** A record survives the merge exactly when no backup record has its date; it keeps its order and multiplicity. */
  lemma MergeKeepsOthers(rs: seq<TimeRecord>, backup: seq<TimeRecord>)
    ensures var out := MergeByDates(rs, backup);
      IsSubsequence(out[..|out| - |backup|], rs) &&
      forall x: TimeRecord :: x.date !in DatesOf(backup) ==> multiset(out)[x] == multiset(rs)[x]
  {
    var ds := DatesOf(backup);
    var keep := (r: TimeRecord) => r.date !in ds;
    var out := MergeByDates(rs, backup);
    var f := Filter(rs, keep);
    assert out == f + backup;
    assert out[..|out| - |backup|] == f;
    FilterIsSubsequence(rs, keep);
    forall x: TimeRecord | x.date !in ds ensures multiset(out)[x] == multiset(rs)[x] {
      FilterCount(rs, keep, x);
      assert multiset(backup)[x] == 0;
    }
  }

  /** Merging a one-record backup is upserting that record. */
  lemma MergeSingleIsUpsert(rs: seq<TimeRecord>, record: TimeRecord)
    ensures MergeByDates(rs, [record]) == UpsertByDate(rs, record)
  {
    var ds := DatesOf([record]);
    assert ds == [record.date];
    FilterAgree(rs, (r: TimeRecord) => r.date !in ds, (r: TimeRecord) => r.date != record.date);
  }

  /** Merging an empty backup changes nothing. */
  lemma MergeEmptyIsNoop(rs: seq<TimeRecord>)
    ensures MergeByDates(rs, []) == rs
  {
    var ds := DatesOf([]);
    FilterKeepsAll(rs, (r: TimeRecord) => r.date !in ds);
  }

  /** Restoring the same backup twice merges the same as restoring it once. */
  lemma MergeIdempotent(rs: seq<TimeRecord>, backup: seq<TimeRecord>)
    ensures MergeByDates(MergeByDates(rs, backup), backup) == MergeByDates(rs, backup)
  {
    var ds := DatesOf(backup);
    var keep := (r: TimeRecord) => r.date !in ds;
    var f := Filter(rs, keep);
    assert MergeByDates(rs, backup) == f + backup;
    FilterAppend(f, backup, keep);
    FilterIdempotent(rs, keep);
    FilterDropsAll(backup, keep);
  }

  /** A merge keeps the collection keyed by date when the backup itself is. */
  lemma MergeKeepsDatesUnique(rs: seq<TimeRecord>, backup: seq<TimeRecord>)
    requires DatesUnique(rs) && DatesUnique(backup)
    ensures DatesUnique(MergeByDates(rs, backup))
  {
    var ds := DatesOf(backup);
    var keep := (r: TimeRecord) => r.date !in ds;
    FilterKeepsDistinct(rs, keep, DateOf);
    var f := Filter(rs, keep);
    var out := f + backup;
    forall i, j | 0 <= i < j < |out| ensures DateOf(out[i]) != DateOf(out[j]) {
      if j < |f| {
        assert out[i] == f[i] && out[j] == f[j];
      } else if i >= |f| {
        assert out[i] == backup[i - |f|] && out[j] == backup[j - |f|];
      } else {
        assert out[j] == backup[j - |f|];
        assert ds[j - |f|] == out[j].date;
        assert out[i] == f[i] && keep(f[i]);
      }
    }
  }
}
