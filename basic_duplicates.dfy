/** `duplicates(df, tbuffer)` of basic.py: flags each row of a text or call log that
    looks like a copy of the row after it. */
module BasicDuplicates {
  import opened Results

  /** The four leading columns of a log row: the timestamp (column 0) and the metadata
      columns 1, 2 and 3 that the comparison reads. */
  datatype Row = Row(ts: int, c1: string, c2: string, c3: string)

  /** Rows `i` and `i + 1` pass the time test `ts[i] - ts[i + 1] < tbuffer`. */
  predicate Close(rows: seq<Row>, i: int, tbuffer: int)
    requires 0 <= i < |rows| - 1
  {
    rows[i].ts - rows[i + 1].ts < tbuffer
  }

  /** Rows `i` and `i + 1` agree in columns 1, 2 and 3. */
  predicate Same(rows: seq<Row>, i: int)
    requires 0 <= i < |rows| - 1
  {
    rows[i].c1 == rows[i + 1].c1 && rows[i].c2 == rows[i + 1].c2 && rows[i].c3 == rows[i + 1].c3
  }

  /** The first row fails the time test, so `test` is read before it is ever assigned. */
  predicate FirstTestUnbound(rows: seq<Row>, tbuffer: int) {
    |rows| >= 2 && !Close(rows, 0, tbuffer)
  }

  /** What the flags mean: one per row; the last is false; a row that passes the time
      test is flagged exactly when its metadata equals the next row's; a row that fails
      it repeats the flag of the row before. */
  predicate IsDupFlags(rows: seq<Row>, tbuffer: int, flags: seq<bool>) {
    && |flags| == |rows|
    && (|rows| > 0 ==> !flags[|rows| - 1])
    && (forall i :: 0 <= i < |rows| - 1 && Close(rows, i, tbuffer) ==> flags[i] == Same(rows, i))
    && (forall i :: 0 < i < |rows| - 1 && !Close(rows, i, tbuffer) ==> flags[i] == flags[i - 1])
  }

  /** The loop over the rows, carrying `test` from one iteration to the next. */
  method Duplicates(rows: seq<Row>, tbuffer: int) returns (r: Result<seq<bool>>)
    ensures r.Err? <==> FirstTestUnbound(rows, tbuffer)
    ensures r.Err? ==> r.error == UnboundLocalError
    ensures r.Ok? ==> IsDupFlags(rows, tbuffer, r.value)
  {
    var dupes: seq<bool> := [];
    var test: Option<bool> := None;
    var i := 0;
    while i < |rows|
      invariant 0 <= i <= |rows|
      invariant |dupes| == i
      invariant i > 0 <==> test.Some?
      invariant i > 0 ==> test.value == dupes[i - 1]
      invariant i >= 1 ==> !FirstTestUnbound(rows, tbuffer)
      invariant forall k :: 0 <= k < i && k < |rows| - 1 && Close(rows, k, tbuffer) ==> dupes[k] == Same(rows, k)
      invariant forall k :: 0 < k < i && k < |rows| - 1 && !Close(rows, k, tbuffer) ==> dupes[k] == dupes[k - 1]
      invariant i == |rows| && i > 0 ==> !dupes[i - 1]
    {
      if i + 1 == |rows| {
        test := Some(false);
      } else if rows[i].ts - rows[i + 1].ts < tbuffer {
        test := Some(Same(rows, i));
      }
      if test.None? {
        return Err(UnboundLocalError);
      }
      dupes := dupes + [test.value];
      i := i + 1;
    }
    return Ok(dupes);
  }

  /** The flags are determined by the rows: at most one sequence means what `IsDupFlags` says. */
  lemma {:induction false} DupFlagsUnique(rows: seq<Row>, tbuffer: int, a: seq<bool>, b: seq<bool>)
    requires !FirstTestUnbound(rows, tbuffer)
    requires IsDupFlags(rows, tbuffer, a) && IsDupFlags(rows, tbuffer, b)
    ensures a == b
  {
    forall i | 0 <= i < |rows| ensures a[i] == b[i] {
      DupFlagsAgree(rows, tbuffer, a, b, i);
    }
  }

  lemma {:induction false} DupFlagsAgree(rows: seq<Row>, tbuffer: int, a: seq<bool>, b: seq<bool>, i: int)
    requires !FirstTestUnbound(rows, tbuffer)
    requires IsDupFlags(rows, tbuffer, a) && IsDupFlags(rows, tbuffer, b)
    requires 0 <= i < |rows|
    ensures a[i] == b[i]
    decreases i
  {
    if i < |rows| - 1 && !Close(rows, i, tbuffer) && i > 0 {
      DupFlagsAgree(rows, tbuffer, a, b, i - 1);
    }
  }

  /** For rows in ascending time order (as the merged logs are) and a positive buffer,
      every row passes the time test, whatever the gap to the next row: each row is
      flagged exactly when the next row has the same metadata. */
  lemma {:induction false} AscendingComparesAll(rows: seq<Row>, tbuffer: int, flags: seq<bool>)
    requires tbuffer > 0
    requires forall i :: 0 <= i < |rows| - 1 ==> rows[i].ts <= rows[i + 1].ts
    requires IsDupFlags(rows, tbuffer, flags)
    ensures !FirstTestUnbound(rows, tbuffer)
    ensures forall i :: 0 <= i < |rows| - 1 ==> flags[i] == Same(rows, i)
  {
  }

  /** The carried-over flag: the middle row is flagged though it differs from the last
      row, because it fails the time test and repeats the first row's flag. */
  lemma {:induction false} CarryOverExample(flags: seq<bool>)
    requires IsDupFlags([Row(20000, "a", "b", "c"), Row(19000, "a", "b", "c"), Row(1000, "q", "r", "s")], 3000, flags)
    ensures flags == [true, true, false]
  {
    var rows := [Row(20000, "a", "b", "c"), Row(19000, "a", "b", "c"), Row(1000, "q", "r", "s")];
    assert Close(rows, 0, 3000) && Same(rows, 0);
    assert !Close(rows, 1, 3000);
  }
}
