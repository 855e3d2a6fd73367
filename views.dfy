/**
 * Read-only views of the register: the status filter (app.py:174), the
 * "Pending" metric (app.py:138) and the list of Ref IDs offered for a status
 * update (app.py:180), together with how they relate to uploads and updates.
 */
module Views {
  import opened Wrappers
  import opened Sequences
  import opened Dates
  import opened Notices

  /** The choice of the status filter that shows every row. */
  const AllStatuses := "All"

  /** `df[df["Status"] == status]`: the rows with that status, in register order. */
  function WithStatus(rows: seq<Row>, status: string): (r: seq<Row>)
    ensures |r| == CountWhere(rows, StatusColumn, Some(status))
    ensures forall i :: 0 <= i < |r| ==> Field(r[i], StatusColumn) == Some(status) && r[i] in rows
    ensures forall i :: 0 <= i < |rows| && Field(rows[i], StatusColumn) == Some(status) ==> rows[i] in r
  {
    if rows == [] then []
    else (if Field(rows[0], StatusColumn) == Some(status) then [rows[0]] else []) + WithStatus(rows[1..], status)
  }

  lemma {:induction false} WithStatusIsSubsequence(rows: seq<Row>, status: string)
    ensures IsSubsequence(WithStatus(rows, status), rows)
    decreases |rows|
  {
    if rows != [] {
      WithStatusIsSubsequence(rows[1..], status);
      var rest := WithStatus(rows[1..], status);
      if Field(rows[0], StatusColumn) == Some(status) {
        assert ([rows[0]] + rest)[1..] == rest;
      } else {
        assert WithStatus(rows, status) == rest;
        if rest != [] {
          assert IsSubsequence(rest, rows[1..]);
        }
      }
    }
  }

  /** Filtering a concatenation filters each part; so no row of one part moves into the other. */
  lemma {:induction false} WithStatusAppend(a: seq<Row>, b: seq<Row>, status: string)
    ensures WithStatus(a + b, status) == WithStatus(a, status) + WithStatus(b, status)
    decreases |a|
  {
    if a == [] {
      assert a + b == b;
    } else {
      assert (a + b)[1..] == a[1..] + b;
      WithStatusAppend(a[1..], b, status);
    }
  }

  /** The register table under the chosen status filter. */
  function FilterView(rows: seq<Row>, choice: string): seq<Row> {
    if choice == AllStatuses then rows else WithStatus(rows, choice)
  }

  /**
   * "All" shows the register as it is; any other choice shows, in order,
   * exactly the rows whose status is that choice.
   */
  lemma FilterViewMeaning(rows: seq<Row>, choice: string)
    ensures choice == AllStatuses ==> FilterView(rows, choice) == rows
    ensures IsSubsequence(FilterView(rows, choice), rows)
    ensures choice != AllStatuses ==> forall row :: row in FilterView(rows, choice) <==>
      row in rows && Field(row, StatusColumn) == Some(choice)
    ensures choice != AllStatuses ==>
      |FilterView(rows, choice)| == CountWhere(rows, StatusColumn, Some(choice))
  {
    if choice == AllStatuses {
      SubsequenceOfSelf(rows);
    } else {
      WithStatusIsSubsequence(rows, choice);
    }
  }

  /** Number of rows whose `column` holds `value` (`None` counting the rows where it is missing). */
  function CountWhere(rows: seq<Row>, column: string, value: Option<string>): (n: nat)
    ensures n <= |rows|
    ensures n == 0 <==> forall i :: 0 <= i < |rows| ==> Field(rows[i], column) != value
  {
    if rows == [] then 0
    else (if Field(rows[0], column) == value then 1 else 0) + CountWhere(rows[1..], column, value)
  }

  lemma {:induction false} CountWhereAppend(a: seq<Row>, b: seq<Row>, column: string, value: Option<string>)
    ensures CountWhere(a + b, column, value) == CountWhere(a, column, value) + CountWhere(b, column, value)
    decreases |a|
  {
    if a == [] {
      assert a + b == b;
    } else {
      assert (a + b)[1..] == a[1..] + b;
      CountWhereAppend(a[1..], b, column, value);
    }
  }

  /** The "Pending" metric: `(df["Status"] == "Pending").sum()`. */
  function PendingCount(rows: seq<Row>): (n: nat)
    ensures n <= |rows|
    ensures n == 0 <==> forall i :: 0 <= i < |rows| ==> Field(rows[i], StatusColumn) != Some(Pending)
  {
    CountWhere(rows, StatusColumn, Some(Pending))
  }

  /** The metric counts the same rows the "Pending" filter shows. */
  lemma {:induction false} PendingCountIsFilterSize(rows: seq<Row>)
    ensures PendingCount(rows) == |FilterView(rows, Pending)|
  {
  }

  /** Every uploaded record arrives as "Pending", so an upload raises the metric by the batch size. */
  lemma UploadAddsPending(notices: seq<Row>, extracted: seq<Row>, today: CalendarDate)
    ensures PendingCount(notices + Defaults(extracted, today)) == PendingCount(notices) + |extracted|
  {
    var batch := Defaults(extracted, today);
    CountWhereAppend(notices, batch, StatusColumn, Some(Pending));
    AllPendingCount(batch);
  }

  lemma {:induction false} AllPendingCount(batch: seq<Row>)
    requires forall i :: 0 <= i < |batch| ==> Field(batch[i], StatusColumn) == Some(Pending)
    ensures PendingCount(batch) == |batch|
    decreases |batch|
  {
    if batch != [] {
      AllPendingCount(batch[1..]);
    }
  }

  /** After an upload the "Pending" view is the old one followed by the whole stamped batch. */
  lemma UploadPendingView(notices: seq<Row>, extracted: seq<Row>, today: CalendarDate)
    ensures FilterView(notices + Defaults(extracted, today), Pending)
         == FilterView(notices, Pending) + Defaults(extracted, today)
  {
    var batch := Defaults(extracted, today);
    WithStatusAppend(notices, batch, Pending);
    AllPendingView(batch);
  }

  lemma {:induction false} AllPendingView(batch: seq<Row>)
    requires forall i :: 0 <= i < |batch| ==> Field(batch[i], StatusColumn) == Some(Pending)
    ensures WithStatus(batch, Pending) == batch
    decreases |batch|
  {
    if batch != [] {
      AllPendingView(batch[1..]);
    }
  }

  /**
   * Uploads never merge rows: for every Ref ID, and for the missing one, the
   * register afterwards holds as many rows with it as before plus as many as
   * the upload brought.
   */
  lemma UploadKeepsEveryRow(notices: seq<Row>, extracted: seq<Row>, today: CalendarDate, ref: Option<string>)
    ensures |notices + Defaults(extracted, today)| == |notices| + |extracted|
    ensures CountWhere(notices + Defaults(extracted, today), RefIdColumn, ref)
         == CountWhere(notices, RefIdColumn, ref) + CountWhere(extracted, RefIdColumn, ref)
  {
    var batch := Defaults(extracted, today);
    CountWhereAppend(notices, batch, RefIdColumn, ref);
    SameRefCount(batch, extracted, ref);
  }

  lemma {:induction false} SameRefCount(a: seq<Row>, b: seq<Row>, ref: Option<string>)
    requires |a| == |b|
    requires forall i :: 0 <= i < |a| ==> SameExtractedFields(a[i], b[i])
    ensures CountWhere(a, RefIdColumn, ref) == CountWhere(b, RefIdColumn, ref)
    decreases |a|
  {
    if a != [] {
      assert Field(a[0], RefIdColumn) == Field(b[0], RefIdColumn) by {
        assert SameExtractedFields(a[0], b[0]);
      }
      SameRefCount(a[1..], b[1..], ref);
    }
  }

  /** `view_df["Ref ID"].dropna()`: the Ref IDs that are present, in row order. */
  function PresentRefs(rows: seq<Row>): (r: seq<string>)
    ensures |r| == |rows| - CountWhere(rows, RefIdColumn, None)
    ensures forall x :: x in r <==> exists i :: 0 <= i < |rows| && Field(rows[i], RefIdColumn) == Some(x)
  {
    if rows == [] then []
    else
      var rest := PresentRefs(rows[1..]);
      assert forall i :: 0 <= i < |rows| - 1 ==> rows[1..][i] == rows[i + 1];
      match Field(rows[0], RefIdColumn)
      case Some(x) => [x] + rest
      case None => rest
  }

  /** A single row contributes its Ref ID when it has one, and nothing otherwise. */
  lemma PresentRefsOfRow(row: Row)
    ensures Field(row, RefIdColumn).None? ==> PresentRefs([row]) == []
    ensures Field(row, RefIdColumn).Some? ==> PresentRefs([row]) == [Field(row, RefIdColumn).value]
  {
    assert [row][1..] == [];
  }

  /**
   * `dropna` keeps row order and repeated Ref IDs: the Ref IDs of a
   * concatenation are those of each part, one after the other.
   */
  lemma {:induction false} PresentRefsAppend(a: seq<Row>, b: seq<Row>)
    ensures PresentRefs(a + b) == PresentRefs(a) + PresentRefs(b)
    decreases |a|
  {
    if a == [] {
      assert a + b == b;
    } else {
      assert (a + b)[1..] == a[1..] + b;
      PresentRefsAppend(a[1..], b);
    }
  }

  /**
   * `view_df["Ref ID"].dropna().unique()`: every Ref ID present in the view,
   * each once, in the order of its first appearance.
   */
  function RefList(view: seq<Row>): (r: seq<string>)
    ensures NoDuplicates(r)
    ensures forall x :: x in r <==> exists i :: 0 <= i < |view| && Field(view[i], RefIdColumn) == Some(x)
    ensures forall i :: 0 <= i < |r| ==> IndexOf(PresentRefs(view), r[i]).Some?
    ensures forall i, j :: 0 <= i < j < |r| ==>
      IndexOf(PresentRefs(view), r[i]).value < IndexOf(PresentRefs(view), r[j]).value
  {
    Distinct(PresentRefs(view))
  }

  /**
   * A Ref ID offered for selection names at least one row of the whole
   * register, whatever the filter, so the update then changes at least that row.
   */
  lemma SelectableRefMatches(rows: seq<Row>, choice: string, ref: string)
    requires ref in RefList(FilterView(rows, choice))
    ensures MatchingRows(rows, ref) != {}
  {
    var view := FilterView(rows, choice);
    var i :| 0 <= i < |view| && Field(view[i], RefIdColumn) == Some(ref);
    FilterViewMeaning(rows, choice);
    assert view[i] in rows;
    var j :| 0 <= j < |rows| && rows[j] == view[i];
    assert j in MatchingRows(rows, ref);
  }

  /**
   * Uploading the same notice twice (Ref ID "ASMT-1", GSTIN "X" then "Y")
   * leaves two rows, both "Pending"; closing "ASMT-1" then closes both.
   */
  lemma ReuploadScenario(today: CalendarDate, later: CalendarDate)
    ensures
      var first: Row := map[RefIdColumn := Some("ASMT-1"), "GSTIN" := Some("X")];
      var second: Row := map[RefIdColumn := Some("ASMT-1"), "GSTIN" := Some("Y")];
      var register := Defaults([first], today) + Defaults([second], today);
      var closed := StatusUpdated(register, "ASMT-1", "Closed", Format(later));
      && |register| == 2
      && PendingCount(register) == 2
      && Field(register[0], "GSTIN") == Some("X") && Field(register[1], "GSTIN") == Some("Y")
      && |closed| == 2
      && Field(closed[0], StatusColumn) == Some("Closed") && Field(closed[1], StatusColumn) == Some("Closed")
      && PendingCount(closed) == 0
  {
    var first: Row := map[RefIdColumn := Some("ASMT-1"), "GSTIN" := Some("X")];
    var second: Row := map[RefIdColumn := Some("ASMT-1"), "GSTIN" := Some("Y")];
    var register := Defaults([first], today) + Defaults([second], today);
    UploadAddsPending(Defaults([first], today), [second], today);
    assert PendingCount(Defaults([first], today)) == 1;
    assert "GSTIN" != StatusColumn && "GSTIN" != LastUpdatedColumn;
    assert Field(register[0], RefIdColumn) == Some("ASMT-1");
    assert Field(register[1], RefIdColumn) == Some("ASMT-1");
  }

  /**
   * Every row of the register has one of the four statuses, so the four
   * status filters split it: their sizes add up to the number of rows.
   */
  lemma {:induction false} StatusViewsPartition(rows: seq<Row>)
    requires forall i :: 0 <= i < |rows| ==> IsTracked(rows[i])
    ensures |WithStatus(rows, "Pending")| + |WithStatus(rows, "In Progress")|
          + |WithStatus(rows, "Replied")| + |WithStatus(rows, "Closed")| == |rows|
    decreases |rows|
  {
    if rows != [] {
      StatusViewsPartition(rows[1..]);
    }
  }

  /** The register invariant of `Tracker` makes the four status views split the register. */
  lemma TrackerViewsPartition(t: Tracker)
    requires t.Valid()
    ensures |FilterView(t.notices, "Pending")| + |FilterView(t.notices, "In Progress")|
          + |FilterView(t.notices, "Replied")| + |FilterView(t.notices, "Closed")| == |t.notices|
  {
    StatusViewsPartition(t.notices);
  }
}
