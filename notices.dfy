/**
 * The notice register of the tracker: a table of rows, each mapping a column
 * name to a value or to nothing (pandas' NaN). New uploads are stamped
 * (`add_defaults`, app.py:62-65) and appended (app.py:93-105); the status of
 * every row with a given Ref ID can be rewritten (app.py:190-195).
 */
module Notices {
  import opened Wrappers
  import opened Dates
  import opened PdfText
  import opened JsonSpan

  /** One row of the register: column name to value, a missing column reading as no value. */
  type Row = map<string, Option<string>>

  const StatusColumn := "Status"
  const LastUpdatedColumn := "Last Updated"
  const RefIdColumn := "Ref ID"
  const Pending := "Pending"

  /** The statuses a notice can have: the options of the "New Status" select box (app.py:184-187). */
  const StatusChoices: seq<string> := ["Pending", "In Progress", "Replied", "Closed"]

  /** The value of a column in a row; absent and null read the same. */
  function Field(row: Row, column: string): Option<string> {
    if column in row then row[column] else None
  }

  /** `a` and `b` agree on every column except the two workflow columns. */
  ghost predicate SameExtractedFields(a: Row, b: Row) {
    forall c :: c != StatusColumn && c != LastUpdatedColumn ==> Field(a, c) == Field(b, c)
  }

  /**
   * Every row the register holds has a last-updated stamp and a status that
   * is one of the fixed choices: uploads write "Pending" and updates write an
   * option of the select box.
   */
  predicate IsTracked(row: Row) {
    && Field(row, StatusColumn).Some?
    && Field(row, StatusColumn).value in StatusChoices
    && Field(row, LastUpdatedColumn).Some?
  }

  /** One row as `add_defaults` leaves it. */
  function Stamp(row: Row, stamp: string): Row {
    row[StatusColumn := Some(Pending)][LastUpdatedColumn := Some(stamp)]
  }

  /** The batch as `add_defaults` returns it on day `today`. */
  function Defaults(batch: seq<Row>, today: CalendarDate): (r: seq<Row>)
    ensures |r| == |batch|
    ensures forall i :: 0 <= i < |r| ==>
      && Field(r[i], StatusColumn) == Some(Pending)
      && Field(r[i], LastUpdatedColumn) == Some(Format(today))
      && SameExtractedFields(r[i], batch[i])
      && r[i].Keys == batch[i].Keys + {StatusColumn, LastUpdatedColumn}
  {
    seq(|batch|, i requires 0 <= i < |batch| => Stamp(batch[i], Format(today)))
  }

  /**
   * `add_defaults`: the `Status` column set to "Pending" and the `Last Updated`
   * column to today's date on every row; nothing else changes.
   */
  method AddDefaults(batch: seq<Row>, today: CalendarDate) returns (stamped: seq<Row>)
    ensures stamped == Defaults(batch, today)
  {
    var stamp := Format(today);
    stamped := [];
    for i := 0 to |batch|
      invariant |stamped| == i
      invariant forall k :: 0 <= k < i ==> stamped[k] == Stamp(batch[k], stamp)
    {
      stamped := stamped + [Stamp(batch[i], stamp)];
    }
  }

  /** The index of `register["Ref ID"] == ref`: the rows whose Ref ID is exactly `ref`. */
  function MatchingRows(rows: seq<Row>, ref: string): set<nat> {
    set i: nat | i < |rows| && Field(rows[i], RefIdColumn) == Some(ref)
  }

  /** `register.loc[idx, column] = value`. */
  function SetColumn(rows: seq<Row>, idx: set<nat>, column: string, value: string): (r: seq<Row>)
    ensures |r| == |rows|
    ensures forall i :: 0 <= i < |rows| && i !in idx ==> r[i] == rows[i]
    ensures forall i :: 0 <= i < |rows| && i in idx ==>
      Field(r[i], column) == Some(value) && r[i] - {column} == rows[i] - {column}
  {
    seq(|rows|, i requires 0 <= i < |rows| => if i in idx then rows[i][column := Some(value)] else rows[i])
  }

  /**
   * The register after the status-update block: every row whose Ref ID is
   * `ref` gets `status` and the date stamp; every other row is untouched.
   */
  function StatusUpdated(rows: seq<Row>, ref: string, status: string, stamp: string): (r: seq<Row>)
    ensures |r| == |rows|
    ensures forall i :: 0 <= i < |rows| && Field(rows[i], RefIdColumn) != Some(ref) ==> r[i] == rows[i]
    ensures forall i :: 0 <= i < |rows| && Field(rows[i], RefIdColumn) == Some(ref) ==>
      && Field(r[i], StatusColumn) == Some(status)
      && Field(r[i], LastUpdatedColumn) == Some(stamp)
      && SameExtractedFields(r[i], rows[i])
  {
    var idx := MatchingRows(rows, ref);
    var r := SetColumn(SetColumn(rows, idx, StatusColumn, status), idx, LastUpdatedColumn, stamp);
    assert forall i :: 0 <= i < |rows| && i in idx ==> SameExtractedFields(r[i], rows[i]) by {
      forall i | 0 <= i < |rows| && i in idx
        ensures SameExtractedFields(r[i], rows[i])
      {
        var mid := SetColumn(rows, idx, StatusColumn, status);
        assert r[i] == mid[i][LastUpdatedColumn := Some(stamp)];
        assert mid[i] == rows[i][StatusColumn := Some(status)];
      }
    }
    r
  }

  /** A Ref ID that no row carries selects no row, so the register stays exactly as it was. */
  lemma UpdateUnknownRefIsIdentity(rows: seq<Row>, ref: string, status: string, stamp: string)
    requires forall i :: 0 <= i < |rows| ==> Field(rows[i], RefIdColumn) != Some(ref)
    ensures StatusUpdated(rows, ref, status, stamp) == rows
  {
  }

  /** A status update never changes any row's Ref ID, so it selects the same rows afterwards. */
  lemma UpdateKeepsRefIds(rows: seq<Row>, ref: string, status: string, stamp: string, other: string)
    ensures MatchingRows(StatusUpdated(rows, ref, status, stamp), other) == MatchingRows(rows, other)
  {
  }

  /** Two updates of the same Ref ID in a row leave what the second alone would: the last one wins. */
  lemma UpdateLastWins(rows: seq<Row>, ref: string, s1: string, t1: string, s2: string, t2: string)
    ensures StatusUpdated(StatusUpdated(rows, ref, s1, t1), ref, s2, t2) == StatusUpdated(rows, ref, s2, t2)
  {
    var once := StatusUpdated(rows, ref, s1, t1);
    var twice := StatusUpdated(once, ref, s2, t2);
    var direct := StatusUpdated(rows, ref, s2, t2);
    UpdateKeepsRefIds(rows, ref, s1, t1, ref);
    forall i | 0 <= i < |rows|
      ensures twice[i] == direct[i]
    {
      assert (i in MatchingRows(once, ref)) == (i in MatchingRows(rows, ref));
    }
  }

  /** Updating the same Ref ID to the same status on the same day a second time changes nothing. */
  lemma UpdateIdempotent(rows: seq<Row>, ref: string, status: string, stamp: string)
    ensures StatusUpdated(StatusUpdated(rows, ref, status, stamp), ref, status, stamp)
         == StatusUpdated(rows, ref, status, stamp)
  {
    UpdateLastWins(rows, ref, status, stamp, status, stamp);
  }

  /**
   * The session state of the tracker (`st.session_state`): the register of
   * all notices and the rows of the most recent upload.
   */
  class Tracker {
    var notices: seq<Row>
    var latestUpload: seq<Row>

    ghost predicate Valid()
      reads this
    {
      forall i :: 0 <= i < |notices| ==> IsTracked(notices[i])
    }

    /** Both tables start empty (app.py:23-27). */
    constructor ()
      ensures Valid()
      ensures notices == [] && latestUpload == []
    {
      notices := [];
      latestUpload := [];
    }

    /**
     * Processing an upload whose extracted records are `extracted`: the stamped
     * batch becomes the latest upload and is appended to the register. Rows are
     * never merged, whatever their Ref IDs.
     */
    method ProcessUpload(extracted: seq<Row>, today: CalendarDate)
      requires Valid()
      modifies this
      ensures Valid()
      ensures latestUpload == Defaults(extracted, today)
      ensures notices == old(notices) + latestUpload
    {
      var latest := AddDefaults(extracted, today);
      latestUpload := latest;
      if |notices| == 0 {
        notices := latest;
      } else {
        notices := notices + latest;
      }
    }

    /**
     * The upload block (app.py:80-105). The texts of the files go to the
     * extraction assistant, whose reply is searched for a JSON array and
     * parsed. When `parse` fails the upload stops and nothing is recorded;
     * with no files nothing happens at all.
     */
    method HandleUpload(files: seq<Upload>, assistant: seq<SourceText> -> string,
                        parse: string -> Option<seq<Row>>, today: CalendarDate)
      returns (texts: seq<SourceText>, extracted: Option<seq<Row>>)
      requires Valid()
      modifies this
      ensures Valid()
      ensures |texts| == |files|
      ensures forall i :: 0 <= i < |files| ==>
        texts[i] == SourceText(files[i].name, DocumentText(files[i].pages))
      ensures extracted == (if |files| == 0 then None else ExtractRecords(assistant(texts), parse))
      ensures extracted.None? ==> notices == old(notices) && latestUpload == old(latestUpload)
      ensures extracted.Some? ==>
        (latestUpload == Defaults(extracted.value, today) && notices == old(notices) + latestUpload)
    {
      texts, extracted := [], None;
      if |files| > 0 {
        texts := CollectTexts(files);
        extracted := ExtractRecords(assistant(texts), parse);
        if extracted.Some? {
          ProcessUpload(extracted.value, today);
        }
      }
    }

    /** The "Update Status" button: every row with Ref ID `selectedRef` gets `newStatus`, stamped `today`. */
    method UpdateStatus(selectedRef: string, newStatus: string, today: CalendarDate)
      requires Valid()
      requires newStatus in StatusChoices
      modifies this`notices
      ensures Valid()
      ensures notices == StatusUpdated(old(notices), selectedRef, newStatus, Format(today))
    {
      var idx := MatchingRows(notices, selectedRef);
      notices := SetColumn(notices, idx, StatusColumn, newStatus);
      notices := SetColumn(notices, idx, LastUpdatedColumn, Format(today));
    }
  }
}
