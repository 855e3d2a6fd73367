# GST litigation tracker: the notice register, verified

The tracker reads uploaded GST notice PDFs, sends their text to an extraction
assistant, pulls the JSON array out of the assistant's reply and keeps the
extracted notices in a register held in the session. Each notice row gets a
`Status` ("Pending" at first) and a `Last Updated` date. While the register is
non-empty, a dashboard shows how many of its rows are pending. The register
view filters the rows by status and has a status-update block that sets a new
status on every row with a chosen Ref ID.

This project models that logic in Dafny and proves what it does:

- `pdf_text.dfy` (module `PdfText`): a document's text is its page texts
  joined with no separator, then stripped; the upload loop pairs each file
  name with that text.
- `json_span.dfy` (module `JsonSpan`): the greedy, DOTALL search for
  `\[.*\]` in the reply. It selects the first `[` through the last `]`, with
  an empty list when nothing matches. `json.loads` is a parameter.
- `dates.dfy` (module `Dates`): the `%d-%m-%Y` stamp written to
  `Last Updated`.
- `notices.dfy` (module `Notices`): rows as `map<string, Option<string>>`,
  `add_defaults`, and the class `Tracker`. It replaces `st.session_state`
  and has one method per state change: the upload block, the stamping and
  append of a batch, and the status update.
- `views.dfy` (module `Views`): the status filter, the "Pending" metric and
  the Ref ID list, plus lemmas on how they change after uploads and updates.
- `sequences.dfy`, `wrappers.dfy`: first/last index, subsequence and
  first-appearance de-duplication; `Option`.

The current date is a parameter (`today: CalendarDate`) in place of
`datetime.now()`. The page texts of a PDF are a given `seq<string>`. The
extraction assistant is a function from the batch of texts to its reply.

### What the code does not do

- Uploads are a plain append. There is no upsert by Ref ID. Each upload
  adds its own row at "Pending"; an earlier row with the same Ref ID stays
  as well and keeps its status (`Views.UploadKeepsEveryRow`,
  `Views.ReuploadScenario`).
- The status update changes every row whose Ref ID equals the chosen one.
  An unknown Ref ID is not an error: the register stays the same
  (`Notices.UpdateUnknownRefIsIdentity`). The code does not check the new
  status itself; the select box offers only the four fixed statuses, and
  `Notices.Tracker.UpdateStatus` requires one of them.
- The reply is searched for the first `[` and the last `]`, not for a
  bracket-matched array. If `json.loads` fails, the upload stops with an
  error instead of giving an empty result (`JsonSpan.ExtractRecords`,
  `Notices.Tracker.HandleUpload`).
- An unreadable PDF is not skipped: the error ends the upload. The model
  receives page texts, so this case cannot arise in it.

## Model

| member | source | states |
|---|---|---|
| `PdfText.Strip` | app.py:35 | the result is no longer than the input; it is empty exactly when the input is all whitespace; otherwise it starts and ends with non-whitespace; and it is a slice of the input with only whitespace cut from each end |
| `PdfText.StripIsTheTrimmedSlice` | app.py:35 | any slice with only whitespace outside it and non-whitespace at both of its ends is exactly `Strip`'s result, so `Strip` is the unique trim |
| `PdfText.StripIdempotent` | app.py:35 | stripping an already stripped text changes nothing |
| `PdfText.ConcatAppend` | app.py:31-34 | joining pages with no separator distributes over concatenating page lists |
| `PdfText.ConcatSplit` | app.py:31-34 | page i appears whole in the joined text, after all earlier pages and before all later ones; the lengths add up |
| `PdfText.ExtractTextFromPdf` | app.py:30-35 | the page loop `text += page` followed by `strip` returns `Strip(Concat(pages))` |
| `PdfText.CollectTexts` | app.py:82-91 | one entry per uploaded file, in upload order, holding the file name and that file's document text |
| `JsonSpan.LocateSpan` | app.py:59 | no result exactly when no `[` has a `]` after it; otherwise the result bounds a match and it is the one `re.search` reports: leftmost start, then longest |
| `JsonSpan.LeftmostGreedyUnique` | app.py:59 | at most one match is leftmost-then-longest, so the reported match is determined |
| `JsonSpan.FindArraySpan` | app.py:59-60 | no span exactly when nothing matches; otherwise the span has at least two characters, begins with `[`, ends with `]`, and occurs in the text with no `[` before it and no `]` after it |
| `JsonSpan.NoBracketNoSpan` | app.py:59-60 | a reply with no `[`, such as plain prose, yields no span |
| `JsonSpan.ExtractRecords` | app.py:59-60 | when no `[` in the reply has a `]` after it, the records are the empty list; when `p..q` is the leftmost-then-longest match, they are what parsing `reply[p..q + 1]` gives |
| `Dates.Format` | app.py:64 | ten characters `dd-mm-yyyy`: digits with dashes at positions 2 and 5; the three digit groups denote day, month and year |
| `Dates.FormatInjective` | app.py:64 | two different dates never get the same stamp |
| `Notices.Defaults` | app.py:62-65 | as many rows as the batch; each has `Status` "Pending" and the same `Last Updated` date; every other column is unchanged; the workflow columns are added to each row's columns |
| `Notices.AddDefaults` | app.py:62-65 | stamping the batch row by row in a loop yields `Defaults` of the batch |
| `Notices.SetColumn` | app.py:194-195 | `.loc[idx, column] = value`: same length; rows outside `idx` are untouched; rows in `idx` hold the value in that column and are unchanged in every other column |
| `Notices.StatusUpdated` | app.py:190-195 | same length; rows whose Ref ID is not the chosen one are unchanged; each matching row gets the new status and the date stamp, and keeps all its other fields |
| `Notices.UpdateUnknownRefIsIdentity` | app.py:190-195 | a Ref ID that no row carries leaves the register identical |
| `Notices.UpdateKeepsRefIds` | app.py:190-195 | a status update changes no Ref ID, so any ref then selects the same rows as before |
| `Notices.UpdateLastWins` | app.py:190-195 | two updates of the same ref in a row equal the second update alone |
| `Notices.UpdateIdempotent` | app.py:190-195 | repeating the same update changes nothing more |
| `Notices.Tracker.constructor` | app.py:23-27 | the register and the latest upload both start empty |
| `Notices.Tracker.ProcessUpload` | app.py:93-105 | the latest upload becomes the stamped batch; the register becomes the old register followed by that batch; that is the batch itself when the register was empty; every row keeps a date and one of the four statuses |
| `Notices.Tracker.HandleUpload` | app.py:80-105 | with no files, nothing happens; otherwise each file's text goes to the assistant in upload order and the reply is searched and parsed; a failed parse changes no state; a successful one appends the stamped records |
| `Notices.Tracker.UpdateStatus` | app.py:184-195 | for a new status from the select box's four options, the register becomes `StatusUpdated` of the old register for the chosen ref, status and today's stamp; every row keeps a date and one of the four statuses |
| `Views.WithStatus` | app.py:174 | as many rows as the register has rows with the chosen status, duplicates included; every row shown has the chosen status and comes from the register; every register row with that status is shown |
| `Views.WithStatusIsSubsequence` | app.py:174 | the rows shown keep their register order |
| `Views.WithStatusAppend` | app.py:174 | filtering a concatenation is the concatenation of the filtered parts |
| `Views.FilterViewMeaning` | app.py:174 | "All" shows the register unchanged; any view keeps register order; any other choice shows exactly the register rows with that status, each as often as the register holds it |
| `Views.CountWhere` | app.py:138 | the count is at most the number of rows, and it is zero exactly when no row holds the value |
| `Views.CountWhereAppend` | app.py:138 | counts add over concatenation |
| `Views.PendingCount` | app.py:138 | the "Pending" metric is at most the register length, and it is zero exactly when no row is "Pending" |
| `Views.PendingCountIsFilterSize` | app.py:138 | the metric equals the number of rows the "Pending" filter shows |
| `Views.UploadAddsPending` | app.py:99-105 | an upload raises the "Pending" metric by exactly the number of uploaded records |
| `Views.UploadPendingView` | app.py:99-105 | after an upload the "Pending" view is the old view followed by the whole stamped batch |
| `Views.UploadKeepsEveryRow` | app.py:99-105 | an upload never merges rows: for every Ref ID, and for a missing one, the count of rows with it grows by the count in the upload |
| `Views.PresentRefs` | app.py:180 | `dropna` keeps exactly the Ref IDs present in some row, one entry per row that has a Ref ID |
| `Views.PresentRefsOfRow` | app.py:180 | a single row contributes its Ref ID when it has one, and nothing when it is missing |
| `Views.PresentRefsAppend` | app.py:180 | the Ref IDs of a concatenation are those of each part in order, so `dropna` keeps row order and repeats |
| `Sequences.Distinct` | app.py:180 | no duplicates; the same elements as the input; elements appear in the order of their first occurrence |
| `Views.RefList` | app.py:180 | the offered Ref IDs have no duplicates; they are exactly the Ref IDs present in the view; they are in first-appearance order |
| `Views.SelectableRefMatches` | app.py:180-192 | a Ref ID offered under any filter selects at least one row of the whole register |
| `Views.StatusViewsPartition` | app.py:171-174 | when every row has one of the four statuses, the four status filters together show each row exactly once: their sizes add up to the register length |
| `Views.TrackerViewsPartition` | app.py:171-174 | the tracker's invariant gives that split for its register |
| `Views.ReuploadScenario` | app.py:99-105 | uploading the same Ref ID twice leaves two "Pending" rows, each with its own GSTIN; closing that Ref ID closes both, and no row is left pending |

## Left out

- Streamlit UI: page config, widgets, buttons, spinners, success messages and table display. The two session tables are fields of `Notices.Tracker`; the widgets' choices are method parameters.
- The "Total Notices" metric (app.py:135): it is the register length, with nothing to prove.
- The assistant call and its prompt (app.py:38-57): a network call to a foreign library. The model takes the assistant as a function from the batch texts to the reply text, so the fixed prompt wording and `json.dumps` are omitted.
- `json.loads` (app.py:60): a foreign parser, passed to `JsonSpan.ExtractRecords` as a function; `None` stands for the exception it raises. What the parsed JSON holds is taken to be rows already.
- PDF parsing with `fitz`, writing the temporary file and `os.remove` (app.py:85-91, app.py:32-33): foreign I/O. A document is its sequence of page texts.
- The Excel export (app.py:113-123) and the status pie chart with its `value_counts` (app.py:141-159): export formatting and rendering.
- `datetime.now()` (app.py:64, app.py:195): the date is a parameter.
- `PdfText.Strip`: treats only the ASCII whitespace that `str.isspace` accepts (space, `\t` to `\r`, `\x1c` to `\x1f`); Unicode whitespace is not modelled.
- `Dates.Format`: covers years 1000 to 9999 only, because how `%Y` pads shorter years depends on the platform.
- pandas details: an absent column and a NaN both read as `None`. The `KeyError` pandas raises when no row has a `Ref ID` column is not modelled; such a register simply has no matching row.
- `Notices.AddDefaults`: builds the stamped batch instead of overwriting the caller's frame in place. The caller reassigns the result (app.py:95), so no aliasing is visible.
- `Notices.Tracker.UpdateStatus`: the model keeps the two session tables as separate values. In the code, an upload into an empty register binds `latest_upload` and `notices_df` to the same frame (app.py:97, app.py:100). The in-place `.loc` writes (app.py:194-195) then rewrite `latest_upload` as well. Nothing reads `latest_upload` afterwards.
- Streamlit's rerun model: the "Update Status" button (app.py:189) is nested inside another button (app.py:164). A button is true only in the run its own click starts, so lines 190-195 may never run in practice. The file uploader also keeps its files across reruns, so a later interaction can append the same batch again. The model treats each upload and each update as one explicit call.
