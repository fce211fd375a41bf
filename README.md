# Dash dashboard data flow, modelled in Dafny

This project models the data flow of a small Dash dashboard. A user uploads CSV or Excel files. The files are decoded and concatenated into one data frame, which is kept in a client-side store. Filter controls are derived from that frame: a date range and a user drop-down. A data table shows the stored records, filtered once the user presses Submit. A tab bar switches between the Overview page and a placeholder.

Modules:

- `Outcomes` (outcomes.dfy) holds `Result<T> = Ok(value) | Raised(exn)`. It stands for a value, or the Python exception that escapes a callback.
- `Strings` (strings.dfy) holds Python's `sub in s`, `s.split(sep)`, `sep.join(parts)` and the str order `a < b`, with their properties.
- `Frames` (frames.dfy) holds rows, tables and the upload fragment, plus the pandas operations used (`unique`, `min`, `max` and `concat`) and Python's builtin `sorted`.
- `Overview` (overview.dfy) holds `parse_contents`, the shared decode loop, `to_store_df`, `update_output` and `update_table`.
- `Index` (index.dfy) holds the tab ids and `switch_tab`.

A record (`Frames.Row`) has four parts:

- `date`: the `Date` column, as an ordinal day;
- `user`: the `User` column;
- `filename`: the provenance column;
- a map from every other column label to its cell.

A table has its column labels and its records in order. `Fragment = Frame(table) | ErrorMarker` is what `parse_contents` returns: a data frame, or the `html.Div` error message.

Foreign calls are function-valued fields of `Overview.Decoders`: base64 decoding, UTF-8 decoding with `pd.read_csv`, and `pd.read_excel`. In each, `None` means the call raised. The uploads' contents, names and timestamps are parameters.

Two details of `parse_contents` (overview_1.py:210-231) shape the model:

- A file name with neither "csv" nor "xls" leaves `df` unbound. Line 223 then raises `UnboundLocalError` inside the `try`, so the decoder returns the error marker.
- `contents.split(',')` splits at every comma and unpacks the pieces into two names. Any comma count other than one raises, and it does so outside the `try`.

## Model

| member | source | states |
|---|---|---|
| `Strings.Contains` | overview_1.py:215 | `sub in s` is true exactly when `sub` occurs at some index of `s` |
| `Strings.Split` | overview_1.py:211 | `s.split(sep)` yields at least one piece, and no piece contains `sep` |
| `Strings.JoinSplit` | overview_1.py:211 | joining the pieces of a split with the separator gives back the string |
| `Strings.SplitJoin` | overview_1.py:211 | splitting the join of separator-free pieces gives back the pieces |
| `Strings.SplitLength` | overview_1.py:211 | `s.split(sep)` has one more piece than `s` has separators |
| `Strings.LessTransitive` | overview_1.py:118 | the str order used by `sorted` is transitive |
| `Strings.Less` | overview_1.py:118 | the str order used by `sorted` never relates a string to itself |
| `Strings.LessTotal` | overview_1.py:118 | any two different strings are ordered one way or the other |
| `Frames.Users` | overview_1.py:117 | the `User` column holds one entry per record, the record's user, in record order |
| `Frames.FirstIndex` | overview_1.py:117 | the position of a value's first appearance in a column: the value is there and nowhere before it |
| `Frames.Unique` | overview_1.py:117 | `unique()` lists every value of the column, each only once, in the order of first appearance |
| `Frames.Sorted` | overview_1.py:118 | `sorted` returns a permutation of its input in non-decreasing order |
| `Frames.SortedDistinctIsStrict` | overview_1.py:118 | sorting values that are all different gives a strictly increasing list |
| `Frames.StrictlySortedUnique` | overview_1.py:118 | two strictly increasing lists with the same values are equal, so the option list is the only sorted listing of the users |
| `Frames.MinDate` | overview_1.py:113 | the minimum is NaT exactly for an empty column; otherwise it is at most every date and equals some record's date |
| `Frames.MaxDate` | overview_1.py:114 | the maximum is NaT exactly for an empty column; otherwise it is at least every date and equals some record's date |
| `Frames.Concat` | overview_1.py:81 | `pd.concat` succeeds exactly when its list is non-empty and holds no error marker; an empty list raises ValueError and a marker raises TypeError |
| `Frames.ConcatContents` | overview_1.py:81 | the concatenation holds as many records as the frames together; each frame's records form one block, in order; the columns are the labels of all frames in order of first appearance, each once |
| `Overview.DetectFormat` | overview_1.py:215-221 | the name is read as CSV exactly when it contains "csv", and as Excel exactly when it contains "xls" but not "csv" |
| `Overview.TagWithFilename` | overview_1.py:223 | tagging keeps the number of records and sets every record's filename; the existing labels keep their order, and "filename" is appended only when missing |
| `Overview.ParseContents` | overview_1.py:210-231 | only UnpackError and Base64Error escape; a decoded frame has a recognised format, a "filename" column, and every record carries the upload's name |
| `Overview.OneCommaSplitsInTwo` | overview_1.py:211 | the unpacking into header and payload succeeds exactly when the data URL has one comma; the two parts are then the text around it |
| `Overview.ParseRaisesOnlyBeforeTry` | overview_1.py:210-229 | the decoder raises UnpackError exactly when the comma count is not one, and Base64Error exactly when the payload does not decode; nothing else escapes |
| `Overview.CsvCheckedFirst` | overview_1.py:215-221 | a name containing "csv" is read as CSV, even if it also contains "xls" |
| `Overview.CsvWinsOverXlsExample` | overview_1.py:215-221 | "report.xls.csv" is read as CSV |
| `Overview.UnrecognisedNameGivesErrorMarker` | overview_1.py:215-229 | a name with neither substring gives the error marker once the payload decodes |
| `Overview.ParsedFrameIsTagged` | overview_1.py:210-223 | a decoded frame comes from a data URL with one comma, a decodable payload and a recognised format; it is exactly the chosen reader's frame tagged with the upload's name |
| `Overview.CaughtFailureGivesErrorMarker` | overview_1.py:213-229 | once the payload decodes nothing escapes; the result is the error marker exactly when the name has no known format or the chosen reader fails |
| `Overview.Zip` | overview_1.py:78 | uploads are paired with names up to the shorter list, position by position |
| `Overview.DecodeAll` | overview_1.py:77-79 | on success there is one fragment per paired upload; the only exceptions are UnpackError and Base64Error |
| `Overview.DecodeAllSpec` | overview_1.py:77-79 | the decode loop succeeds exactly when every upload decodes, and then holds each upload's fragment at its position; otherwise it raises what the first failing upload raised |
| `Overview.DecodeAllStopsAtRaise` | overview_1.py:78-79 | once one upload raises, the remaining uploads change nothing |
| `Overview.CollectFragments` | overview_1.py:77-79 | the `for` loop that appends to `small_dfs` computes the decode-all result |
| `Overview.Combine` | overview_1.py:76-81 | a combined frame needs at least one paired upload; the only exceptions are the two decoding ones, ValueError from an empty concat and TypeError from an error marker |
| `Overview.CombineSpec` | overview_1.py:76-85 | the combined frame exists exactly when at least one upload is paired with a name and every pair decodes to a data frame; it then holds every file's records, file after file, and as many records as the files together |
| `Overview.StoredData` | overview_1.py:75-89 | without an upload the store gets ""; with an upload a frame is stored exactly when at least one file is paired with a name and every paired file decodes to a data frame |
| `Overview.ToStoreDf` | overview_1.py:75-89 | `to_store_df` stores "" without an upload, and otherwise the combined frame or the exception raised while combining |
| `Overview.StoredRowsAreUploadedRows` | overview_1.py:76-87 | a stored frame holds exactly the uploaded records in upload order; their count is the sum of the files' counts; every upload decoded |
| `Overview.ErrorMarkerFailsStore` | overview_1.py:79-81 | one file that decodes to the error marker makes `to_store_df` raise |
| `Overview.UserOptions` | overview_1.py:118 | options carry label equal to value and are strictly increasing; their values are exactly the users in the data |
| `Overview.DeriveFilters` | overview_1.py:112-152 | the date picker's start, minimum and initial month are the frame's least date and its end and maximum the greatest (NaT when empty); options list each user once in sorted order with label equal to value; the selection is every user once, in order of first appearance; the counter starts at zero |
| `Overview.UploadPanel` | overview_1.py:102-166 | without an upload both panel outputs are ""; with an upload the panel is shown exactly when the store succeeds and there is an upload time; it then reports the first file's name and time and the filters derived from the stored frame |
| `Overview.UpdateOutput` | overview_1.py:102-166 | the method, with its own decode loop and concat, computes the panel that `update_output` returns |
| `Overview.PanelDescribesStoredFrame` | overview_1.py:102-125 | the filter box is derived from the same frame that `to_store_df` stores, and the file info shows only the first file's name and time |
| `Overview.ColumnsOf` | overview_1.py:188 | one column descriptor per label, in order, with name and id equal to the label |
| `Overview.FilterRows` | overview_1.py:192-196 | a record is kept exactly when it is in the frame and selected; the result is never longer than the frame |
| `Overview.UpdateTable` | overview_1.py:177-208 | reading the empty store raises and a stored frame never does; before the first submit every stored record is shown; the columns are always the whole frame's |
| `Overview.FilterRowsSpec` | overview_1.py:192-196 | the filter keeps a record exactly when its date is in [start, end] and its user is selected; it keeps it as often as the frame has it, in the original order, and never lengthens the table |
| `Overview.SubmittedTableShowsSelectedRows` | overview_1.py:191-205 | after a submit, the table shows exactly the selected records as an order-preserving subsequence of the stored records, with the stored columns |
| `Overview.SubsequenceNoLonger` | overview_1.py:204 | a subsequence is no longer than the sequence it comes from |
| `Overview.FilterSelectingAllKeepsAll` | overview_1.py:192-196 | a filter that selects every record returns the records unchanged |
| `Overview.StartAfterLastDateShowsNothing` | overview_1.py:192-194 | a start date after every record's date leaves the table empty |
| `Overview.InitialFilterShowsEveryRow` | overview_1.py:134-151 | for a non-empty frame, the filter set up by the upload (full range, every user) shows every record with the frame's columns, however many submits follow |
| `Overview.TwoRecordExample` | overview_1.py:113-118 | two records of users "a" and "b" on consecutive days give options "a", "b" and bounds at the two days; filtering to the second day and "b" keeps only the second record |
| `Index.SwitchTab` | index.py:39-44 | "tab-overview" gives the overview layout; "tab-analysis" raises NameError for `analysis_layout`; any other id gives the placeholder paragraph |
| `Index.InitialContentIsOverview` | index.py:22 | the page opens on "tab-overview", which shows the overview layout |
| `Index.AnalysisTabShowsPlaceholder` | index.py:19 | the declared id "tab-anaylsis" differs from "tab-analysis", so the Analysis tab shows the placeholder |
| `Index.DeclaredTabsNeverRaise` | index.py:17-19 | no declared tab reaches the `analysis_layout` branch |
| `Index.OtherTabsShowPlaceholder` | index.py:44 | every id other than the two the callback compares against gives the placeholder |

## Left out

- Base64 decoding (section 4 of RFC 4648), UTF-8 decoding, `pd.read_csv` and `pd.read_excel` are not modelled. They are parameters (`Overview.Decoders`) that either return a table or fail.
- `pd.to_datetime` (overview_1.py:85, 112) and the `to_json`/`read_json` round trip through the store are not modelled. Dates arrive as ordinal days, both steps are taken to leave the frame unchanged, and the in-place overwrite of `df["Date"]` is therefore the identity.
- Missing `Date` or `User` columns are not modelled, and every record carries a date and a user. pandas raises `KeyError` only when no uploaded file has the column. When some files lack `User`, `pd.concat` (overview_1.py:81) fills in NaN, and `sorted` (overview_1.py:118) then raises `TypeError` on comparing a float with a str; the model has no such path. Records without a `Date` get NaT, which `min` and `max` (overview_1.py:113-114) skip.
- pandas' type inference is not modelled: users are always strings. `pd.read_csv` and `pd.read_excel` read a `User` column of digits as integers, which `sorted` orders numerically (9 before 10), while `Strings.Less` orders "10" before "9".
- Cells missing from a record stand for NaN. pandas' dtype changes when columns are unioned are not modelled.
- The date picker sends strings that pandas compares as midnight timestamps. The model compares whole ordinal days. A cleared picker (`None`) and a `None` click counter are not modelled.
- `datetime.fromtimestamp` formatting of the upload time (overview_1.py:125) is not modelled. The file info keeps the raw epoch seconds.
- Logging of the caught exception (overview_1.py:226) is not modelled.
- Layout construction, styling and callback registration (overview_1.py:17-73, index.py:14-37) are not modelled; rendered outputs are plain data. `app.run_server` is not modelled either.
- `Overview.ToStoreDf`: omits the `list_of_dates` argument, which `to_store_df` never reads.
- The order in which Dash fires the callbacks is not modelled, and neither is the `html.Div` markup. Dash keeps a callback's previous outputs when it raises; the model returns `Raised(exn)` instead.
- app.py, which creates the Dash application, is not part of this model.
