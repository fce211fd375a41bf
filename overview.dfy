/** The callbacks of the Overview tab (overview_1.py): the upload decoder
    `parse_contents`, the two upload callbacks `to_store_df` and
    `update_output`, which decode every uploaded file and concatenate the
    results, and the table callback `update_table`. */
module Overview {
  import opened Outcomes
  import opened Strings
  import opened Frames

  type Bytes = seq<bv8>

  /** The library calls of the upload decoder, seen from outside. Each gives
      None where the Python call raises. */
  datatype Decoders = Decoders(
    b64decode: string -> Option<Bytes>,  // base64.b64decode
    readCsv: Bytes -> Option<Table>,     // decoded.decode('utf-8'), then pd.read_csv
    readExcel: Bytes -> Option<Table>)   // pd.read_excel

  // ---------------------------------------------------------------------
  // parse_contents

  datatype Format = Csv | Excel | Unrecognised

  /** The reader chosen from the file name: "csv" is looked for before "xls". */
  function DetectFormat(filename: string): (f: Format)
    ensures f == Csv <==> exists i :: OccursAt(filename, "csv", i)
    ensures f == Excel <==>
      (forall i :: !OccursAt(filename, "csv", i)) && exists i :: OccursAt(filename, "xls", i)
  {
    if Contains(filename, "csv") then Csv
    else if Contains(filename, "xls") then Excel
    else Unrecognised
  }

  /** `df["filename"] = filename`: every record gets the file name, and the
      label is appended to the columns unless it is already one of them. */
  function TagWithFilename(t: Table, filename: string): (tagged: Table)
    ensures |tagged.rows| == |t.rows|
    ensures forall i :: 0 <= i < |t.rows| ==> tagged.rows[i] == t.rows[i].(filename := filename)
    ensures forall c :: c in tagged.columns <==> c in t.columns || c == "filename"
    ensures |t.columns| <= |tagged.columns| <= |t.columns| + 1
    ensures tagged.columns[..|t.columns|] == t.columns
    ensures "filename" in t.columns ==> tagged.columns == t.columns
  {
    Table(if "filename" in t.columns then t.columns else t.columns + ["filename"],
          seq(|t.rows|, i requires 0 <= i < |t.rows| => t.rows[i].(filename := filename)))
  }

  /** The body of the `try`: a reader that raised becomes the error marker. */
  function FrameOrMarker(read: Option<Table>, filename: string): Fragment {
    match read
    case None => ErrorMarker
    case Some(t) => Frame(TagWithFilename(t, filename))
  }

  /** `parse_contents(contents, filename)`. The split on "," and the base64
      decoding run before the `try`, so their errors escape; everything after
      is caught and turned into the error marker. */
  function ParseContents(contents: string, filename: string, lib: Decoders): (r: Result<Fragment>)
    ensures r.Raised? ==> r.exn == UnpackError || r.exn == Base64Error
    ensures r.Ok? && r.value.Frame? ==>
      && DetectFormat(filename) != Unrecognised
      && "filename" in r.value.table.columns
      && forall row :: row in r.value.table.rows ==> row.filename == filename
  {
    var parts := Split(contents, ',');
    if |parts| != 2 then Raised(UnpackError)
    else
      match lib.b64decode(parts[1])
      case None => Raised(Base64Error)
      case Some(decoded) =>
        match DetectFormat(filename)
        case Csv => Ok(FrameOrMarker(lib.readCsv(decoded), filename))
        case Excel => Ok(FrameOrMarker(lib.readExcel(decoded), filename))
        // `df` is never bound: `df["filename"]` raises UnboundLocalError
        // inside the `try`, which the handler turns into the error marker
        case Unrecognised => Ok(ErrorMarker)
  }

  /** A data URL splits into exactly two parts exactly when it holds one comma:
      the media-type header before it and the base64 payload after it. */
  lemma OneCommaSplitsInTwo(contents: string)
    ensures |Split(contents, ',')| == 2 <==> multiset(contents)[','] == 1
    ensures multiset(contents)[','] == 1 ==>
      var parts := Split(contents, ',');
      contents == parts[0] + [','] + parts[1] && ',' !in parts[0] && ',' !in parts[1]
  {
    SplitLength(contents, ',');
    var parts := Split(contents, ',');
    if |parts| == 2 {
      JoinSplit(contents, ',');
      assert parts[0] in parts && parts[1] in parts;
      assert parts[1..] == [parts[1]];
    }
  }

  /** Only the two steps before the `try` can make the decoder raise: a data
      URL without exactly one comma, and a payload that is not base64. */
  lemma ParseRaisesOnlyBeforeTry(contents: string, filename: string, lib: Decoders)
    ensures ParseContents(contents, filename, lib) == Raised(UnpackError) <==> multiset(contents)[','] != 1
    ensures ParseContents(contents, filename, lib) == Raised(Base64Error) <==>
      multiset(contents)[','] == 1 && lib.b64decode(Split(contents, ',')[1]).None?
  {
    OneCommaSplitsInTwo(contents);
    var parts := Split(contents, ',');
    if |parts| == 2 && lib.b64decode(parts[1]).Some? {
      var decoded := lib.b64decode(parts[1]).value;
      var r := ParseContents(contents, filename, lib);
      match DetectFormat(filename)
      case Csv => assert r == Ok(FrameOrMarker(lib.readCsv(decoded), filename));
      case Excel => assert r == Ok(FrameOrMarker(lib.readExcel(decoded), filename));
      case Unrecognised => assert r == Ok(ErrorMarker);
    }
  }

  /** A name holding both "csv" and "xls" is read as CSV. */
  lemma CsvCheckedFirst(filename: string)
    requires Contains(filename, "csv")
    ensures DetectFormat(filename) == Csv
  {
  }

  lemma CsvWinsOverXlsExample()
    ensures DetectFormat("report.xls.csv") == Csv
  {
    assert OccursAt("report.xls.csv", "csv", 11);
  }

  /** A name holding neither "csv" nor "xls" gives the error marker once the
      payload has been decoded: `df` is unbound and the handler catches that. */
  lemma UnrecognisedNameGivesErrorMarker(contents: string, filename: string, lib: Decoders)
    requires !Contains(filename, "csv") && !Contains(filename, "xls")
    requires !ParseContents(contents, filename, lib).Raised?
    ensures ParseContents(contents, filename, lib) == Ok(ErrorMarker)
  {
  }

  /** A decoded frame is the frame the chosen reader returned, with every
      record tagged with the file name and a "filename" column. */
  lemma ParsedFrameIsTagged(contents: string, filename: string, lib: Decoders, t: Table)
    requires ParseContents(contents, filename, lib) == Ok(Frame(t))
    ensures |Split(contents, ',')| == 2 && lib.b64decode(Split(contents, ',')[1]).Some?
    ensures DetectFormat(filename) != Unrecognised
    ensures var decoded := lib.b64decode(Split(contents, ',')[1]).value;
      var read := if DetectFormat(filename) == Csv then lib.readCsv(decoded) else lib.readExcel(decoded);
      read.Some? && t == TagWithFilename(read.value, filename)
  {
  }

  /** Once the payload is decoded nothing escapes the `try`: the result is
      the error marker exactly when the name has no known format (`df` is
      unbound) or the chosen reader raised. */
  lemma CaughtFailureGivesErrorMarker(contents: string, filename: string, lib: Decoders)
    requires |Split(contents, ',')| == 2 && lib.b64decode(Split(contents, ',')[1]).Some?
    ensures var decoded := lib.b64decode(Split(contents, ',')[1]).value;
      var read := if DetectFormat(filename) == Csv then lib.readCsv(decoded) else lib.readExcel(decoded);
      && ParseContents(contents, filename, lib).Ok?
      && (ParseContents(contents, filename, lib) == Ok(ErrorMarker) <==>
            DetectFormat(filename) == Unrecognised || read.None?)
  {
  }

  // ---------------------------------------------------------------------
  // The loop shared by to_store_df and update_output

  /** `zip(list_of_contents, list_of_names)`: pairs up to the shorter list. */
  function Zip(contents: seq<string>, names: seq<string>): (ps: seq<(string, string)>)
    ensures |ps| == if |contents| < |names| then |contents| else |names|
    ensures forall i :: 0 <= i < |ps| ==> ps[i] == (contents[i], names[i])
  {
    var n := if |contents| < |names| then |contents| else |names|;
    seq(n, i requires 0 <= i < n => (contents[i], names[i]))
  }

  /** The list `small_dfs` after decoding every upload in order; the first
      decoder exception escapes. */
  function DecodeAll(uploads: seq<(string, string)>, lib: Decoders): (r: Result<seq<Fragment>>)
    ensures r.Ok? ==> |r.value| == |uploads|
    ensures r.Raised? ==> r.exn == UnpackError || r.exn == Base64Error
    decreases |uploads|
  {
    if uploads == [] then Ok([])
    else
      var done :- DecodeAll(uploads[..|uploads| - 1], lib);
      var last := uploads[|uploads| - 1];
      var f :- ParseContents(last.0, last.1, lib);
      Ok(done + [f])
  }

  /** DecodeAll succeeds exactly when every upload decodes, and then holds
      each upload's fragment at its position; otherwise it raises what the
      first failing upload raised. */
  lemma {:induction false} DecodeAllSpec(uploads: seq<(string, string)>, lib: Decoders)
    ensures DecodeAll(uploads, lib).Ok? <==>
      forall i :: 0 <= i < |uploads| ==> ParseContents(uploads[i].0, uploads[i].1, lib).Ok?
    ensures DecodeAll(uploads, lib).Ok? ==>
      var fs := DecodeAll(uploads, lib).value;
      |fs| == |uploads| &&
      forall i :: 0 <= i < |uploads| ==> fs[i] == ParseContents(uploads[i].0, uploads[i].1, lib).value
    ensures DecodeAll(uploads, lib).Raised? ==>
      exists i :: 0 <= i < |uploads| &&
        ParseContents(uploads[i].0, uploads[i].1, lib) == Raised(DecodeAll(uploads, lib).exn) &&
        forall j :: 0 <= j < i ==> ParseContents(uploads[j].0, uploads[j].1, lib).Ok?
    decreases |uploads|
  {
    if uploads != [] {
      var init := uploads[..|uploads| - 1];
      DecodeAllSpec(init, lib);
      assert forall i :: 0 <= i < |init| ==> init[i] == uploads[i];
    }
  }

  /** Once a prefix of the uploads raises, so do all of them, with the same exception. */
  lemma {:induction false} DecodeAllStopsAtRaise(uploads: seq<(string, string)>, k: nat, lib: Decoders)
    requires k <= |uploads|
    requires DecodeAll(uploads[..k], lib).Raised?
    ensures DecodeAll(uploads, lib) == DecodeAll(uploads[..k], lib)
    decreases |uploads|
  {
    if k < |uploads| {
      var init := uploads[..|uploads| - 1];
      assert init[..k] == uploads[..k];
      DecodeAllStopsAtRaise(init, k, lib);
    } else {
      assert uploads[..k] == uploads;
    }
  }

  /** The `for c, n in zip(...)` loop that fills `small_dfs`. */
  method CollectFragments(contents: seq<string>, names: seq<string>, lib: Decoders)
    returns (smallDfs: Result<seq<Fragment>>)
    ensures smallDfs == DecodeAll(Zip(contents, names), lib)
  {
    var uploads := Zip(contents, names);
    var done: seq<Fragment> := [];
    for i := 0 to |uploads|
      invariant DecodeAll(uploads[..i], lib) == Ok(done)
    {
      var parsed := ParseContents(contents[i], names[i], lib);
      assert uploads[..i + 1][..i] == uploads[..i];
      if parsed.Raised? {
        DecodeAllStopsAtRaise(uploads, i + 1, lib);
        return Raised(parsed.exn);
      }
      done := done + [parsed.value];
    }
    assert uploads[..|uploads|] == uploads;
    return Ok(done);
  }

  /** The data frame both upload callbacks build: the decoded uploads
      concatenated; `pd.to_datetime` leaves the ordinal dates unchanged. */
  function Combine(contents: seq<string>, names: seq<string>, lib: Decoders): (r: Result<Table>)
    ensures r.Ok? ==> |Zip(contents, names)| > 0
    ensures r.Raised? ==>
      r.exn == UnpackError || r.exn == Base64Error || r.exn == NothingToConcat || r.exn == ConcatTypeError
  {
    var fragments :- DecodeAll(Zip(contents, names), lib);
    Concat(fragments)
  }

  /** The records of upload `i`, or none if it did not decode to a frame. */
  function UploadRows(contents: seq<string>, names: seq<string>, lib: Decoders): seq<seq<Row>> {
    var n := |Zip(contents, names)|;
    seq(n, i requires 0 <= i < n =>
      match ParseContents(contents[i], names[i], lib)
      case Ok(Frame(t)) => t.rows
      case _ => [])
  }

  /** The combined frame exists exactly when at least one file is paired with
      a name and every paired file decodes to a data frame; it then holds
      every file's records, file after file, in upload order. */
  lemma CombineSpec(contents: seq<string>, names: seq<string>, lib: Decoders)
    ensures var n := |Zip(contents, names)|;
      Combine(contents, names, lib).Ok? <==>
        n > 0 && forall i :: 0 <= i < n ==>
          (ParseContents(contents[i], names[i], lib).Ok? && ParseContents(contents[i], names[i], lib).value.Frame?)
    ensures Combine(contents, names, lib).Ok? ==>
      var t := Combine(contents, names, lib).value;
      t.rows == Concatenation(UploadRows(contents, names, lib)) &&
      |t.rows| == TotalLength(UploadRows(contents, names, lib))
  {
    var uploads := Zip(contents, names);
    DecodeAllSpec(uploads, lib);
    if DecodeAll(uploads, lib).Ok? {
      var fs := DecodeAll(uploads, lib).value;
      assert forall i :: 0 <= i < |fs| ==> fs[i] in fs;
      if Concat(fs).Ok? {
        assert RowLists(FramesOf(fs)) == UploadRows(contents, names, lib);
        ConcatenationLength(UploadRows(contents, names, lib));
      } else if fs != [] {
        var k :| 0 <= k < |fs| && fs[k] == ErrorMarker;
        assert !ParseContents(contents[k], names[k], lib).value.Frame?;
      }
    } else {
      var i :| 0 <= i < |uploads| && ParseContents(uploads[i].0, uploads[i].1, lib).Raised?;
      assert !ParseContents(contents[i], names[i], lib).Ok?;
    }
  }

  // ---------------------------------------------------------------------
  // to_store_df

  /** The `stored-df` store: "" (or nothing yet), or a serialised frame;
      `to_json` followed by `read_json` gives the frame back unchanged. */
  datatype Store = Blank | Json(table: Table)

  /** What `to_store_df` puts in the store: "" without an upload, otherwise
      the combined frame (or the exception raised while building it). */
  function StoredData(contents: Option<seq<string>>, names: seq<string>, lib: Decoders): (r: Result<Store>)
    ensures contents.None? ==> r == Ok(Blank)
    ensures contents.Some? && r.Ok? ==> r.value.Json? && |Zip(contents.value, names)| > 0
    ensures contents.Some? ==>
      var n := |Zip(contents.value, names)|;
      (r.Ok? <==>
        n > 0 && forall i :: 0 <= i < n ==>
          (ParseContents(contents.value[i], names[i], lib).Ok? &&
           ParseContents(contents.value[i], names[i], lib).value.Frame?))
  {
    match contents
    case None => Ok(Blank)
    case Some(cs) =>
      CombineSpec(cs, names, lib);
      var df :- Combine(cs, names, lib);
      Ok(Json(df))
  }

  /** `to_store_df(list_of_contents, list_of_names, list_of_dates)`. */
  method ToStoreDf(contents: Option<seq<string>>, names: seq<string>, lib: Decoders)
    returns (stored: Result<Store>)
    ensures stored == StoredData(contents, names, lib)
  {
    if contents.None? {
      return Ok(Blank);
    }
    var smallDfs := CollectFragments(contents.value, names, lib);
    if smallDfs.Raised? {
      return Raised(smallDfs.exn);
    }
    var df := Concat(smallDfs.value);
    if df.Raised? {
      return Raised(df.exn);
    }
    return Ok(Json(df.value));
  }

  /** The stored frame holds exactly the uploaded records, in upload order;
      a single undecodable file (an error marker) makes the store fail. */
  lemma StoredRowsAreUploadedRows(contents: seq<string>, names: seq<string>, lib: Decoders, t: Table)
    requires StoredData(Some(contents), names, lib) == Ok(Json(t))
    ensures t.rows == Concatenation(UploadRows(contents, names, lib))
    ensures |t.rows| == TotalLength(UploadRows(contents, names, lib))
    ensures forall i :: 0 <= i < |Zip(contents, names)| ==> ParseContents(contents[i], names[i], lib).Ok?
  {
    CombineSpec(contents, names, lib);
  }

  lemma ErrorMarkerFailsStore(contents: seq<string>, names: seq<string>, lib: Decoders, k: nat)
    requires k < |Zip(contents, names)|
    requires ParseContents(contents[k], names[k], lib) == Ok(ErrorMarker)
    ensures StoredData(Some(contents), names, lib).Raised?
  {
    CombineSpec(contents, names, lib);
  }

  // ---------------------------------------------------------------------
  // update_output

  /** An entry of the user drop-down. */
  datatype UserOption = UserOption(display: string, value: string)  // the dict {'label': display, 'value': value}

  /** The "Uploaded File Info" box: the first file's name and its
      last-modified time in epoch seconds. */
  datatype FileInfo = FileInfo(name: string, uploaded: int)

  /** The "Select Filters" box: the date-range picker (None is NaT), the user
      drop-down and the submit button's click counter. */
  datatype Filters = Filters(
    startDate: Option<int>, endDate: Option<int>,
    minAllowed: Option<int>, maxAllowed: Option<int>, initialMonth: Option<int>,
    options: seq<UserOption>, selected: seq<string>, submitClicks: nat)

  /** The two outputs of update_output: both "" when nothing was uploaded. */
  datatype Panel = BlankPanel | Shown(info: FileInfo, filters: Filters)

  function OptionValues(opts: seq<UserOption>): (vs: seq<string>)
    ensures |vs| == |opts| && forall i :: 0 <= i < |opts| ==> vs[i] == opts[i].value
  {
    seq(|opts|, i requires 0 <= i < |opts| => opts[i].value)
  }

  /** `[{'label': c, 'value': c} for c in sorted(df.User.unique())]`: one
      entry per user in the data, labelled by itself, in increasing order. */
  function UserOptions(rows: seq<Row>): (opts: seq<UserOption>)
    ensures forall i :: 0 <= i < |opts| ==> opts[i].display == opts[i].value
    ensures StrictlySorted(OptionValues(opts))
    ensures forall u :: u in OptionValues(opts) <==> u in Users(rows)
  {
    var distinct := Unique(Users(rows));
    var users := Sorted(distinct);
    SortedDistinctIsStrict(distinct);
    var opts := seq(|users|, i requires 0 <= i < |users| => UserOption(users[i], users[i]));
    assert OptionValues(opts) == users;
    assert forall u :: u in users <==> u in Users(rows) by {
      forall u ensures u in users <==> u in Users(rows) {
        assert u in users <==> u in multiset(users);
        assert u in distinct <==> u in multiset(distinct);
      }
    }
    opts
  }

  /** The filter controls derived from the combined frame. */
  function DeriveFilters(df: Table): (f: Filters)
    ensures f.startDate.None? <==> df.rows == []
    ensures f.startDate == f.minAllowed == f.initialMonth
    ensures f.endDate == f.maxAllowed
    ensures f.endDate.None? == f.startDate.None?
    ensures f.startDate.Some? ==>
      && (forall r :: r in df.rows ==> f.startDate.value <= r.date <= f.endDate.value)
      && (exists r :: r in df.rows && r.date == f.startDate.value)
      && (exists r :: r in df.rows && r.date == f.endDate.value)
    ensures forall i :: 0 <= i < |f.options| ==> f.options[i].display == f.options[i].value
    ensures StrictlySorted(OptionValues(f.options))
    ensures forall u :: u in OptionValues(f.options) <==> u in Users(df.rows)
    ensures Distinct(f.selected)
    ensures forall u :: u in f.selected <==> u in Users(df.rows)
    ensures forall i, j :: 0 <= i < j < |f.selected| ==>
      FirstIndex(Users(df.rows), f.selected[i]) < FirstIndex(Users(df.rows), f.selected[j])
    ensures f.submitClicks == 0
  {
    var minDate := MinDate(df.rows);
    var maxDate := MaxDate(df.rows);
    Filters(minDate, maxDate, minDate, maxDate, minDate,
            UserOptions(df.rows), Unique(Users(df.rows)), 0)
  }

  /** What `update_output` returns: "" twice without an upload, otherwise
      the first file's info and the filters derived from the combined frame. */
  function UploadPanel(contents: Option<seq<string>>, names: seq<string>, dates: seq<int>, lib: Decoders)
    : (r: Result<Panel>)
    ensures contents.None? ==> r == Ok(BlankPanel)
    ensures contents.Some? && r.Ok? ==>
      r.value.Shown? && |names| > 0 && |dates| > 0 && r.value.info == FileInfo(names[0], dates[0])
    ensures contents.Some? ==> (r.Ok? <==> StoredData(contents, names, lib).Ok? && dates != [])
    ensures contents.Some? && r.Ok? ==>
      r.value.Shown? && r.value.filters == DeriveFilters(StoredData(contents, names, lib).value.table)
  {
    match contents
    case None => Ok(BlankPanel)
    case Some(cs) =>
      var df :- Combine(cs, names, lib);
      if names == [] || dates == [] then Raised(IndexError)
      else Ok(Shown(FileInfo(names[0], dates[0]), DeriveFilters(df)))
  }

  /** `update_output(list_of_contents, list_of_names, list_of_dates)`. */
  method UpdateOutput(contents: Option<seq<string>>, names: seq<string>, dates: seq<int>, lib: Decoders)
    returns (panel: Result<Panel>)
    ensures panel == UploadPanel(contents, names, dates, lib)
  {
    if contents.None? {
      return Ok(BlankPanel);
    }
    var smallDfs := CollectFragments(contents.value, names, lib);
    if smallDfs.Raised? {
      return Raised(smallDfs.exn);
    }
    var df := Concat(smallDfs.value);
    if df.Raised? {
      return Raised(df.exn);
    }
    var filters := DeriveFilters(df.value);
    if names == [] || dates == [] {
      return Raised(IndexError);
    }
    var info := FileInfo(names[0], dates[0]);
    return Ok(Shown(info, filters));
  }

  /** Both upload callbacks decode and concatenate the same way: the panel
      shows the filters derived from the frame that is stored, and the file
      info names only the first file. */
  lemma PanelDescribesStoredFrame(contents: seq<string>, names: seq<string>, dates: seq<int>,
                                  lib: Decoders, info: FileInfo, f: Filters)
    requires UploadPanel(Some(contents), names, dates, lib) == Ok(Shown(info, f))
    ensures StoredData(Some(contents), names, lib).Ok?
    ensures StoredData(Some(contents), names, lib).value.Json?
    ensures f == DeriveFilters(StoredData(Some(contents), names, lib).value.table)
    ensures info == FileInfo(names[0], dates[0])
  {
  }

  // ---------------------------------------------------------------------
  // update_table

  /** A column descriptor of the data table. */
  datatype Column = Column(name: string, id: string)

  /** What the data table shows: its records and its columns. */
  datatype View = View(records: seq<Row>, columns: seq<Column>)

  /** `[{'name': i, 'id': i} for i in df.columns]`. */
  function ColumnsOf(labels: seq<string>): (cols: seq<Column>)
    ensures |cols| == |labels| && forall i :: 0 <= i < |labels| ==> cols[i] == Column(labels[i], labels[i])
  {
    seq(|labels|, i requires 0 <= i < |labels| => Column(labels[i], labels[i]))
  }

  /** The mask `(Date >= start) & (Date <= end) & User.isin(user)`. */
  predicate Selected(r: Row, users: seq<string>, start: int, end: int) {
    start <= r.date && r.date <= end && r.user in users
  }

  /** `df[mask]`: the selected records in their original order. */
  function FilterRows(rows: seq<Row>, users: seq<string>, start: int, end: int): (kept: seq<Row>)
    ensures forall r :: r in kept <==> r in rows && Selected(r, users, start, end)
    ensures |kept| <= |rows|
    decreases |rows|
  {
    if rows == [] then []
    else if Selected(rows[0], users, start, end) then [rows[0]] + FilterRows(rows[1..], users, start, end)
    else FilterRows(rows[1..], users, start, end)
  }

  /** `update_table(data_json, n_clicks, user, start, end)`. Reading the
      empty store raises; before the first submit the whole frame is shown;
      the columns are always those of the whole frame. */
  function UpdateTable(data: Store, nClicks: nat, users: seq<string>, start: int, end: int): (r: Result<View>)
    ensures data.Blank? <==> r == Raised(ReadJsonError)
    ensures r.Ok? ==> r.value.columns == ColumnsOf(data.table.columns)
    ensures data.Json? ==> r.Ok?
    ensures r.Ok? && nClicks == 0 ==> r.value.records == data.table.rows
  {
    match data
    case Blank => Raised(ReadJsonError)
    case Json(df) =>
      if nClicks == 0 then Ok(View(df.rows, ColumnsOf(df.columns)))
      else Ok(View(FilterRows(df.rows, users, start, end), ColumnsOf(df.columns)))
  }

  /** `a` is `b` with some records left out, the rest kept in order. */
  ghost predicate Subsequence(a: seq<Row>, b: seq<Row>)
    decreases |b|
  {
    if a == [] then true
    else if b == [] then false
    else (a[0] == b[0] && Subsequence(a[1..], b[1..])) || Subsequence(a, b[1..])
  }

  lemma {:induction false} SubsequenceNoLonger(a: seq<Row>, b: seq<Row>)
    requires Subsequence(a, b)
    ensures |a| <= |b|
    decreases |b|
  {
    if a != [] {
      if a[0] == b[0] && Subsequence(a[1..], b[1..]) {
        SubsequenceNoLonger(a[1..], b[1..]);
      } else {
        SubsequenceNoLonger(a, b[1..]);
      }
    }
  }

  /** The filter keeps each record exactly as often as the frame has it when
      the record is selected, and drops it otherwise, preserving order. */
  lemma {:induction false} FilterRowsSpec(rows: seq<Row>, users: seq<string>, start: int, end: int)
    ensures var kept := FilterRows(rows, users, start, end);
      && Subsequence(kept, rows)
      && |kept| <= |rows|
      && forall r :: multiset(kept)[r] == if Selected(r, users, start, end) then multiset(rows)[r] else 0
    decreases |rows|
  {
    var kept := FilterRows(rows, users, start, end);
    if rows != [] {
      FilterRowsSpec(rows[1..], users, start, end);
      assert rows == [rows[0]] + rows[1..];
      var rest := FilterRows(rows[1..], users, start, end);
      if Selected(rows[0], users, start, end) {
        assert kept[1..] == rest;
      } else {
        assert kept == rest;
        if rest != [] {
          SubsequenceDropFront(rest, rows);
        }
      }
    }
    SubsequenceNoLonger(kept, rows);
  }

  lemma SubsequenceDropFront(a: seq<Row>, b: seq<Row>)
    requires b != [] && a != [] && Subsequence(a, b[1..])
    ensures Subsequence(a, b)
  {
  }

  /** After a submit, the table shows exactly the records whose date lies in
      [start, end], both ends included, and whose user is selected, in their
      stored order. */
  lemma SubmittedTableShowsSelectedRows(df: Table, nClicks: nat, users: seq<string>, start: int, end: int)
    requires nClicks != 0
    ensures var v := UpdateTable(Json(df), nClicks, users, start, end);
      && v.Ok?
      && Subsequence(v.value.records, df.rows)
      && |v.value.records| <= |df.rows|
      && (forall r :: r in v.value.records <==> r in df.rows && Selected(r, users, start, end))
      && (forall r :: multiset(v.value.records)[r] ==
            if Selected(r, users, start, end) then multiset(df.rows)[r] else 0)
  {
    FilterRowsSpec(df.rows, users, start, end);
  }

  /** A filter that selects every record removes none. */
  lemma {:induction false} FilterSelectingAllKeepsAll(rows: seq<Row>, users: seq<string>, start: int, end: int)
    requires forall r :: r in rows ==> Selected(r, users, start, end)
    ensures FilterRows(rows, users, start, end) == rows
    decreases |rows|
  {
    if rows != [] {
      assert rows[0] in rows;
      assert forall r :: r in rows[1..] ==> r in rows;
      FilterSelectingAllKeepsAll(rows[1..], users, start, end);
    }
  }

  /** A start date after every record's date leaves the table empty. */
  lemma {:induction false} StartAfterLastDateShowsNothing(rows: seq<Row>, users: seq<string>, start: int, end: int)
    requires forall r :: r in rows ==> r.date < start
    ensures FilterRows(rows, users, start, end) == []
    decreases |rows|
  {
    if rows != [] {
      assert rows[0] in rows;
      assert forall r :: r in rows[1..] ==> r in rows;
      StartAfterLastDateShowsNothing(rows[1..], users, start, end);
    }
  }

  /** The filter the upload sets up (the whole date range, every user) is a
      no-op: before and after any number of submits the table shows every
      stored record, with the stored columns. */
  lemma InitialFilterShowsEveryRow(df: Table, nClicks: nat)
    requires df.rows != []
    ensures var f := DeriveFilters(df);
      f.startDate.Some? && f.endDate.Some? &&
      UpdateTable(Json(df), nClicks, f.selected, f.startDate.value, f.endDate.value)
        == Ok(View(df.rows, ColumnsOf(df.columns)))
  {
    var f := DeriveFilters(df);
    forall r | r in df.rows ensures Selected(r, f.selected, f.startDate.value, f.endDate.value) {
      assert r.user in Users(df.rows) by {
        var i :| 0 <= i < |df.rows| && df.rows[i] == r;
        assert Users(df.rows)[i] == r.user;
      }
    }
    FilterSelectingAllKeepsAll(df.rows, f.selected, f.startDate.value, f.endDate.value);
  }

  /** Two records on consecutive days (2021-01-01 and 2021-01-02 as ordinal
      days): the options are "a" then "b", the bounds are the two days, and
      filtering to the second day and user "b" keeps only the second record. */
  lemma TwoRecordExample()
    ensures var a := Row(737791, "a", "f.csv", map["V" := Num(1)]);
      var b := Row(737792, "b", "f.csv", map["V" := Num(2)]);
      && UserOptions([a, b]) == [UserOption("a", "a"), UserOption("b", "b")]
      && MinDate([a, b]) == Some(737791) && MaxDate([a, b]) == Some(737792)
      && FilterRows([a, b], ["b"], 737792, 737792) == [b]
  {
    var a := Row(737791, "a", "f.csv", map["V" := Num(1)]);
    var b := Row(737792, "b", "f.csv", map["V" := Num(2)]);
    assert [a, b][1..] == [b];
    assert Users([a, b]) == ["a", "b"];
    assert Unique(["a", "b"]) == ["a", "b"] by {
      assert ["a", "b"][..1] == ["a"];
      assert ["a"][..0] == [];
    }
    assert Less("a", "b");
    assert Sorted(["a", "b"]) == ["a", "b"] by {
      assert ["a", "b"][..1] == ["a"];
      assert ["a"][..0] == [];
      assert Sorted(["a"]) == ["a"];
    }
  }
}
