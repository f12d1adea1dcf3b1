/** The optional lookup worksheet: choosing the workbook, locating the barcode
    column in the header, and matching an image basename against the rows
    (new.py lines 11-23 and 64-84). */
module Sheets {
  import opened Wrappers
  import opened Search
  import opened FileNames
  import opened Cells

  datatype SheetData = SheetData(header: Row, body: seq<Row>)

  /** The active worksheet. openpyxl's `iter_rows` pads every row to the
      sheet's width, so each row is as wide as the header and `row[i]` is
      defined for every header index `i`. */
  type Sheet = s: SheetData | forall r | r in s.body :: |r| == |s.header|
    witness SheetData([], [])

  /** `worksheet.iter_rows(values_only=True)`: no `min_row`, so the header row
      is scanned too, first. */
  function Rows(s: Sheet): (rows: seq<Row>)
    ensures |rows| == |s.body| + 1 && rows[0] == s.header
    ensures forall k | 1 <= k < |rows| :: rows[k] == s.body[k - 1]
    ensures forall k | 0 <= k < |rows| :: |rows[k]| == |s.header|
  {
    [s.header] + s.body
  }

  /** The one fatal error of a run. */
  datatype Error = ColumnNotFound(column: string) {
    function Message(): string {
      "Column '" + column + "' not found in the Excel file."
    }
  }

  /** The lookup capability a run works with: no worksheet at all, or a
      worksheet together with the index of its barcode column. */
  datatype LookupData = NoSheet | Table(sheet: Sheet, barcodeIndex: nat)

  type Lookup = l: LookupData | l.Table? ==> l.barcodeIndex < |l.sheet.header|
    witness NoSheet

  const WorkbookSuffix := ".xlsx"

  /** `next((f for f in os.listdir() if f.endswith(".xlsx")), None)`: the first
      listed name ending in ".xlsx", compared case-sensitively. */
  function FirstWorkbook(cwd: seq<string>): (r: Option<string>)
    ensures r.Some? ==> EndsWith(r.value, WorkbookSuffix)
    ensures r.Some? ==>
      exists i | 0 <= i < |cwd| ::
        cwd[i] == r.value && forall k | 0 <= k < i :: !EndsWith(cwd[k], WorkbookSuffix)
    ensures r.None? <==> forall k | 0 <= k < |cwd| :: !EndsWith(cwd[k], WorkbookSuffix)
  {
    match FirstWhere(cwd, f => EndsWith(f, WorkbookSuffix))
    case None => None
    case Some(i) => Some(cwd[i])
  }

  /** `header.index(barcode_column)`: the first header cell equal to the column
      name. Only a text cell can equal a Python string; when there is none the
      run fails. */
  function HeaderIndex(header: Row, column: string): (r: Result<nat, Error>)
    ensures r.Success? ==> r.value < |header| && header[r.value] == TextC(column)
    ensures r.Success? ==> forall k | 0 <= k < r.value :: header[k] != TextC(column)
    ensures r.Failure? <==> forall k | 0 <= k < |header| :: header[k] != TextC(column)
    ensures r.Failure? ==> r.error == ColumnNotFound(column)
  {
    match FirstWhere(header, c => c == TextC(column))
    case None => Failure(ColumnNotFound(column))
    case Some(i) => Success(i)
  }

  /** Loading the lookup: no workbook means no matching; a workbook whose
      header lacks the column is fatal; otherwise the column is the first
      header cell with that name. `load` stands for openpyxl reading a file's
      active worksheet. */
  function Setup(cwd: seq<string>, load: string -> Sheet, column: string): (r: Result<Lookup, Error>)
    ensures FirstWorkbook(cwd).None? ==> r == Success(NoSheet)
    ensures FirstWorkbook(cwd).Some? ==>
      var header := load(FirstWorkbook(cwd).value).header;
      && (r.Failure? <==> forall k | 0 <= k < |header| :: header[k] != TextC(column))
      && (r.Failure? ==> r.error == ColumnNotFound(column))
      && (r.Success? ==> r.value.Table? && r.value.sheet == load(FirstWorkbook(cwd).value)
                         && header[r.value.barcodeIndex] == TextC(column)
                         && forall k | 0 <= k < r.value.barcodeIndex :: header[k] != TextC(column))
  {
    match FirstWorkbook(cwd)
    case None => Success(NoSheet)
    case Some(f) =>
      var sheet := load(f);
      match HeaderIndex(sheet.header, column)
      case Failure(e) => Failure(e)
      case Success(i) => Success(Table(sheet, i))
  }

  /** `any(basename == normalise(cell) for cell in row)`. */
  predicate RowMatches(row: Row, key: string) {
    exists j | 0 <= j < |row| :: Normalize(row[j]) == key
  }

  /** Row `k` is the first row, header included, holding a cell that
      normalises to `key`. */
  predicate FirstMatchAt(rows: seq<Row>, key: string, k: int) {
    && 0 <= k < |rows|
    && RowMatches(rows[k], key)
    && forall j | 0 <= j < k :: !RowMatches(rows[j], key)
  }

  datatype Match = Found(barcode: string) | NotFound

  /** The matcher: without a worksheet nothing is found; otherwise the first
      matching row decides, and the barcode is that row's barcode-column cell
      (not the cell that matched), normalised the same way. */
  function MatchImage(l: Lookup, key: string): (m: Match)
    ensures l.NoSheet? ==> m == NotFound
    ensures l.Table? ==>
      (m.NotFound? <==> forall k | 0 <= k < |Rows(l.sheet)| :: !RowMatches(Rows(l.sheet)[k], key))
    ensures l.Table? && m.Found? ==>
      exists k :: FirstMatchAt(Rows(l.sheet), key, k) &&
        m.barcode == Normalize(Rows(l.sheet)[k][l.barcodeIndex])
  {
    match l
    case NoSheet => NotFound
    case Table(sheet, i) =>
      var rows := Rows(sheet);
      match FirstWhere(rows, row => RowMatches(row, key))
      case None => NotFound
      case Some(k) =>
        assert FirstMatchAt(rows, key, k);
        Found(Normalize(rows[k][i]))
  }

  /** The first matching row is unique, so the matcher's answer is determined
      by it. */
  lemma MatchImageAt(l: Lookup, key: string, k: nat)
    requires l.Table? && FirstMatchAt(Rows(l.sheet), key, k)
    ensures MatchImage(l, key) == Found(Normalize(Rows(l.sheet)[k][l.barcodeIndex]))
  {
    var rows := Rows(l.sheet);
    FirstWhereUnique(rows, row => RowMatches(row, key), k);
  }

  /** The source's nested scan (new.py lines 64-84): rows in order, cells in
      order, stopping at the first hit. It agrees with the matcher. */
  method ScanForBarcode(l: Lookup, key: string) returns (found: bool, barcode: string)
    ensures found <==> MatchImage(l, key).Found?
    ensures found ==> barcode == MatchImage(l, key).barcode
  {
    found, barcode := false, "";
    if l.NoSheet? {
      return;
    }
    var rows := Rows(l.sheet);
    var r := 0;
    while r < |rows|
      invariant 0 <= r <= |rows|
      invariant forall k | 0 <= k < r :: !RowMatches(rows[k], key)
    {
      var row := rows[r];
      var hit := false;
      var j := 0;
      while j < |row| && !hit
        invariant 0 <= j <= |row|
        invariant hit <==> exists m | 0 <= m < j :: Normalize(row[m]) == key
      {
        hit := Normalize(row[j]) == key;
        j := j + 1;
      }
      if hit {
        assert FirstMatchAt(rows, key, r);
        MatchImageAt(l, key, r);
        found, barcode := true, Normalize(row[l.barcodeIndex]);
        return;
      }
      r := r + 1;
    }
  }

  /** Every string a row's cells normalise to. */
  function RowKeys(row: Row): (keys: set<string>)
    ensures forall key :: key in keys <==> RowMatches(row, key)
  {
    set j | 0 <= j < |row| :: Normalize(row[j])
  }

  /** A value-to-barcode index built once over the rows, the earliest row
      winning when several rows share a value: the linear scan's answer,
      precomputed. */
  function BuildIndex(rows: seq<Row>, col: nat): map<string, string>
    requires forall k | 0 <= k < |rows| :: col < |rows[k]|
    decreases |rows|
  {
    if |rows| == 0 then map[]
    else
      var row := rows[|rows| - 1];
      var code := Normalize(row[col]);
      (map key | key in RowKeys(row) :: code) + BuildIndex(rows[..|rows| - 1], col)
  }

  lemma {:induction false} BuildIndexFirstRow(rows: seq<Row>, col: nat, key: string)
    requires forall k | 0 <= k < |rows| :: col < |rows[k]|
    ensures var first := FirstWhere(rows, row => RowMatches(row, key));
      && (key in BuildIndex(rows, col) <==> first.Some?)
      && (first.Some? ==> BuildIndex(rows, col)[key] == Normalize(rows[first.value][col]))
    decreases |rows|
  {
    if |rows| > 0 {
      var n := |rows| - 1;
      var front := rows[..n];
      BuildIndexFirstRow(front, col, key);
      assert rows == front + [rows[n]];
      FirstWhereSnoc(front, rows[n], row => RowMatches(row, key));
      var f := FirstWhere(front, row => RowMatches(row, key));
      if f.Some? {
        assert rows[f.value] == front[f.value];
      }
    }
  }

  /** Looking a basename up in the index gives the matcher's answer, so the
      index keeps the first-row-wins semantics. */
  lemma IndexAgreesWithScan(l: Lookup, key: string)
    requires l.Table?
    ensures var index := BuildIndex(Rows(l.sheet), l.barcodeIndex);
      MatchImage(l, key) == if key in index then Found(index[key]) else NotFound
  {
    BuildIndexFirstRow(Rows(l.sheet), l.barcodeIndex, key);
  }

  /** The header row takes part in matching: an image named after the barcode
      column itself matches the header and is renamed to the column name. */
  lemma HeaderRowMatchesColumnName(cwd: seq<string>, load: string -> Sheet, column: string)
    requires Setup(cwd, load, column).Success?
    requires Setup(cwd, load, column).value.Table?
    ensures MatchImage(Setup(cwd, load, column).value, column) == Found(column)
  {
    var l := Setup(cwd, load, column).value;
    var rows := Rows(l.sheet);
    assert Normalize(rows[0][l.barcodeIndex]) == column;
    assert FirstMatchAt(rows, column, 0);
    MatchImageAt(l, column, 0);
  }

  /** An empty cell reads as "None", so an image whose basename is "None"
      is found whenever some row holds an empty cell. The row that decides
      is the first one holding a cell that renders as "None", which is that
      row or an earlier one (a text cell "None" counts too). */
  lemma EmptyCellMatchesNone(l: Lookup, k: nat, j: nat)
    requires l.Table? && k < |Rows(l.sheet)| && j < |Rows(l.sheet)[k]|
    requires Rows(l.sheet)[k][j] == Empty
    ensures MatchImage(l, "None").Found?
    ensures exists m | 0 <= m <= k ::
      && FirstMatchAt(Rows(l.sheet), "None", m)
      && MatchImage(l, "None") == Found(Normalize(Rows(l.sheet)[m][l.barcodeIndex]))
  {
    var rows := Rows(l.sheet);
    assert Normalize(rows[k][j]) == "None";
    assert RowMatches(rows[k], "None");
    var first := FirstWhere(rows, row => RowMatches(row, "None"));
    assert first.Some?;
    var m := first.value;
    assert FirstMatchAt(rows, "None", m) && m <= k;
    MatchImageAt(l, "None", m);
  }

  /** A worksheet whose barcode column is column 0 and whose only data row
      holds the basename "shoe-01" in column 2. */
  const ExampleSheet: Sheet :=
    SheetData([TextC("barcode"), TextC("name"), TextC("sku")],
              [[TextC("8690001"), TextC("Shoe"), TextC("shoe-01")]])

  lemma ExampleHeaderMisses()
    ensures !RowMatches(ExampleSheet.header, "shoe-01")
  {
    var header := ExampleSheet.header;
    forall j | 0 <= j < |header| ensures Normalize(header[j]) != "shoe-01" {
      assert Normalize(header[j]) == header[j].s;
      assert header[j].s[0] != 's' || |header[j].s| != 7;
    }
  }

  /** The barcode comes from the barcode column, not from the cell that
      matched: with the barcode in column 0 and the basename in column 2, the
      image is renamed to column 0's value. */
  lemma BarcodeFromDesignatedColumn()
    ensures MatchImage(Table(ExampleSheet, 0), "shoe-01") == Found("8690001")
  {
    var rows := Rows(ExampleSheet);
    ExampleHeaderMisses();
    assert Normalize(rows[1][2]) == "shoe-01";
    assert FirstMatchAt(rows, "shoe-01", 1);
    MatchImageAt(Table(ExampleSheet, 0), "shoe-01", 1);
  }
}
