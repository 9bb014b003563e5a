/**
  `json_to_csv` over an already parsed JSON value and `csv_to_json` at the
  level of records: the header and rows the CSV writer is handed, and the
  dictionaries the CSV reader builds from them.
 */
module JsonCsv {
  import opened Common
  import opened TextOrder

  /** A parsed JSON value; an object is a dictionary from field names to values. */
  datatype Json =
    | JNull
    | JBool(b: bool)
    | JNumber(n: int)
    | JString(s: string)
    | JArray(items: seq<Json>)
    | JObject(fields: map<string, Json>)

  /** One object of the input, or one dictionary built by the CSV reader. */
  type Record = map<string, Json>

  /** The byte-order mark written before the header, for spreadsheet programs. */
  const Bom: string := "\U{FEFF}"

  /** The message `json_to_csv` raises with when the value is neither a list nor an object. */
  const JsonToCsvPrefix: string := "JSON转CSV失败: "
  const ShapeError: string := JsonToCsvPrefix + "JSON数据必须是对象数组或单个对象"

  /** The value a row holds for a field its object lacks. */
  const Missing: Json := JString("")

  /**
    What `json_to_csv` hands to the CSV writer: nothing at all for an empty
    list, otherwise the BOM, the header row and one row per object.
   */
  datatype CsvDoc = Blank | Table(bom: string, header: seq<string>, rows: seq<seq<Json>>)

  /** A single object stands for the one-element list holding it; other non-lists are refused. */
  function AsList(data: Json): (r: Outcome<seq<Json>>)
    ensures data.JArray? ==> r == Ok(data.items)
    ensures data.JObject? ==> r == Ok([data])
    ensures !data.JArray? && !data.JObject? ==> r == Fault(ShapeError)
  {
    match data
    case JArray(items) => Ok(items)
    case JObject(_) => Ok([data])
    case _ => Fault(ShapeError)
  }

  /** The objects of a list, in order; the other items are skipped. */
  function Records(items: seq<Json>): (recs: seq<Record>)
    ensures |recs| <= |items|
    ensures forall r :: r in recs ==> JObject(r) in items
    decreases |items|
  {
    if items == [] then []
    else
      var n := |items| - 1;
      var last := items[n];
      assert forall v :: v in items[..n] ==> v in items;
      Records(items[..n]) + (if last.JObject? then [last.fields] else [])
  }

  /** The union of the field names of the objects of a list. */
  function KeysOf(items: seq<Json>): (keys: set<string>)
    ensures forall i :: 0 <= i < |items| && items[i].JObject? ==> items[i].fields.Keys <= keys
    decreases |items|
  {
    if items == [] then {}
    else
      var n := |items| - 1;
      var last := items[n];
      assert forall i :: 0 <= i < n ==> items[..n][i] == items[i];
      KeysOf(items[..n]) + (if last.JObject? then last.fields.Keys else {})
  }

  /** `item.get(field, "")`. */
  function Get(r: Record, field: string): (v: Json) {
    if field in r then r[field] else Missing
  }

  /** The row written for one object: its value for each field of the header, in header order. */
  function Row(header: seq<string>, r: Record): (row: seq<Json>)
    ensures |row| == |header|
  {
    seq(|header|, j requires 0 <= j < |header| => Get(r, header[j]))
  }

  function Rows(header: seq<string>, recs: seq<Record>): (rows: seq<seq<Json>>)
    ensures |rows| == |recs|
  {
    seq(|recs|, i requires 0 <= i < |recs| => Row(header, recs[i]))
  }

  /** What `json_to_csv` produces for a parsed value, or the error it raises. */
  ghost function Tabulation(data: Json): (r: Outcome<CsvDoc>)
    ensures r.Fault? <==> !data.JArray? && !data.JObject?
    ensures r.Fault? ==> r.message == ShapeError
    ensures r.Ok? ==> (r.value.Blank? <==> data == JArray([]))
    ensures r.Ok? && r.value.Table? ==>
      && r.value.bom == Bom
      && StrictlySorted(r.value.header)
      && |r.value.rows| <= |AsList(data).value|
      && forall i :: 0 <= i < |r.value.rows| ==> |r.value.rows[i]| == |r.value.header|
  {
    match AsList(data)
    case Fault(e) => Fault(e)
    case Ok(items) =>
      if items == [] then Ok(Blank)
      else
        var header := SortedOf(KeysOf(items));
        Ok(Table(Bom, header, Rows(header, Records(items))))
  }

  /**
    `json_to_csv` (after parsing): the field names are gathered into a set
    in one pass, sorted, and rows are produced in a second pass.
   */
  method JsonToCsv(data: Json) returns (r: Outcome<CsvDoc>)
    ensures r == Tabulation(data)
  {
    var items: seq<Json>;
    match data {
      case JObject(_) =>
        items := [data];
      case JArray(xs) =>
        items := xs;
      case _ =>
        return Fault(ShapeError);
    }
    if items == [] {
      return Ok(Blank);
    }
    var fieldnames := CollectFieldNames(items);
    var header := SortFieldNames(fieldnames);
    var rows := WriteRows(header, items);
    r := Ok(Table(Bom, header, rows));
  }

  /** The first pass: `fieldnames.update(item.keys())` for each object. */
  method CollectFieldNames(items: seq<Json>) returns (fieldnames: set<string>)
    ensures fieldnames == KeysOf(items)
  {
    fieldnames := {};
    var i := 0;
    while i < |items|
      invariant 0 <= i <= |items|
      invariant fieldnames == KeysOf(items[..i])
    {
      assert items[..i + 1][..i] == items[..i];
      if items[i].JObject? {
        fieldnames := fieldnames + items[i].fields.Keys;
      }
      i := i + 1;
    }
    assert items[..|items|] == items;
  }

  /** `sorted(list(fieldnames))`, one insertion at a time. */
  method SortFieldNames(fieldnames: set<string>) returns (header: seq<string>)
    ensures header == SortedOf(fieldnames)
  {
    header := [];
    var pending := fieldnames;
    while pending != {}
      invariant StrictlySorted(header)
      invariant Elems(header) + pending == fieldnames
      decreases |pending|
    {
      var k :| k in pending;
      header := InsertSorted(header, k);
      pending := pending - {k};
    }
    SortedOfUnique(header, fieldnames);
  }

  /** The second pass: one row per object, in order. */
  method WriteRows(header: seq<string>, items: seq<Json>) returns (rows: seq<seq<Json>>)
    ensures rows == Rows(header, Records(items))
  {
    rows := [];
    var i := 0;
    while i < |items|
      invariant 0 <= i <= |items|
      invariant rows == Rows(header, Records(items[..i]))
    {
      assert items[..i + 1][..i] == items[..i];
      if items[i].JObject? {
        rows := rows + [Row(header, items[i].fields)];
      }
      i := i + 1;
    }
    assert items[..|items|] == items;
  }

  /** `dict(zip(fieldnames, row))` as the CSV reader builds it; fields past the row's end get `None`. */
  function Zip(header: seq<string>, row: seq<Json>): (z: Record)
    ensures z.Keys == Elems(header)
    decreases |header|
  {
    if header == [] then map[]
    else
      var n := |header| - 1;
      assert header == header[..n] + [header[n]];
      Zip(header[..n], row)[header[n] := if n < |row| then row[n] else JNull]
  }

  /** Every value of the reader's zip is a cell of the row or `None`. */
  lemma {:induction false} ZipValues(header: seq<string>, row: seq<Json>)
    ensures forall k :: k in Zip(header, row) ==> Zip(header, row)[k] == JNull || Zip(header, row)[k] in row
    decreases |header|
  {
    if header != [] {
      ZipValues(header[..|header| - 1], row);
    }
  }

  /** `[row for row in csv.DictReader(...)]` after the header: empty rows are skipped. */
  function CsvToRecords(header: seq<string>, rows: seq<seq<Json>>): (recs: seq<Record>)
    ensures |recs| <= |rows|
    ensures forall i :: 0 <= i < |recs| ==> recs[i].Keys == Elems(header)
    decreases |rows|
  {
    if rows == [] then []
    else if rows[0] == [] then CsvToRecords(header, rows[1..])
    else [Zip(header, rows[0])] + CsvToRecords(header, rows[1..])
  }

  /** When every cell is a string, every value the reader yields is a string or `None`. */
  lemma {:induction false} CsvToRecordsValues(header: seq<string>, rows: seq<seq<Json>>)
    requires forall j, c :: 0 <= j < |rows| && c in rows[j] ==> c.JString?
    ensures forall i, k :: 0 <= i < |CsvToRecords(header, rows)| && k in CsvToRecords(header, rows)[i] ==>
      CsvToRecords(header, rows)[i][k].JString? || CsvToRecords(header, rows)[i][k] == JNull
    decreases |rows|
  {
    if rows != [] {
      assert forall j :: 0 <= j < |rows[1..]| ==> rows[1..][j] == rows[j + 1];
      CsvToRecordsValues(header, rows[1..]);
      ZipValues(header, rows[0]);
    }
  }

  /** The reader's view of a whole CSV text: its first line is the header, every cell a string. */
  function ReadRecords(lines: seq<seq<string>>): (recs: seq<Record>)
    ensures |lines| <= 1 ==> recs == []
    ensures lines != [] ==> forall i :: 0 <= i < |recs| ==> recs[i].Keys == Elems(lines[0])
    ensures forall i, k :: 0 <= i < |recs| && k in recs[i] ==> recs[i][k].JString? || recs[i][k] == JNull
  {
    if lines == [] then []
    else
      var rows := seq(|lines| - 1, i requires 0 <= i < |lines| - 1 => Cells(lines[i + 1]));
      CsvToRecordsValues(lines[0], rows);
      CsvToRecords(lines[0], rows)
  }

  function Cells(line: seq<string>): (row: seq<Json>)
    ensures |row| == |line|
  {
    seq(|line|, j requires 0 <= j < |line| => JString(line[j]))
  }

  // ----- properties of json_to_csv -----

  /** A single object is tabulated exactly as the list holding only it. */
  lemma SingleObjectAsList(m: Record)
    ensures Tabulation(JObject(m)) == Tabulation(JArray([JObject(m)]))
  {
  }

  /** A value that is neither a list nor an object is an error. */
  lemma ScalarRejected(v: Json)
    requires !v.JArray? && !v.JObject?
    ensures Tabulation(v) == Fault(ShapeError)
  {
  }

  /** The empty list gives the empty text: no BOM and no header. */
  lemma EmptyListBlank()
    ensures Tabulation(JArray([])) == Ok(Blank)
  {
  }

  /** Records distributes over concatenation. */
  lemma {:induction false} RecordsAppend(xs: seq<Json>, ys: seq<Json>)
    ensures Records(xs + ys) == Records(xs) + Records(ys)
    decreases |ys|
  {
    if ys != [] {
      var n := |ys| - 1;
      assert (xs + ys)[..|xs + ys| - 1] == xs + ys[..n];
      RecordsAppend(xs, ys[..n]);
    } else {
      assert xs + ys == xs;
    }
  }

  /** One record per object of the list, in list order; every other item contributes none. */
  lemma RecordsAreTheObjects(items: seq<Json>, v: Json)
    ensures Records(items + [v]) == Records(items) + (if v.JObject? then [v.fields] else [])
    ensures Records([v] + items) == (if v.JObject? then [v.fields] else []) + Records(items)
  {
    RecordsAppend(items, [v]);
    RecordsAppend([v], items);
    assert [v][..0] == [];
  }

  /** A field name is in the header set iff some object of the list has it. */
  lemma {:induction false} KeysOfMeans(items: seq<Json>, k: string)
    ensures k in KeysOf(items) <==> exists i :: 0 <= i < |items| && items[i].JObject? && k in items[i].fields
    decreases |items|
  {
    if items != [] {
      var n := |items| - 1;
      KeysOfMeans(items[..n], k);
      if k in KeysOf(items[..n]) {
        var i :| 0 <= i < n && items[..n][i].JObject? && k in items[..n][i].fields;
        assert items[i] == items[..n][i];
      }
      if exists i :: 0 <= i < |items| && items[i].JObject? && k in items[i].fields {
        var i :| 0 <= i < |items| && items[i].JObject? && k in items[i].fields;
        if i < n {
          assert items[..n][i] == items[i];
        }
      }
    }
  }

  /**
    On a non-empty list the result is a table: the BOM, a strictly sorted
    (so duplicate-free) header whose names are exactly the field names of
    the objects, and one row per object, in order, each as long as the
    header, holding the object's value or "" for each field.
   */
  lemma TableShape(items: seq<Json>)
    requires items != []
    ensures Tabulation(JArray(items)).Ok? && Tabulation(JArray(items)).value.Table?
    ensures var t := Tabulation(JArray(items)).value;
      && t.bom == Bom
      && StrictlySorted(t.header)
      && (forall k :: k in t.header <==> exists i :: 0 <= i < |items| && items[i].JObject? && k in items[i].fields)
      && |t.rows| == |Records(items)|
      && (forall i :: 0 <= i < |t.rows| ==> |t.rows[i]| == |t.header|)
      && (forall i, j :: 0 <= i < |t.rows| && 0 <= j < |t.header| ==>
            t.rows[i][j] == (if t.header[j] in Records(items)[i] then Records(items)[i][t.header[j]] else Missing))
  {
    var t := Tabulation(JArray(items)).value;
    forall k ensures k in t.header <==> exists i :: 0 <= i < |items| && items[i].JObject? && k in items[i].fields {
      KeysOfMeans(items, k);
      assert k in t.header <==> k in Elems(t.header);
    }
  }

  // ----- properties of csv_to_json on what json_to_csv wrote -----

  predicate Distinct(header: seq<string>) {
    forall i, j :: 0 <= i < j < |header| ==> header[i] != header[j]
  }

  /** Zipping a duplicate-free header with a full row maps each field to its own column. */
  lemma ZipAt(header: seq<string>, row: seq<Json>)
    requires Distinct(header) && |row| == |header|
    ensures forall j :: 0 <= j < |header| ==> Zip(header, row)[header[j]] == row[j]
  {
    forall j | 0 <= j < |header| ensures Zip(header, row)[header[j]] == row[j] {
      assert LastColumn(header, j);
      ZipMeans(header, row, j);
    }
  }

  /** Zip reads only the first |header| cells. */
  lemma {:induction false} ZipPrefix(header: seq<string>, row: seq<Json>)
    requires |header| <= |row|
    ensures Zip(header, row) == Zip(header, row[..|header|])
    decreases |header|
  {
    if header != [] {
      var n := |header| - 1;
      ZipPrefix(header[..n], row);
      ZipPrefix(header[..n], row[..|header|]);
      assert row[..|header|][..n] == row[..n];
    }
  }

  /** Each field of the header reads back as the object's value for it, or "" when it has none. */
  lemma ZipRow(header: seq<string>, d: Record)
    requires StrictlySorted(header)
    ensures forall k :: k in Zip(header, Row(header, d)) ==> Zip(header, Row(header, d))[k] == Get(d, k)
  {
    StrictlySortedDistinct(header);
    var row := Row(header, d);
    ZipAt(header, row);
    var z := Zip(header, row);
    forall k | k in z ensures z[k] == Get(d, k) {
      assert k in Elems(header);
      var j :| 0 <= j < |header| && header[j] == k;
      assert z[header[j]] == row[j] == Get(d, header[j]);
    }
  }

  /**
    Record-level round trip: zipping the header with the row written for
    an object `d`, then keeping `d`'s fields, gives back `d`; every other
    field of the header reads as "".
   */
  lemma RowRoundTrip(header: seq<string>, d: Record)
    requires StrictlySorted(header) && d.Keys <= Elems(header)
    ensures var z := Zip(header, Row(header, d));
      && z.Keys == Elems(header)
      && (map k | k in d.Keys :: z[k]) == d
      && (forall k :: k in z && k !in d ==> z[k] == Missing)
  {
    var z := Zip(header, Row(header, d));
    ZipRow(header, d);
    var back := map k | k in d.Keys :: z[k];
    assert back.Keys == d.Keys;
    assert forall k :: k in d ==> back[k] == d[k];
  }

  /**
    Document-level round trip: reading back the header and the rows handed
    to the writer for a non-empty list with at least one field name gives
    one record per object, in order, and each holds its object's values for
    the object's own fields. The values are compared as handed to the
    writer; the reader of the source returns their text.
   */
  lemma TableRoundTrip(items: seq<Json>)
    requires items != [] && KeysOf(items) != {}
    ensures var t := Tabulation(JArray(items)).value;
      var back := CsvToRecords(t.header, t.rows);
      && |back| == |Records(items)|
      && forall i, k :: 0 <= i < |back| && k in Records(items)[i] ==> k in back[i] && back[i][k] == Records(items)[i][k]
  {
    var t := Tabulation(JArray(items)).value;
    var recs := Records(items);
    assert t.header != [] by { ElemsEmpty(t.header); }
    forall i | 0 <= i < |recs| ensures recs[i].Keys <= Elems(t.header) {
      RecordKeysInKeysOf(items, i);
    }
    ReadRowsBack(t.header, recs);
    var back := CsvToRecords(t.header, t.rows);
    forall i, k | 0 <= i < |back| && k in recs[i] ensures k in back[i] && back[i][k] == recs[i][k] {
      RowRoundTrip(t.header, recs[i]);
    }
  }

  /**
    The boundary of the round trip: when no object has a field, the header
    is empty, every row written is empty, and the reader skips them all, so
    a list such as `[{}]` reads back as `[]` whichever way it is decoded.
   */
  lemma FieldlessObjectsVanish(items: seq<Json>)
    requires items != [] && KeysOf(items) == {}
    ensures var t := Tabulation(JArray(items)).value;
      && t.Table? && t.header == []
      && CsvToRecords(t.header, t.rows) == []
      && CsvToRecords(HeaderAsRead(t.bom, t.header), t.rows) == []
      && CsvToRecords(StripBom(HeaderAsRead(t.bom, t.header)), t.rows) == []
  {
    var t := Tabulation(JArray(items)).value;
    ElemsEmpty(t.header);
    assert forall i :: 0 <= i < |t.rows| ==> t.rows[i] == [];
    CsvToRecordsMeans(t.header, t.rows);
    CsvToRecordsMeans(HeaderAsRead(t.bom, t.header), t.rows);
    CsvToRecordsMeans(StripBom(HeaderAsRead(t.bom, t.header)), t.rows);
  }

  /** `[{}]` holds one object, yet it reads back as no record at all. */
  lemma EmptyObjectLost()
    ensures var items := [JObject(map[])];
      var t := Tabulation(JArray(items)).value;
      |Records(items)| == 1 && CsvToRecords(t.header, t.rows) == []
  {
    var items := [JObject(map[])];
    assert items[..0] == [];
    assert KeysOf(items) == {};
    FieldlessObjectsVanish(items);
  }

  /** Each record's field names are among KeysOf of its list. */
  lemma {:induction false} RecordKeysInKeysOf(items: seq<Json>, i: nat)
    requires i < |Records(items)|
    ensures Records(items)[i].Keys <= KeysOf(items)
    decreases |items|
  {
    var n := |items| - 1;
    if i < |Records(items[..n])| {
      RecordKeysInKeysOf(items[..n], i);
    }
  }

  /** The rows written for records under a non-empty header read back as their zips, one each. */
  lemma {:induction false} ReadRowsBack(header: seq<string>, recs: seq<Record>)
    requires header != []
    ensures CsvToRecords(header, Rows(header, recs)) == seq(|recs|, i requires 0 <= i < |recs| => Zip(header, Row(header, recs[i])))
    decreases |recs|
  {
    if recs != [] {
      var rows := Rows(header, recs);
      assert rows[0] != [] by { assert |rows[0]| == |header|; }
      assert rows[1..] == Rows(header, recs[1..]);
      ReadRowsBack(header, recs[1..]);
    }
  }

  // ----- properties of csv_to_json -----

  /** Column `j` is the last column named `header[j]`. */
  predicate LastColumn(header: seq<string>, j: int) {
    0 <= j < |header| && forall l :: j < l < |header| ==> header[l] != header[j]
  }

  /**
    What the reader's zip means: a field takes the cell of its last column
    (a later duplicate wins), and a field past the end of a short row reads
    as `None`.
   */
  lemma {:induction false} ZipMeans(header: seq<string>, row: seq<Json>, j: int)
    requires LastColumn(header, j)
    ensures header[j] in Zip(header, row) && Zip(header, row)[header[j]] == if j < |row| then row[j] else JNull
    decreases |header|
  {
    var n := |header| - 1;
    var init := header[..n];
    assert Zip(header, row) == Zip(init, row)[header[n] := if n < |row| then row[n] else JNull];
    if j < n {
      assert header[n] != header[j] && init[j] == header[j];
      assert LastColumn(init, j) by {
        forall l | j < l < |init| ensures init[l] != init[j] {
          assert init[l] == header[l];
        }
      }
      ZipMeans(init, row, j);
    }
  }

  /**
    The reader yields one record per row when no row is empty, namely the
    zip of each row, in order; all rows empty yield nothing.
   */
  lemma {:induction false} CsvToRecordsMeans(header: seq<string>, rows: seq<seq<Json>>)
    ensures (forall i :: 0 <= i < |rows| ==> rows[i] != []) ==>
      CsvToRecords(header, rows) == seq(|rows|, i requires 0 <= i < |rows| => Zip(header, rows[i]))
    ensures (forall i :: 0 <= i < |rows| ==> rows[i] == []) ==> CsvToRecords(header, rows) == []
    decreases |rows|
  {
    if rows != [] {
      CsvToRecordsMeans(header, rows[1..]);
      if forall i :: 0 <= i < |rows| ==> rows[i] != [] {
        assert forall i :: 0 <= i < |rows[1..]| ==> rows[1..][i] == rows[i + 1];
      }
      if forall i :: 0 <= i < |rows| ==> rows[i] == [] {
        assert forall i :: 0 <= i < |rows[1..]| ==> rows[1..][i] == rows[i + 1];
      }
    }
  }


  // ----- reading back a file json_to_csv wrote -----

  /**
    The header row `csv.DictReader` sees when the written text is decoded
    as plain UTF-8: the BOM is an ordinary character of the first line, so
    it stays in front of the first field name.
   */
  function HeaderAsRead(bom: string, header: seq<string>): (h: seq<string>)
    ensures |h| == if header == [] then 1 else |header|
  {
    if header == [] then [bom] else [bom + header[0]] + header[1..]
  }

  /**
    What decoding as `"utf-8-sig"` does to that row: one leading BOM is
    dropped. This describes a first field name longer than the BOM. A line
    that held only the BOM, as written for `[{}]`, leaves an empty line,
    which the reader takes as no field at all; this function keeps one
    empty field there instead.
   */
  function StripBom(header: seq<string>): (h: seq<string>)
    ensures |h| == |header|
    ensures header != [] && |header[0]| >= |Bom| && header[0][..|Bom|] == Bom ==> h[0] == header[0][|Bom|..]
  {
    if header != [] && |header[0]| >= |Bom| && header[0][..|Bom|] == Bom then
      [header[0][|Bom|..]] + header[1..]
    else
      header
  }

  /**
    As written: for `{"a": 1}` converted to CSV and the file converted back,
    the record's field is named BOM-"a", and "a" itself is gone.
   */
  lemma BomBreaksRoundTrip()
    ensures var t := Tabulation(JArray([JObject(map["a" := JNumber(1)])])).value;
      var back := CsvToRecords(HeaderAsRead(t.bom, t.header), t.rows);
      |back| == 1 && "a" !in back[0] && Bom + "a" in back[0]
  {
    var items := [JObject(map["a" := JNumber(1)])];
    assert KeysOf(items) == {"a"} by {
      assert items[..0] == [];
    }
    assert Elems(["a"]) == {"a"};
    SortedOfUnique(["a"], {"a"});
    var t := Tabulation(JArray(items)).value;
    assert t.header == ["a"];
    var h := HeaderAsRead(t.bom, t.header);
    assert h == [Bom + "a"];
    assert Records(items) == [map["a" := JNumber(1)]] by {
      assert items[..0] == [];
    }
    assert Row(["a"], map["a" := JNumber(1)]) == [JNumber(1)];
    assert t.rows == [[JNumber(1)]];
    assert h[..0] == [];
    assert Zip(h, t.rows[0]) == map[Bom + "a" := JNumber(1)];
    assert Bom + "a" != "a";
  }

  /**
    Corrected: when the BOM is dropped on reading, the header read back is
    the header written, so the document-level round trip holds (values
    compared as handed to the writer).
   */
  lemma BomAwareRoundTrip(items: seq<Json>)
    requires items != [] && KeysOf(items) != {}
    ensures var t := Tabulation(JArray(items)).value;
      var back := CsvToRecords(StripBom(HeaderAsRead(t.bom, t.header)), t.rows);
      && |back| == |Records(items)|
      && forall i, k :: 0 <= i < |back| && k in Records(items)[i] ==> k in back[i] && back[i][k] == Records(items)[i][k]
  {
    var t := Tabulation(JArray(items)).value;
    assert t.header != [] by { ElemsEmpty(t.header); }
    var first := Bom + t.header[0];
    assert first[..|Bom|] == Bom && first[|Bom|..] == t.header[0];
    assert StripBom(HeaderAsRead(t.bom, t.header)) == t.header;
    TableRoundTrip(items);
  }
}
