/** `parse_climate`: the table of Indian cities by Köppen climate class becomes a
    sequence of (city, Köppen code) records, one per city link, in document order. */
module ScrapClimate {
  import opened Text
  import opened Soup

  /** One output record: the `City` and `Koppen Code` columns of one line. */
  datatype Record = Record(city: string, koppenCode: string)

  /** Column of a data row that holds the Köppen code. */
  const CodeColumn := 2
  /** Column of a data row whose links name the cities of that climate. */
  const CitiesColumn := 3

  /** A row can be read only when both columns exist; indexing a shorter row raises. */
  predicate HasColumns(row: Row) {
    |row| > CitiesColumn
  }

  predicate AllHaveColumns(body: seq<Row>) {
    forall i :: 0 <= i < |body| ==> HasColumns(body[i])
  }

  /** What the extraction needs of a document: every row but the first (the header,
      which is never looked at) has the code and cities columns. */
  predicate WellFormed(rows: seq<Row>) {
    forall i :: 1 <= i < |rows| ==> HasColumns(rows[i])
  }

  /** `rows[1:]`: every row but the first; empty for an empty document. */
  function DataRows(rows: seq<Row>): (body: seq<Row>)
    ensures |body| == if rows == [] then 0 else |rows| - 1
    ensures forall i :: 0 <= i < |body| ==> body[i] == rows[i + 1]
    ensures WellFormed(rows) ==> AllHaveColumns(body)
  {
    if rows == [] then [] else rows[1..]
  }

  /** The row's Köppen code: the text of the code cell, read with
      `get_text(strip=True)`. */
  function KoppenCode(row: Row): string
    requires |row| > CodeColumn
  {
    JoinStripped(row[CodeColumn].text)
  }

  /** The row's cities: the text of each link in the cities cell, read with
      `.text.strip()`, in link order. */
  function Cities(row: Row): (cities: seq<string>)
    requires HasColumns(row)
    ensures |cities| == |row[CitiesColumn].links|
    ensures forall j :: 0 <= j < |cities| ==> cities[j] == StripJoined(row[CitiesColumn].links[j])
  {
    var links := row[CitiesColumn].links;
    seq(|links|, j requires 0 <= j < |links| => StripJoined(links[j]))
  }

  /** The records one data row contributes: one per city, each tagged with the
      row's code. */
  function RowRecords(row: Row): (records: seq<Record>)
    requires HasColumns(row)
    ensures |records| == |row[CitiesColumn].links|
    ensures forall j :: 0 <= j < |records| ==> records[j] == Record(Cities(row)[j], KoppenCode(row))
  {
    var cities, code := Cities(row), KoppenCode(row);
    seq(|cities|, j requires 0 <= j < |cities| => Record(cities[j], code))
  }

  /** The records of a run of data rows: each row's records, in row order. */
  function ExtractRows(body: seq<Row>): (records: seq<Record>)
    requires AllHaveColumns(body)
  {
    if body == [] then [] else RowRecords(body[0]) + ExtractRows(body[1..])
  }

  /** The records `parse_climate` hands to the data frame for a document whose
      `tr` rows are `rows`. */
  function Extract(rows: seq<Row>): (records: seq<Record>)
    requires WellFormed(rows)
  {
    ExtractRows(DataRows(rows))
  }

  /** The number of city links in the cities cells of a run of data rows. */
  function LinkCount(body: seq<Row>): nat
    requires AllHaveColumns(body)
  {
    if body == [] then 0 else |body[0][CitiesColumn].links| + LinkCount(body[1..])
  }

  /** The extraction loop: for each data row, read its code and cities, then
      append one record per city to `data`. */
  method ParseClimate(rows: seq<Row>) returns (data: seq<Record>)
    requires WellFormed(rows)
    ensures data == Extract(rows)
  {
    var body := DataRows(rows);
    data := [];
    for i := 0 to |body|
      invariant data == ExtractRows(body[..i])
    {
      var row := body[i];
      var code := KoppenCode(row);
      var cities := Cities(row);
      ghost var before := data;
      for j := 0 to |cities|
        invariant data == before + RowRecords(row)[..j]
      {
        data := data + [Record(cities[j], code)];
      }
      assert RowRecords(row)[..|cities|] == RowRecords(row);
      ExtractRowsAppend(body[..i], [row]);
      assert body[..i] + [row] == body[..i + 1];
      assert [row][1..] == [];
    }
    assert body[..|body|] == body;
  }

  /** Extraction distributes over concatenation of row runs: a row's records do not
      depend on its neighbours, and earlier rows' records come first. */
  lemma {:induction false} ExtractRowsAppend(a: seq<Row>, b: seq<Row>)
    requires AllHaveColumns(a) && AllHaveColumns(b)
    ensures AllHaveColumns(a + b)
    ensures ExtractRows(a + b) == ExtractRows(a) + ExtractRows(b)
  {
    if a == [] {
      assert a + b == b;
    } else {
      assert (a + b)[1..] == a[1..] + b;
      ExtractRowsAppend(a[1..], b);
    }
  }

  /** A document of zero or one rows has no data rows and yields no records. */
  lemma ShortDocumentYieldsNothing(rows: seq<Row>)
    requires |rows| <= 1
    ensures WellFormed(rows) && Extract(rows) == []
  {
  }

  /** The header row is never read: replacing it by any row leaves the result
      unchanged. */
  lemma HeaderIgnored(rows: seq<Row>, header: Row)
    requires |rows| >= 1 && WellFormed(rows)
    ensures WellFormed(rows[0 := header])
    ensures Extract(rows[0 := header]) == Extract(rows)
  {
    assert DataRows(rows[0 := header]) == DataRows(rows);
  }

  /** There are as many records as there are city links in the data rows. */
  lemma {:induction false} ExtractRowsCount(body: seq<Row>)
    requires AllHaveColumns(body)
    ensures |ExtractRows(body)| == LinkCount(body)
  {
    if body != [] {
      ExtractRowsCount(body[1..]);
    }
  }

  lemma RecordCount(rows: seq<Row>)
    requires WellFormed(rows)
    ensures |Extract(rows)| == LinkCount(DataRows(rows))
  {
    ExtractRowsCount(DataRows(rows));
  }

  /** Where each link's record lands: the records of data row `i` start after those
      of the rows before it, and the `j`-th of them is the `j`-th link's city with
      row `i`'s code. With `ExtractRowsCount` this determines the whole output. */
  lemma {:induction false} RecordAt(body: seq<Row>, i: nat, j: nat)
    requires AllHaveColumns(body)
    requires i < |body| && j < |body[i][CitiesColumn].links|
    ensures LinkCount(body[..i]) + j < |ExtractRows(body)|
    ensures ExtractRows(body)[LinkCount(body[..i]) + j]
         == Record(StripJoined(body[i][CitiesColumn].links[j]), KoppenCode(body[i]))
  {
    var head := RowRecords(body[0]);
    if i == 0 {
      assert body[..0] == [];
    } else {
      var rest := body[1..];
      RecordAt(rest, i - 1, j);
      assert body[..i] == [body[0]] + rest[..i - 1];
      assert ([body[0]] + rest[..i - 1])[1..] == rest[..i - 1];
      assert rest[i - 1] == body[i];
    }
  }

  /** `RecordAt` for a whole document: the `j`-th link of document row `i` (row 0
      being the header) gives the record after those of rows `1` to `i - 1`. */
  lemma ExtractRecordAt(rows: seq<Row>, i: nat, j: nat)
    requires WellFormed(rows)
    requires 1 <= i < |rows| && j < |rows[i][CitiesColumn].links|
    ensures AllHaveColumns(rows[1..i])
    ensures LinkCount(rows[1..i]) + j < |Extract(rows)|
    ensures Extract(rows)[LinkCount(rows[1..i]) + j]
         == Record(StripJoined(rows[i][CitiesColumn].links[j]), KoppenCode(rows[i]))
  {
    var body := DataRows(rows);
    assert body[..i - 1] == rows[1..i];
    RecordAt(body, i - 1, j);
  }

  /** Every record comes from some data row: its code is that row's code and its
      city one of that row's cities. */
  lemma {:induction false} RecordOrigin(body: seq<Row>, r: Record)
    requires AllHaveColumns(body)
    requires r in ExtractRows(body)
    ensures exists i :: 0 <= i < |body| && r.koppenCode == KoppenCode(body[i]) && r.city in Cities(body[i])
  {
    if r in RowRecords(body[0]) {
      var j :| 0 <= j < |RowRecords(body[0])| && RowRecords(body[0])[j] == r;
      assert r.city == Cities(body[0])[j];
    } else {
      RecordOrigin(body[1..], r);
      var i :| 0 <= i < |body[1..]| && r.koppenCode == KoppenCode(body[1..][i]) && r.city in Cities(body[1..][i]);
      assert body[1..][i] == body[i + 1];
    }
  }

  /** Every city and every code in the output is trimmed, and stripping a city
      again changes nothing. */
  lemma RecordsAreTrimmed(rows: seq<Row>, r: Record)
    requires WellFormed(rows)
    requires r in Extract(rows)
    ensures NoEdgeSpace(r.city) && Strip(r.city) == r.city
    ensures NoEdgeSpace(r.koppenCode)
  {
    var body := DataRows(rows);
    RecordOrigin(body, r);
    var i :| 0 <= i < |body| && r.koppenCode == KoppenCode(body[i]) && r.city in Cities(body[i]);
    var j :| 0 <= j < |Cities(body[i])| && Cities(body[i])[j] == r.city;
    StripJoinedTrimmed(body[i][CitiesColumn].links[j]);
    JoinStrippedTrimmed(body[i][CodeColumn].text);
  }

  /** A data row whose cities cell has no links adds no records and leaves the
      records of the rows around it as they were. */
  lemma RowWithoutLinksAddsNothing(a: seq<Row>, row: Row, b: seq<Row>)
    requires AllHaveColumns(a) && AllHaveColumns(b)
    requires HasColumns(row) && row[CitiesColumn].links == []
    ensures AllHaveColumns(a + [row] + b) && AllHaveColumns(a + b)
    ensures ExtractRows(a + [row] + b) == ExtractRows(a + b)
  {
    ExtractRowsAppend(a, [row]);
    ExtractRowsAppend(a + [row], b);
    ExtractRowsAppend(a, b);
    assert [row][1..] == [];
  }

  /** A link whose text is only whitespace still yields a record, with an empty
      city: nothing in the extraction drops it. */
  lemma BlankLinkGivesEmptyCity(row: Row, j: nat)
    requires HasColumns(row) && j < |row[CitiesColumn].links|
    requires AllSpace(Concat(row[CitiesColumn].links[j]))
    ensures RowRecords(row)[j] == Record("", KoppenCode(row))
  {
    var e: string := [];
    StripCharacterized(Concat(row[CitiesColumn].links[j]), e, e);
    assert Concat(row[CitiesColumn].links[j]) + e + e == Concat(row[CitiesColumn].links[j]);
  }

  /** One header row and one data row whose code cell reads "Aw" and whose cities
      cell links "Mumbai" and "Thane" give two records, both tagged "Aw". */
  lemma MumbaiAndThane(header: Row, c0: Cell, c1: Cell)
    ensures WellFormed([header, [c0, c1, Cell(["Aw"], []), Cell(["Mumbai", ", ", "Thane"], [["Mumbai"], ["Thane"]])]])
    ensures Extract([header, [c0, c1, Cell(["Aw"], []), Cell(["Mumbai", ", ", "Thane"], [["Mumbai"], ["Thane"]])]])
         == [Record("Mumbai", "Aw"), Record("Thane", "Aw")]
  {
    var e: string := [];
    var row := [c0, c1, Cell(["Aw"], []), Cell(["Mumbai", ", ", "Thane"], [["Mumbai"], ["Thane"]])];
    var rows := [header, row];
    assert KoppenCode(row) == "Aw" by {
      JoinStrippedSingle("Aw");
      StripCharacterized(e, "Aw", e);
      assert e + "Aw" + e == "Aw";
    }
    assert Cities(row) == ["Mumbai", "Thane"] by {
      ConcatSingle("Mumbai");
      StripCharacterized(e, "Mumbai", e);
      assert e + "Mumbai" + e == "Mumbai";
      ConcatSingle("Thane");
      StripCharacterized(e, "Thane", e);
      assert e + "Thane" + e == "Thane";
    }
    assert DataRows(rows) == [row];
    assert [row][1..] == [];
    assert RowRecords(row) == [Record("Mumbai", "Aw"), Record("Thane", "Aw")];
    assert Extract(rows) == RowRecords(row) + ExtractRows([]);
  }
}
