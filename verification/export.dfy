/** `exportReadingLists` and `convertToCSV`: every book of the three reading
    lists becomes one CSV line, after a header line. Fields are wrapped in
    double quotes without escaping, so the output is not meant to be parsed
    back. The Blob download is not modelled. */
module Export {
  import opened Wrappers
  import opened Text
  import opened Books
  import opened ReadingLists

  /** One exported book, every field already rendered as text. */
  datatype Row = Row(title: string, authors: string, publisher: string, publishedDate: string,
                     categories: string, pageCount: string)

  /** `value || fallback` for an optional string. */
  function OrElse(value: Option<string>, fallback: string): (r: string)
    ensures fallback != "" ==> r != ""
    ensures value.Some? && value.value != "" ==> r == value.value
    ensures value.None? || value.value == "" ==> r == fallback
  {
    if value.Some? && value.value != "" then value.value else fallback
  }

  /** `list?.join(', ')`. */
  function JoinedOpt(list: Option<seq<string>>): Option<string> {
    match list
    case None => None
    case Some(items) => Some(Join(items, ", "))
  }

  /** `pageCount || 'N/A'` as interpolated text. */
  function PageCountText(pageCount: Option<int>): (r: string)
    ensures r != ""
    ensures pageCount.Some? && pageCount.value != 0 ==> r == IntToString(pageCount.value)
    ensures pageCount.None? || pageCount.value == 0 ==> r == "N/A"
  {
    if pageCount.Some? && pageCount.value != 0 then IntToString(pageCount.value) else "N/A"
  }

  /** A text field that is present and non-empty. */
  predicate Given(value: Option<string>) {
    value.Some? && value.value != ""
  }

  /** The row `exportReadingLists` builds for one book: each field is the
      book's value when present and non-empty (lists joined with ", "),
      else a fixed placeholder. */
  function ExportRow(b: Book): (r: Row)
    ensures r.title != "" && r.authors != "" && r.publisher != "" && r.publishedDate != ""
    ensures r.categories != "" && r.pageCount != ""
    ensures Given(b.info.title) ==> r.title == b.info.title.value
    ensures !Given(b.info.title) ==> r.title == "Untitled"
    ensures Given(JoinedOpt(b.info.authors)) ==> r.authors == Join(b.info.authors.value, ", ")
    ensures !Given(JoinedOpt(b.info.authors)) ==> r.authors == "Unknown Author"
    ensures Given(b.info.publisher) ==> r.publisher == b.info.publisher.value
    ensures !Given(b.info.publisher) ==> r.publisher == "Unknown Publisher"
    ensures Given(b.info.publishedDate) ==> r.publishedDate == b.info.publishedDate.value
    ensures !Given(b.info.publishedDate) ==> r.publishedDate == "Unknown Date"
    ensures Given(JoinedOpt(b.info.categories)) ==> r.categories == Join(b.info.categories.value, ", ")
    ensures !Given(JoinedOpt(b.info.categories)) ==> r.categories == "Uncategorized"
    ensures r.pageCount == PageCountText(b.info.pageCount)
  {
    Row(OrElse(b.info.title, "Untitled"),
        OrElse(JoinedOpt(b.info.authors), "Unknown Author"),
        OrElse(b.info.publisher, "Unknown Publisher"),
        OrElse(b.info.publishedDate, "Unknown Date"),
        OrElse(JoinedOpt(b.info.categories), "Uncategorized"),
        PageCountText(b.info.pageCount))
  }

  function ExportRows(books: seq<Book>): (rows: seq<Row>)
    ensures |rows| == |books|
    ensures forall i :: 0 <= i < |books| ==> rows[i] == ExportRow(books[i])
  {
    seq(|books|, i requires 0 <= i < |books| => ExportRow(books[i]))
  }

  /** The object handed to `convertToCSV`, its keys in insertion order. */
  function ExportData(favorites: seq<Book>, toRead: seq<Book>, read: seq<Book>)
    : (data: seq<(string, seq<Row>)>)
    ensures |data| == 3
    ensures data[0].0 == "favorites" && data[1].0 == "toRead" && data[2].0 == "read"
    ensures data[0].1 == ExportRows(favorites) && data[1].1 == ExportRows(toRead) && data[2].1 == ExportRows(read)
  {
    [("favorites", ExportRows(favorites)), ("toRead", ExportRows(toRead)), ("read", ExportRows(read))]
  }

  const HeaderNames: string := "List,Title,Authors,Publisher,"
  const HeaderDetails: string := "Published Date,Categories,Page Count"

  /** The header line: the column names separated by commas, unquoted. */
  const Header: string := HeaderNames + HeaderDetails + "\n"

  lemma HeaderIsOneLine()
    ensures NewlineCount(Header) == 1
  {
    assert '\n' !in HeaderNames + HeaderDetails;
    CountNone(HeaderNames + HeaderDetails);
    CountConcat(HeaderNames + HeaderDetails, "\n");
  }

  function Quote(field: string): (r: string)
    ensures |r| == |field| + 2 && r[0] == '"' && r[|r| - 1] == '"' && r[1..|r| - 1] == field
  {
    "\"" + field + "\""
  }

  /** Fields in double quotes, separated by commas. */
  function CsvRecord(fields: seq<string>): string {
    if |fields| == 0 then ""
    else if |fields| == 1 then Quote(fields[0])
    else Quote(fields[0]) + "," + CsvRecord(fields[1..])
  }

  function LineFields(listType: string, r: Row): seq<string> {
    [listType, r.title, r.authors, r.publisher, r.publishedDate, r.categories, r.pageCount]
  }

  /** One CSV line: the list name and the six fields, each in double quotes. */
  function CsvLine(listType: string, r: Row): (line: string)
    ensures |line| > 0 && line[|line| - 1] == '\n'
  {
    CsvRecord(LineFields(listType, r)) + "\n"
  }

  /** The lines for the rows of one list. */
  function ListLines(listType: string, rows: seq<Row>): string {
    if rows == [] then "" else ListLines(listType, rows[..|rows| - 1]) + CsvLine(listType, rows[|rows| - 1])
  }

  /** The lines for all lists, in key order. */
  function Body(data: seq<(string, seq<Row>)>): string {
    if data == [] then "" else Body(data[..|data| - 1]) + ListLines(data[|data| - 1].0, data[|data| - 1].1)
  }

  /** The inner `forEach` of `convertToCSV`: one line per row of one list, appended to `prefix`. */
  method AppendListLines(prefix: string, listType: string, rows: seq<Row>) returns (out: string)
    ensures out == prefix + ListLines(listType, rows)
  {
    out := prefix;
    var j := 0;
    while j < |rows|
      invariant 0 <= j <= |rows|
      invariant out == prefix + ListLines(listType, rows[..j])
    {
      var line := CsvLine(listType, rows[j]);
      assert rows[..j + 1][..j] == rows[..j];
      assert ListLines(listType, rows[..j + 1]) == ListLines(listType, rows[..j]) + line;
      out := out + line;
      j := j + 1;
    }
    assert rows[..j] == rows;
  }

  /** `convertToCSV`. */
  method ConvertToCsv(data: seq<(string, seq<Row>)>) returns (csv: string)
    ensures csv == Header + Body(data)
  {
    csv := Header;
    var i := 0;
    while i < |data|
      invariant 0 <= i <= |data|
      invariant csv == Header + Body(data[..i])
    {
      assert data[..i + 1][..i] == data[..i];
      assert Body(data[..i + 1]) == Body(data[..i]) + ListLines(data[i].0, data[i].1);
      csv := AppendListLines(csv, data[i].0, data[i].1);
      i := i + 1;
    }
    assert data[..i] == data;
  }

  /** The CSV text `exportReadingLists` produces for the current lists. */
  method ExportReadingLists(lists: ReadingLists) returns (csv: string)
    ensures csv == Header + Body(ExportData(lists.favorites, lists.toRead, lists.read))
  {
    var data := ExportData(lists.favorites, lists.toRead, lists.read);
    csv := ConvertToCsv(data);
  }

  // ---- line count ----

  /** The number of line breaks in `s`. */
  function NewlineCount(s: string): nat {
    if s == [] then 0 else NewlineCount(s[..|s| - 1]) + (if s[|s| - 1] == '\n' then 1 else 0)
  }

  lemma {:induction false} CountConcat(a: string, b: string)
    ensures NewlineCount(a + b) == NewlineCount(a) + NewlineCount(b)
  {
    if b == [] {
      assert a + b == a;
    } else {
      CountConcat(a, b[..|b| - 1]);
      assert (a + b)[..|a + b| - 1] == a + b[..|b| - 1];
    }
  }

  lemma {:induction false} CountNone(s: string)
    requires '\n' !in s
    ensures NewlineCount(s) == 0
  {
    if s != [] {
      assert s[..|s| - 1] <= s;
      CountNone(s[..|s| - 1]);
    }
  }

  predicate RowHasNoNewline(r: Row) {
    '\n' !in r.title && '\n' !in r.authors && '\n' !in r.publisher && '\n' !in r.publishedDate
    && '\n' !in r.categories && '\n' !in r.pageCount
  }

  function TotalRows(data: seq<(string, seq<Row>)>): nat {
    if data == [] then 0 else TotalRows(data[..|data| - 1]) + |data[|data| - 1].1|
  }

  lemma {:induction false} RecordHasNoNewline(fields: seq<string>)
    requires forall k :: 0 <= k < |fields| ==> '\n' !in fields[k]
    ensures '\n' !in CsvRecord(fields)
  {
    if |fields| > 1 {
      RecordHasNoNewline(fields[1..]);
    }
  }

  lemma CsvLineIsOneLine(listType: string, r: Row)
    requires '\n' !in listType && RowHasNoNewline(r)
    ensures NewlineCount(CsvLine(listType, r)) == 1
  {
    var fields := LineFields(listType, r);
    assert forall k :: 0 <= k < |fields| ==> '\n' !in fields[k] by {
      assert fields == [listType, r.title, r.authors, r.publisher, r.publishedDate, r.categories, r.pageCount];
    }
    RecordHasNoNewline(fields);
    CountNone(CsvRecord(fields));
    CountConcat(CsvRecord(fields), "\n");
  }

  lemma {:induction false} ListLinesCount(listType: string, rows: seq<Row>)
    requires '\n' !in listType && forall r :: r in rows ==> RowHasNoNewline(r)
    ensures NewlineCount(ListLines(listType, rows)) == |rows|
  {
    if rows != [] {
      var n := |rows| - 1;
      ListLinesCount(listType, rows[..n]);
      CsvLineIsOneLine(listType, rows[n]);
      CountConcat(ListLines(listType, rows[..n]), CsvLine(listType, rows[n]));
    }
  }

  lemma {:induction false} BodyCount(data: seq<(string, seq<Row>)>)
    requires forall k :: 0 <= k < |data| ==> '\n' !in data[k].0
    requires forall k, r :: 0 <= k < |data| && r in data[k].1 ==> RowHasNoNewline(r)
    ensures NewlineCount(Body(data)) == TotalRows(data)
  {
    if data != [] {
      var n := |data| - 1;
      BodyCount(data[..n]);
      ListLinesCount(data[n].0, data[n].1);
      CountConcat(Body(data[..n]), ListLines(data[n].0, data[n].1));
    }
  }

  lemma RowsHaveNoNewline(books: seq<Book>)
    requires forall b :: b in books ==> RowHasNoNewline(ExportRow(b))
    ensures forall r :: r in ExportRows(books) ==> RowHasNoNewline(r)
  {
    var rows := ExportRows(books);
    forall r | r in rows ensures RowHasNoNewline(r) {
      var i :| 0 <= i < |rows| && rows[i] == r;
      assert books[i] in books;
    }
  }

  lemma ExportTotalRows(favorites: seq<Book>, toRead: seq<Book>, read: seq<Book>)
    ensures TotalRows(ExportData(favorites, toRead, read)) == |favorites| + |toRead| + |read|
  {
    var data := ExportData(favorites, toRead, read);
    assert data[..2][..1] == data[..1] && data[..1][..0] == [];
    assert TotalRows(data[..1]) == |favorites|;
    assert TotalRows(data[..2]) == |favorites| + |toRead|;
  }

  /** When no exported field holds a line break, the CSV has one line for the
      header and one per book of the three lists. */
  lemma ExportLineCount(favorites: seq<Book>, toRead: seq<Book>, read: seq<Book>)
    requires forall b :: b in favorites ==> RowHasNoNewline(ExportRow(b))
    requires forall b :: b in toRead ==> RowHasNoNewline(ExportRow(b))
    requires forall b :: b in read ==> RowHasNoNewline(ExportRow(b))
    ensures NewlineCount(Header + Body(ExportData(favorites, toRead, read)))
      == 1 + |favorites| + |toRead| + |read|
  {
    var data := ExportData(favorites, toRead, read);
    RowsHaveNoNewline(favorites);
    RowsHaveNoNewline(toRead);
    RowsHaveNoNewline(read);
    BodyCount(data);
    ExportTotalRows(favorites, toRead, read);
    HeaderIsOneLine();
    CountConcat(Header, Body(data));
  }

  /** A book's line starts with its list's name, quoted. */
  lemma LineStartsWithList(listType: string, r: Row)
    ensures CsvLine(listType, r)[..|listType| + 2] == "\"" + listType + "\""
  {
  }
}
