/**
 * The CSV student import of `ExcelImportUtils`: a file-type check, header
 * cells mapped to fields by case-insensitive substring rules, a
 * quote-aware line scanner, and a row loop that accepts, rejects or skips
 * each data line while it counts them.
 */
module CsvImport {
  import opened Wrappers
  import opened Text

  /** One accepted record. */
  datatype StudentData = StudentData(
    studentId: string,
    name: string,
    className: string,
    subClass: string,
    grade: string,
    subGrade: string,
    program: string,
    role: string)

  datatype ImportResult = ImportResult(
    success: bool,
    data: seq<StudentData>,
    errors: seq<string>,
    totalRows: int,
    validRows: int)

  /** `ImportResult(false, errors = ...)`: the other fields at their defaults. */
  function Failure(errors: seq<string>): ImportResult {
    ImportResult(false, [], errors, 0, 0)
  }

  // ----- File type -----

  /**
   * The `isCsv` test: the (lower-cased) MIME type mentions "csv", or the
   * display name ends in ".csv" in any case, or the lower-cased URI
   * mentions ".csv".
   */
  predicate IsCsv(mimeType: string, fileName: string, uriText: string) {
    Contains(mimeType, "csv") || EndsWithIgnoreCase(fileName, ".csv") || Contains(Lower(uriText), ".csv")
  }

  // ----- Header mapping -----

  datatype Field =
    | StudentIdField | NameField | ClassNameField | SubClassField
    | GradeField | SubGradeField | ProgramField | RoleField

  /** The first rule of the header `when` that a (trimmed, lower-cased) header cell meets. */
  function ClassifyHeader(col: string): Option<Field> {
    if Contains(col, "student") && Contains(col, "id") then Some(StudentIdField)
    else if Contains(col, "name") then Some(NameField)
    else if Contains(col, "class") && !Contains(col, "sub") then Some(ClassNameField)
    else if Contains(col, "sub") && Contains(col, "class") then Some(SubClassField)
    else if col == "grade" then Some(GradeField)
    else if Contains(col, "sub") && Contains(col, "grade") then Some(SubGradeField)
    else if col == "program" then Some(ProgramField)
    else if col == "role" then Some(RoleField)
    else None
  }

  /** The header line split naively on ',' with every cell trimmed and lower-cased. */
  function HeaderCells(line: string): (cells: seq<string>)
    ensures |cells| == |SplitOn(line, ',')|
  {
    var parts := SplitOn(line, ',');
    seq(|parts|, k requires 0 <= k < |parts| => Lower(Trim(parts[k])))
  }

  /** The field each header cell names, if any, column by column. */
  function HeaderKinds(header: seq<string>): (kinds: seq<Option<Field>>)
    ensures |kinds| == |header|
    ensures forall i :: 0 <= i < |header| ==> kinds[i] == ClassifyHeader(header[i])
  {
    seq(|header|, i requires 0 <= i < |header| => ClassifyHeader(header[i]))
  }

  /**
   * `m` is the map the header loop builds from the columns' fields: a field
   * is mapped exactly when some column names it, and then to the LAST such
   * column (a later column overwrites an earlier one).
   */
  predicate IsKindMap(kinds: seq<Option<Field>>, m: map<Field, nat>) {
    && (forall f :: f in m <==> exists i :: 0 <= i < |kinds| && kinds[i] == Some(f))
    && (forall f :: f in m ==> m[f] < |kinds| && kinds[m[f]] == Some(f))
    && (forall f, j :: f in m && m[f] < j < |kinds| ==> kinds[j] != Some(f))
  }

  /** One more column: its field, if any, now maps to it. */
  lemma KindMapSnoc(front: seq<Option<Field>>, kind: Option<Field>, m: map<Field, nat>)
    requires IsKindMap(front, m)
    ensures IsKindMap(front + [kind], if kind.Some? then m[kind.value := |front|] else m)
  {
    var kinds := front + [kind];
    var m' := if kind.Some? then m[kind.value := |front|] else m;
    assert forall i :: 0 <= i < |front| ==> kinds[i] == front[i];
    forall f
      ensures f in m' <==> exists i :: 0 <= i < |kinds| && kinds[i] == Some(f)
    {
      if f in m' && !(kind.Some? && kind.value == f) {
        assert kinds[m[f]] == Some(f);
      }
      if kind.Some? && kind.value == f {
        assert kinds[|front|] == Some(f);
      }
    }
  }

  /** The map the header loop builds from the columns' fields. */
  function KindMap(kinds: seq<Option<Field>>): map<Field, nat> {
    if kinds == [] then map[]
    else
      var front := kinds[..|kinds| - 1];
      match kinds[|front|]
      case Some(f) => KindMap(front)[f := |front|]
      case None => KindMap(front)
  }

  /** `KindMap` maps each field named by a column to the last column naming it. */
  lemma {:induction false} KindMapMeaning(kinds: seq<Option<Field>>)
    ensures IsKindMap(kinds, KindMap(kinds))
    decreases |kinds|
  {
    if kinds != [] {
      var front := kinds[..|kinds| - 1];
      KindMapMeaning(front);
      assert kinds == front + [kinds[|front|]];
      KindMapSnoc(front, kinds[|front|], KindMap(front));
    }
  }

  /**
   * The column map built by the header loop: a field is mapped exactly when
   * some cell classifies as it, and then to the LAST such cell (a later
   * column overwrites an earlier one).
   */
  function ColumnMap(header: seq<string>): (m: map<Field, nat>)
    ensures forall f :: f in m <==> exists i :: 0 <= i < |header| && ClassifyHeader(header[i]) == Some(f)
    ensures forall f :: f in m ==> m[f] < |header| && ClassifyHeader(header[m[f]]) == Some(f)
    ensures forall f, j :: f in m && m[f] < j < |header| ==> ClassifyHeader(header[j]) != Some(f)
  {
    var kinds := HeaderKinds(header);
    KindMapMeaning(kinds);
    assert forall f :: (exists i :: 0 <= i < |kinds| && kinds[i] == Some(f))
                   <==> (exists i :: 0 <= i < |header| && ClassifyHeader(header[i]) == Some(f));
    KindMap(kinds)
  }

  /** One more header cell updates the map by its own field, if it has one. */
  lemma ColumnMapStep(header: seq<string>, idx: nat)
    requires idx < |header|
    ensures ColumnMap(header[..idx + 1])
      == match ClassifyHeader(header[idx])
         case Some(f) => ColumnMap(header[..idx])[f := idx]
         case None => ColumnMap(header[..idx])
  {
    var kinds := HeaderKinds(header[..idx + 1]);
    assert kinds[..idx] == HeaderKinds(header[..idx]);
  }

  /** `header.forEachIndexed { ... colMap[field] = idx }`. */
  method MapColumns(header: seq<string>) returns (colMap: map<Field, nat>)
    ensures colMap == ColumnMap(header)
  {
    colMap := map[];
    var idx := 0;
    while idx < |header|
      invariant 0 <= idx <= |header|
      invariant colMap == ColumnMap(header[..idx])
    {
      ColumnMapStep(header, idx);
      match ClassifyHeader(header[idx]) {
        case Some(f) => colMap := colMap[f := idx];
        case None =>
      }
      idx := idx + 1;
    }
    assert header[..idx] == header;
  }

  // ----- The quote-aware line scanner -----

  /**
   * The scanner of `parseCsvLine` from a position on: `rest` is the unread
   * text, `current` the field being built, `fields` the finished fields.
   * A '"' toggles quoting, except that `""` inside quotes stands for one
   * '"'; an unquoted ',' ends a field; every field is trimmed.
   */
  function Scan(rest: string, inQuotes: bool, current: string, fields: seq<string>): (r: seq<string>)
    ensures |r| > |fields| && r[..|fields|] == fields
    decreases |rest|
  {
    if rest == [] then fields + [Trim(current)]
    else if rest[0] == '"' then
      if inQuotes && |rest| > 1 && rest[1] == '"' then Scan(rest[2..], inQuotes, current + ['"'], fields)
      else Scan(rest[1..], !inQuotes, current, fields)
    else if rest[0] == ',' && !inQuotes then
      var r := Scan(rest[1..], false, "", fields + [Trim(current)]);
      assert r[..|fields| + 1][..|fields|] == r[..|fields|];
      r
    else Scan(rest[1..], inQuotes, current + [rest[0]], fields)
  }

  /** The fields `parseCsvLine` returns for a line: never none. */
  function CsvFields(line: string): (r: seq<string>)
    ensures |r| >= 1
  {
    Scan(line, false, "", [])
  }

  /** `parseCsvLine`: the `while` loop over the characters of the line. */
  method ParseCsvLine(line: string) returns (result: seq<string>)
    ensures result == CsvFields(line)
  {
    result := [];
    var current := "";
    var inQuotes := false;
    var i := 0;
    while i < |line|
      invariant 0 <= i <= |line|
      invariant Scan(line[i..], inQuotes, current, result) == CsvFields(line)
    {
      var c := line[i];
      assert line[i..][1..] == line[i + 1..];
      if c == '"' {
        if inQuotes && i + 1 < |line| && line[i + 1] == '"' {
          assert line[i..][2..] == line[i + 2..];
          current := current + ['"'];
          i := i + 1;
        } else {
          inQuotes := !inQuotes;
        }
      } else if c == ',' {
        if inQuotes {
          current := current + [c];
        } else {
          result := result + [Trim(current)];
          current := "";
        }
      } else {
        current := current + [c];
      }
      i := i + 1;
    }
    result := result + [Trim(current)];
  }

  function TrimAll(parts: seq<string>): (r: seq<string>)
    ensures |r| == |parts|
  {
    if parts == [] then [] else [Trim(parts[0])] + TrimAll(parts[1..])
  }

  lemma {:induction false} ScanQuoteFree(rest: string, current: string, fields: seq<string>)
    requires '"' !in rest && ',' !in current
    ensures Scan(rest, false, current, fields) == fields + TrimAll(SplitOn(current + rest, ','))
    decreases |rest|
  {
    if rest == [] {
      assert current + rest == current;
      SplitOnNone(current, ',');
    } else if rest[0] == ',' {
      ScanQuoteFree(rest[1..], "", fields + [Trim(current)]);
      ScanQuoteFreeComma(rest, current, fields);
    } else {
      ScanQuoteFree(rest[1..], current + [rest[0]], fields);
      ScanQuoteFreeChar(rest, current, fields);
    }
  }

  /** The step of ScanQuoteFree at an unquoted comma. */
  lemma ScanQuoteFreeComma(rest: string, current: string, fields: seq<string>)
    requires ',' !in current
    requires rest != [] && rest[0] == ','
    requires Scan(rest[1..], false, "", fields + [Trim(current)])
          == fields + [Trim(current)] + TrimAll(SplitOn("" + rest[1..], ','))
    ensures Scan(rest, false, current, fields) == fields + TrimAll(SplitOn(current + rest, ','))
  {
    var tail := rest[1..];
    ScanUnquotedComma(rest, current, fields);
    assert "" + tail == tail;
    SplitOnAfterComma(rest, current);
    TrimAllCons(current, SplitOn(tail, ','));
    AppendAssoc(fields, Trim(current), TrimAll(SplitOn(tail, ',')));
  }

  /** The step of ScanQuoteFree at any other character. */
  lemma ScanQuoteFreeChar(rest: string, current: string, fields: seq<string>)
    requires rest != [] && rest[0] != ',' && rest[0] != '"'
    requires Scan(rest[1..], false, current + [rest[0]], fields)
          == fields + TrimAll(SplitOn(current + [rest[0]] + rest[1..], ','))
    ensures Scan(rest, false, current, fields) == fields + TrimAll(SplitOn(current + rest, ','))
  {
    assert current + [rest[0]] + rest[1..] == current + rest;
  }

  lemma ScanUnquotedComma(rest: string, current: string, fields: seq<string>)
    requires rest != [] && rest[0] == ','
    ensures Scan(rest, false, current, fields) == Scan(rest[1..], false, "", fields + [Trim(current)])
  {
  }

  lemma SplitOnAfterComma(rest: string, current: string)
    requires ',' !in current
    requires rest != [] && rest[0] == ','
    ensures SplitOn(current + rest, ',') == [current] + SplitOn(rest[1..], ',')
  {
    assert current + rest == current + [','] + rest[1..];
    SplitOnPrefix(current, ',', rest[1..]);
  }

  lemma AppendAssoc(a: seq<string>, x: string, b: seq<string>)
    ensures a + [x] + b == a + ([x] + b)
  {
  }

  lemma TrimAllCons(a: string, tail: seq<string>)
    ensures TrimAll([a] + tail) == [Trim(a)] + TrimAll(tail)
  {
    assert ([a] + tail)[1..] == tail;
  }

  /**
   * Without '"', a line yields exactly the comma-separated pieces, each
   * trimmed: one more field than there are commas.
   */
  lemma CsvFieldsQuoteFree(line: string)
    requires '"' !in line
    ensures CsvFields(line) == TrimAll(SplitOn(line, ','))
    ensures |CsvFields(line)| == Occurrences(line, ',') + 1
  {
    ScanQuoteFree(line, "", []);
    assert "" + line == line;
    SplitOnLength(line, ',');
  }

  /** Inside quotes every character but '"', the comma included, is copied as it is. */
  lemma {:induction false} ScanCopiesQuoted(v: string, rest: string, current: string, fields: seq<string>)
    requires '"' !in v
    ensures Scan(v + rest, true, current, fields) == Scan(rest, true, current + v, fields)
    decreases |v|
  {
    if v == [] {
      assert v + rest == rest;
      assert current + v == current;
    } else {
      assert (v + rest)[1..] == v[1..] + rest;
      ScanCopiesQuoted(v[1..], rest, current + [v[0]], fields);
      assert current + [v[0]] + v[1..] == current + v;
    }
  }

  /** A '"' inside quotes that is not followed by another one closes the quotes. */
  lemma ScanClosingQuote(rest: string, current: string, fields: seq<string>)
    requires rest == [] || rest[0] != '"'
    ensures Scan(['"'] + rest, true, current, fields) == Scan(rest, false, current, fields)
  {
    assert (['"'] + rest)[1..] == rest;
  }

  /** `""` inside quotes appends a single '"' and stays inside quotes. */
  lemma ScanEscapedQuote(rest: string, current: string, fields: seq<string>)
    ensures Scan(['"', '"'] + rest, true, current, fields) == Scan(rest, true, current + ['"'], fields)
  {
    assert (['"', '"'] + rest)[2..] == rest;
  }

  /** A whole line that is one quoted value without '"' yields that value, trimmed, as its only field. */
  lemma QuotedField(v: string)
    requires '"' !in v
    ensures CsvFields(['"'] + v + ['"']) == [Trim(v)]
  {
    var line := ['"'] + v + ['"'];
    assert line[1..] == v + ['"'];
    ScanCopiesQuoted(v, ['"'], "", []);
    ScanClosingQuote([], "" + v, []);
    assert "" + v == v;
  }

  /** A quoted value with a doubled quote in it yields one field holding a single '"' there. */
  lemma EscapedQuoteField(a: string, b: string)
    requires '"' !in a && '"' !in b
    ensures CsvFields(['"'] + a + ['"', '"'] + b + ['"']) == [Trim(a + ['"'] + b)]
  {
    var line := ['"'] + a + ['"', '"'] + b + ['"'];
    assert line[1..] == a + (['"', '"'] + (b + ['"']));
    ScanCopiesQuoted(a, ['"', '"'] + (b + ['"']), "", []);
    ScanEscapedQuote(b + ['"'], "" + a, []);
    ScanCopiesQuoted(b, ['"'], "" + a + ['"'], []);
    ScanClosingQuote([], "" + a + ['"'] + b, []);
    assert "" + a + ['"'] + b == a + ['"'] + b;
  }

  /** `"Smith, John"` is one field, `Smith, John`. */
  lemma QuotedCommaExample(line: string, value: string)
    requires value == "Smith, John" && line == "\"" + value + "\""
    ensures CsvFields(line) == [value]
  {
    QuotedField(value);
    TrimOfTrimmed(value);
  }

  /** `"a""b"` is one field, `a"b`. */
  lemma EscapedQuoteExample(line: string, a: string, b: string)
    requires a == "a" && b == "b" && line == "\"" + a + "\"\"" + b + "\""
    ensures CsvFields(line) == [a + "\"" + b]
  {
    EscapedQuoteField(a, b);
    TrimOfTrimmed(a + "\"" + b);
  }

  // ----- The row loop -----

  /** `colMap[f]?.let { row.getOrNull(it)?.trim() } ?: default`. */
  function Cell(row: seq<string>, colMap: map<Field, nat>, f: Field, default: string): string {
    if f in colMap && colMap[f] < |row| then Trim(row[colMap[f]]) else default
  }

  datatype RowVerdict = Skipped | Rejected(message: string) | Accepted(student: StudentData)

  /** The message for line `i` (0-based; the header is line 0). */
  function RowError(i: nat): string {
    "Row " + NatToString(i + 1) + ": Student ID and Name are required"
  }

  /** What the loop body does with line `i`. */
  function JudgeRow(colMap: map<Field, nat>, i: nat, raw: string): RowVerdict {
    var line := Trim(raw);
    if line == [] then Skipped
    else
      var row := CsvFields(line);
      var id := Cell(row, colMap, StudentIdField, "");
      var name := Cell(row, colMap, NameField, "");
      if IsBlank(id) || IsBlank(name) then Rejected(RowError(i))
      else Accepted(StudentData(
        id, name,
        Cell(row, colMap, ClassNameField, ""),
        Cell(row, colMap, SubClassField, ""),
        Cell(row, colMap, GradeField, ""),
        Cell(row, colMap, SubGradeField, ""),
        Cell(row, colMap, ProgramField, ""),
        Cell(row, colMap, RoleField, "Student")))
  }

  /** The verdicts on data lines 1 .. n-1, in order. */
  function Verdicts(colMap: map<Field, nat>, lines: seq<string>, n: nat): (vs: seq<RowVerdict>)
    requires n <= |lines|
    ensures |vs| == if n == 0 then 0 else n - 1
  {
    if n <= 1 then [] else Verdicts(colMap, lines, n - 1) + [JudgeRow(colMap, n - 1, lines[n - 1])]
  }

  function AcceptedOf(vs: seq<RowVerdict>): seq<StudentData> {
    if vs == [] then []
    else AcceptedOf(vs[..|vs| - 1]) + (if vs[|vs| - 1].Accepted? then [vs[|vs| - 1].student] else [])
  }

  function MessagesOf(vs: seq<RowVerdict>): seq<string> {
    if vs == [] then []
    else MessagesOf(vs[..|vs| - 1]) + (if vs[|vs| - 1].Rejected? then [vs[|vs| - 1].message] else [])
  }

  function SkippedIn(vs: seq<RowVerdict>): nat {
    if vs == [] then 0 else SkippedIn(vs[..|vs| - 1]) + (if vs[|vs| - 1].Skipped? then 1 else 0)
  }

  /** Judging one more line appends its verdict. */
  lemma VerdictsStep(colMap: map<Field, nat>, lines: seq<string>, i: nat)
    requires 1 <= i < |lines|
    ensures Verdicts(colMap, lines, i + 1) == Verdicts(colMap, lines, i) + [JudgeRow(colMap, i, lines[i])]
  {
  }

  /** One more verdict extends the accepted records and the messages by what it holds. */
  lemma OfSnoc(vs: seq<RowVerdict>, v: RowVerdict)
    ensures AcceptedOf(vs + [v]) == AcceptedOf(vs) + (if v.Accepted? then [v.student] else [])
    ensures MessagesOf(vs + [v]) == MessagesOf(vs) + (if v.Rejected? then [v.message] else [])
    ensures SkippedIn(vs + [v]) == SkippedIn(vs) + (if v.Skipped? then 1 else 0)
  {
    assert (vs + [v])[..|vs|] == vs;
  }

  /** The source as the platform delivers it. */
  datatype ReadOutcome =
    | Opened(lines: seq<string>)     // `readLines()` of the opened stream
    | NotOpened                      // `openInputStream` returned null
    | ReadThrew(message: Option<string>)

  /** The inputs of `importFromCsv`: MIME type and display name as the content resolver reports them (null when absent), the URI text and the content. */
  datatype CsvSource = CsvSource(mimeType: Option<string>, displayName: Option<string>, uriText: string, read: ReadOutcome)

  const MissingColumnsMessage := "CSV file must have 'Student ID' and 'Name' columns"

  /** What `importFromCsv` returns, stated as a function of its inputs. */
  function ImportReference(src: CsvSource): ImportResult {
    var mime := Lower(src.mimeType.GetOr(""));
    var fileName := src.displayName.GetOr("");
    if !IsCsv(mime, fileName, src.uriText) then
      Failure(["Invalid file type. Detected: " + mime + "/" + fileName + ". Only CSV files are supported."])
    else
      match src.read
      case NotOpened => Failure(["Could not open file"])
      case ReadThrew(msg) => Failure(["Failed to process CSV: " + msg.GetOr("Unknown error")])
      case Opened(lines) =>
        if lines == [] then Failure(["CSV file is empty"])
        else
          var header := HeaderCells(lines[0]);
          var colMap := ColumnMap(header);
          if StudentIdField !in colMap || NameField !in colMap then
            Failure([MissingColumnsMessage, "Detected columns: " + Join(header, ", ")])
          else
            var vs := Verdicts(colMap, lines, |lines|);
            var data := AcceptedOf(vs);
            ImportResult(|data| > 0, data, MessagesOf(vs), |lines| - 1, |data|)
  }

  /** `importFromCsv`, with the platform's answers as inputs. */
  method ImportFromCsv(src: CsvSource) returns (r: ImportResult)
    ensures r == ImportReference(src)
  {
    var mimeType := Lower(src.mimeType.GetOr(""));
    var fileName := src.displayName.GetOr("");
    if !IsCsv(mimeType, fileName, src.uriText) {
      return Failure(["Invalid file type. Detected: " + mimeType + "/" + fileName + ". Only CSV files are supported."]);
    }
    if src.read.NotOpened? {
      return Failure(["Could not open file"]);
    }
    if src.read.ReadThrew? {
      return Failure(["Failed to process CSV: " + src.read.message.GetOr("Unknown error")]);
    }
    var lines := src.read.lines;
    if |lines| == 0 {
      return Failure(["CSV file is empty"]);
    }
    var students: seq<StudentData> := [];
    var errors: seq<string> := [];
    var totalRows := 0;
    var validRows := 0;

    var header := HeaderCells(lines[0]);
    var colMap := MapColumns(header);
    if StudentIdField !in colMap || NameField !in colMap {
      return Failure([MissingColumnsMessage, "Detected columns: " + Join(header, ", ")]);
    }

    for i := 1 to |lines|
      invariant totalRows == i - 1
      invariant students == AcceptedOf(Verdicts(colMap, lines, i))
      invariant errors == MessagesOf(Verdicts(colMap, lines, i))
      invariant validRows == |students|
    {
      VerdictsStep(colMap, lines, i);
      OfSnoc(Verdicts(colMap, lines, i), JudgeRow(colMap, i, lines[i]));
      totalRows := totalRows + 1;
      var line := Trim(lines[i]);
      if line == [] {
        continue;
      }
      var row := ParseCsvLine(line);
      var studentId := Cell(row, colMap, StudentIdField, "");
      var name := Cell(row, colMap, NameField, "");
      if IsBlank(studentId) || IsBlank(name) {
        errors := errors + [RowError(i)];
        continue;
      }
      students := students + [StudentData(
        studentId, name,
        Cell(row, colMap, ClassNameField, ""),
        Cell(row, colMap, SubClassField, ""),
        Cell(row, colMap, GradeField, ""),
        Cell(row, colMap, SubGradeField, ""),
        Cell(row, colMap, ProgramField, ""),
        Cell(row, colMap, RoleField, "Student"))];
      validRows := validRows + 1;
    }
    return ImportResult(|students| > 0, students, errors, totalRows, validRows);
  }

  // ----- What the import promises -----

  /** `importFromExcel`: spreadsheets are refused, with a hint to convert them. */
  function ImportFromExcel(): (r: ImportResult)
    ensures !r.success && r.data == [] && |r.errors| == 1
  {
    Failure(["Excel import is not supported. Please convert to CSV format."])
  }

  /** The verdicts left after dropping the last one. */
  lemma DropLast(vs: seq<RowVerdict>)
    requires vs != []
    ensures vs == vs[..|vs| - 1] + [vs[|vs| - 1]]
  {
  }

  /** Every data line is accepted, rejected or skipped: the three counts add up to the lines judged. */
  lemma {:induction false} VerdictCountsAddUp(vs: seq<RowVerdict>)
    ensures |AcceptedOf(vs)| + |MessagesOf(vs)| + SkippedIn(vs) == |vs|
  {
    if vs != [] {
      VerdictCountsAddUp(vs[..|vs| - 1]);
    }
  }

  /** A line is skipped exactly when it is blank. */
  lemma JudgeSkipped(colMap: map<Field, nat>, i: nat, raw: string)
    ensures JudgeRow(colMap, i, raw).Skipped? <==> IsBlank(raw)
  {
    BlankIffTrimEmpty(raw);
  }

  /** Field `f` has a column in `colMap`, and `row` reaches that column. */
  predicate HasCell(row: seq<string>, colMap: map<Field, nat>, f: Field) {
    f in colMap && colMap[f] < |row|
  }

  /**
   * An accepted record has an ID and a name that are neither blank nor
   * padded with whitespace, and each field is the trimmed cell of its
   * column; a field without a column or cell is "", except the role,
   * which is then "Student" (a role cell that is there but empty stays "").
   */
  lemma JudgeAccepted(colMap: map<Field, nat>, i: nat, raw: string)
    requires JudgeRow(colMap, i, raw).Accepted?
    ensures var d := JudgeRow(colMap, i, raw).student;
      && !IsBlank(d.studentId) && !IsBlank(d.name) && Trim(d.studentId) == d.studentId && Trim(d.name) == d.name
    ensures var row, d := CsvFields(Trim(raw)), JudgeRow(colMap, i, raw).student;
      && HasCell(row, colMap, StudentIdField) && d.studentId == Trim(row[colMap[StudentIdField]])
      && HasCell(row, colMap, NameField) && d.name == Trim(row[colMap[NameField]])
      && (HasCell(row, colMap, ClassNameField) ==> d.className == Trim(row[colMap[ClassNameField]]))
      && (!HasCell(row, colMap, ClassNameField) ==> d.className == "")
      && (HasCell(row, colMap, SubClassField) ==> d.subClass == Trim(row[colMap[SubClassField]]))
      && (!HasCell(row, colMap, SubClassField) ==> d.subClass == "")
      && (HasCell(row, colMap, GradeField) ==> d.grade == Trim(row[colMap[GradeField]]))
      && (!HasCell(row, colMap, GradeField) ==> d.grade == "")
      && (HasCell(row, colMap, SubGradeField) ==> d.subGrade == Trim(row[colMap[SubGradeField]]))
      && (!HasCell(row, colMap, SubGradeField) ==> d.subGrade == "")
      && (HasCell(row, colMap, ProgramField) ==> d.program == Trim(row[colMap[ProgramField]]))
      && (!HasCell(row, colMap, ProgramField) ==> d.program == "")
      && (HasCell(row, colMap, RoleField) ==> d.role == Trim(row[colMap[RoleField]]))
      && (!HasCell(row, colMap, RoleField) ==> d.role == "Student")
      && (HasCell(row, colMap, RoleField) && IsBlank(row[colMap[RoleField]]) ==> d.role == "")
  {
    var row := CsvFields(Trim(raw));
    if HasCell(row, colMap, StudentIdField) {
      TrimIdempotent(row[colMap[StudentIdField]]);
    }
    if HasCell(row, colMap, NameField) {
      TrimIdempotent(row[colMap[NameField]]);
    }
    if HasCell(row, colMap, RoleField) {
      BlankIffTrimEmpty(row[colMap[RoleField]]);
    }
  }

  /** A cell is blank exactly when its trimmed text is. */
  lemma BlankTrimmed(x: string)
    ensures IsBlank(Trim(x)) <==> IsBlank(x)
  {
    BlankIffTrimEmpty(x);
    BlankIffTrimEmpty(Trim(x));
    TrimIdempotent(x);
  }

  /**
   * A line is rejected exactly when it is not blank and its ID or its name
   * has no column, no cell, or a blank cell; the message names the line.
   */
  lemma JudgeRejected(colMap: map<Field, nat>, i: nat, raw: string)
    ensures var row := CsvFields(Trim(raw));
      JudgeRow(colMap, i, raw).Rejected? <==>
        && !IsBlank(raw)
        && (|| !HasCell(row, colMap, StudentIdField) || IsBlank(row[colMap[StudentIdField]])
            || !HasCell(row, colMap, NameField) || IsBlank(row[colMap[NameField]]))
    ensures JudgeRow(colMap, i, raw).Rejected? ==> JudgeRow(colMap, i, raw).message == RowError(i)
  {
    BlankIffTrimEmpty(raw);
    var row := CsvFields(Trim(raw));
    if HasCell(row, colMap, StudentIdField) {
      BlankTrimmed(row[colMap[StudentIdField]]);
    }
    if HasCell(row, colMap, NameField) {
      BlankTrimmed(row[colMap[NameField]]);
    }
  }

  /** The number of blank lines among lines 1 .. n-1. */
  function BlankLines(lines: seq<string>, n: nat): nat
    requires n <= |lines|
  {
    if n <= 1 then 0 else BlankLines(lines, n - 1) + (if IsBlank(lines[n - 1]) then 1 else 0)
  }

  /** The skipped lines are the blank data lines. */
  lemma {:induction false} SkippedAreBlank(colMap: map<Field, nat>, lines: seq<string>, n: nat)
    requires n <= |lines|
    ensures SkippedIn(Verdicts(colMap, lines, n)) == BlankLines(lines, n)
  {
    if n > 1 {
      SkippedAreBlank(colMap, lines, n - 1);
      OfSnoc(Verdicts(colMap, lines, n - 1), JudgeRow(colMap, n - 1, lines[n - 1]));
      JudgeSkipped(colMap, n - 1, lines[n - 1]);
    }
  }

  /** No blank lines counted means no data line is blank. */
  lemma {:induction false} NoBlankLines(lines: seq<string>, n: nat)
    requires n <= |lines|
    ensures BlankLines(lines, n) == 0 <==> forall i :: 1 <= i < n ==> !IsBlank(lines[i])
  {
    if n > 1 {
      NoBlankLines(lines, n - 1);
    }
  }

  /** Where the accepted records of `vs` stand in it. */
  function AcceptedPositions(vs: seq<RowVerdict>): seq<nat> {
    if vs == [] then []
    else AcceptedPositions(vs[..|vs| - 1]) + (if vs[|vs| - 1].Accepted? then [|vs| - 1] else [])
  }

  /**
   * The accepted records are the verdicts' records in their order: record k
   * comes from the verdict at position k in AcceptedPositions, and those
   * positions increase.
   */
  lemma {:induction false} AcceptedInOrder(vs: seq<RowVerdict>)
    ensures var ps := AcceptedPositions(vs);
      && |ps| == |AcceptedOf(vs)|
      && (forall k :: 0 <= k < |ps| ==> ps[k] < |vs| && vs[ps[k]] == Accepted(AcceptedOf(vs)[k]))
      && (forall j, k :: 0 <= j < k < |ps| ==> ps[j] < ps[k])
  {
    if vs != [] {
      var init := vs[..|vs| - 1];
      AcceptedInOrder(init);
      assert forall k :: 0 <= k < |init| ==> init[k] == vs[k];
    }
  }

  /** A well-formed record: ID and name present and trimmed. */
  predicate GoodRecord(d: StudentData) {
    !IsBlank(d.studentId) && !IsBlank(d.name) && Trim(d.studentId) == d.studentId && Trim(d.name) == d.name
  }

  /** Every accepted record of lines 1 .. n-1 is well formed. */
  lemma {:induction false} AcceptedAreGood(colMap: map<Field, nat>, lines: seq<string>, n: nat)
    requires n <= |lines|
    ensures forall k :: 0 <= k < |AcceptedOf(Verdicts(colMap, lines, n))| ==> GoodRecord(AcceptedOf(Verdicts(colMap, lines, n))[k])
  {
    if n > 1 {
      AcceptedAreGood(colMap, lines, n - 1);
      var v := JudgeRow(colMap, n - 1, lines[n - 1]);
      if v.Accepted? {
        JudgeAccepted(colMap, n - 1, lines[n - 1]);
      }
      VerdictsStep(colMap, lines, n - 1);
      GoodSnoc(Verdicts(colMap, lines, n - 1), v);
    }
  }

  /** One more verdict whose record, if any, is well formed keeps every record well formed. */
  lemma GoodSnoc(vs: seq<RowVerdict>, v: RowVerdict)
    requires forall k :: 0 <= k < |AcceptedOf(vs)| ==> GoodRecord(AcceptedOf(vs)[k])
    requires v.Accepted? ==> GoodRecord(v.student)
    ensures forall k :: 0 <= k < |AcceptedOf(vs + [v])| ==> GoodRecord(AcceptedOf(vs + [v])[k])
  {
    OfSnoc(vs, v);
  }

  /** `msg` is the error message of one of the lines 1 .. n-1. */
  predicate NamesLine(msg: string, n: nat) {
    exists i :: 1 <= i < n && msg == RowError(i)
  }

  /** Every error message of lines 1 .. n-1 names one of those lines. */
  lemma {:induction false} MessagesNameLines(colMap: map<Field, nat>, lines: seq<string>, n: nat)
    requires n <= |lines|
    ensures forall k :: 0 <= k < |MessagesOf(Verdicts(colMap, lines, n))| ==> NamesLine(MessagesOf(Verdicts(colMap, lines, n))[k], n)
  {
    if n > 1 {
      MessagesNameLines(colMap, lines, n - 1);
      var before := MessagesOf(Verdicts(colMap, lines, n - 1));
      var v := JudgeRow(colMap, n - 1, lines[n - 1]);
      OfSnoc(Verdicts(colMap, lines, n - 1), v);
      var after := MessagesOf(Verdicts(colMap, lines, n));
      forall k | 0 <= k < |after| ensures NamesLine(after[k], n) {
        if k < |before| {
          assert after[k] == before[k];
          var i :| 1 <= i < n - 1 && before[k] == RowError(i);
        } else {
          JudgeRejected(colMap, n - 1, lines[n - 1]);
          assert after[k] == RowError(n - 1);
        }
      }
    }
  }

  /** The opened-file branch of the import, once the header has both required columns. */
  lemma ImportOpened(src: CsvSource, lines: seq<string>, m: map<Field, nat>)
    requires src.read == Opened(lines) && lines != []
    requires IsCsv(Lower(src.mimeType.GetOr("")), src.displayName.GetOr(""), src.uriText)
    requires m == ColumnMap(HeaderCells(lines[0])) && StudentIdField in m && NameField in m
    ensures var vs := Verdicts(m, lines, |lines|);
      ImportReference(src) == ImportResult(|AcceptedOf(vs)| > 0, AcceptedOf(vs), MessagesOf(vs), |lines| - 1, |AcceptedOf(vs)|)
  {
  }

  /** The three counts, the records and the messages of lines 1 .. |lines|-1. */
  lemma VerdictsSummary(m: map<Field, nat>, lines: seq<string>)
    ensures var vs := Verdicts(m, lines, |lines|);
      && |AcceptedOf(vs)| + |MessagesOf(vs)| + BlankLines(lines, |lines|) == |vs|
      && (forall k :: 0 <= k < |AcceptedOf(vs)| ==> GoodRecord(AcceptedOf(vs)[k]))
      && (forall k :: 0 <= k < |MessagesOf(vs)| ==> NamesLine(MessagesOf(vs)[k], |lines|))
  {
    VerdictCountsAddUp(Verdicts(m, lines, |lines|));
    SkippedAreBlank(m, lines, |lines|);
    AcceptedAreGood(m, lines, |lines|);
    MessagesNameLines(m, lines, |lines|);
  }

  /**
   * The result of an import: it succeeds exactly when it returns records,
   * and `validRows` is their number.
   */
  lemma ImportOutcome(src: CsvSource)
    ensures var r := ImportReference(src);
      && (r.success <==> r.data != [])
      && r.validRows == |r.data|
  {
  }

  /**
   * Once the header is accepted, each data line is counted once: as a
   * record, as an error or as a skipped blank line; so nothing is lost
   * exactly when no data line is blank. Every record has an ID and a name
   * and every error names a data line.
   */
  lemma ImportCounts(src: CsvSource)
    requires src.read.Opened? && src.read.lines != []
    requires IsCsv(Lower(src.mimeType.GetOr("")), src.displayName.GetOr(""), src.uriText)
    requires var m := ColumnMap(HeaderCells(src.read.lines[0])); StudentIdField in m && NameField in m
    ensures var r := ImportReference(src);
      && r.totalRows == |src.read.lines| - 1
      && r.validRows + |r.errors| + BlankLines(src.read.lines, |src.read.lines|) == r.totalRows
      && r.validRows + |r.errors| <= r.totalRows
      && (r.validRows + |r.errors| == r.totalRows <==> forall i :: 1 <= i < |src.read.lines| ==> !IsBlank(src.read.lines[i]))
      && (forall k :: 0 <= k < |r.data| ==> GoodRecord(r.data[k]))
      && (forall k :: 0 <= k < |r.errors| ==> NamesLine(r.errors[k], |src.read.lines|))
  {
    var lines := src.read.lines;
    var m := ColumnMap(HeaderCells(lines[0]));
    ImportOpened(src, lines, m);
    VerdictsSummary(m, lines);
    NoBlankLines(lines, |lines|);
  }

  /** Without the required columns no line is read: the header alone decides the failure. */
  lemma ImportMissingColumns(src: CsvSource)
    requires src.read.Opened? && src.read.lines != []
    requires IsCsv(Lower(src.mimeType.GetOr("")), src.displayName.GetOr(""), src.uriText)
    requires var m := ColumnMap(HeaderCells(src.read.lines[0])); StudentIdField !in m || NameField !in m
    ensures ImportReference(src) == Failure([MissingColumnsMessage, "Detected columns: " + Join(HeaderCells(src.read.lines[0]), ", ")])
  {
  }
}
