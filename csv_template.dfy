/**
 * The import applied to concrete files: the header and rows of the sample
 * template that `generateSampleTemplate` returns, and header lines the
 * substring rules accept or refuse. The lemmas at the top are the general
 * facts about joined cells those examples are built from.
 */
module CsvTemplate {
  import opened Wrappers
  import opened Text
  import opened CsvImport

  /** The header cells of a line whose first cell has no comma. */
  lemma HeaderCellsCons(a: string, b: string)
    requires ',' !in a
    ensures HeaderCells(a + "," + b) == [Lower(Trim(a))] + HeaderCells(b)
  {
    SplitOnPrefix(a, ',', b);
    assert a + "," + b == a + [','] + b;
  }

  lemma HeaderCellsSingle(a: string)
    requires ',' !in a
    ensures HeaderCells(a) == [Lower(Trim(a))]
  {
    SplitOnNone(a, ',');
  }

  lemma ClassifyStudentIdCell(c: string)
    requires c == "student id"
    ensures ClassifyHeader(c) == Some(StudentIdField)
  {
    assert OccursAt(c, "student", 0) && OccursAt(c, "id", 8);
  }

  lemma ClassifyNameCell(c: string)
    requires c == "name"
    ensures ClassifyHeader(c) == Some(NameField)
  {
    assert OccursAt(c, "name", 0);
    NotContainsByChar(c, "student", 's');
  }

  lemma ClassifyClassCell(c: string)
    requires c == "class"
    ensures ClassifyHeader(c) == Some(ClassNameField)
  {
    assert OccursAt(c, "class", 0);
    NotContainsByChar(c, "student", 't');
    NotContainsByChar(c, "name", 'n');
    NotContainsByChar(c, "sub", 'u');
  }

  lemma ClassifySubClassCell(c: string)
    requires c == "sub class"
    ensures ClassifyHeader(c) == Some(SubClassField)
  {
    assert OccursAt(c, "sub", 0) && OccursAt(c, "class", 4);
    NotContainsByChar(c, "student", 't');
    NotContainsByChar(c, "name", 'n');
  }

  lemma ClassifyGradeCell(c: string)
    requires c == "grade"
    ensures ClassifyHeader(c) == Some(GradeField)
  {
    NotContainsByChar(c, "student", 't');
    NotContainsByChar(c, "name", 'n');
    NotContainsByChar(c, "class", 'c');
    NotContainsByChar(c, "sub", 's');
  }

  lemma ClassifySubGradeCell(c: string)
    requires c == "sub grade"
    ensures ClassifyHeader(c) == Some(SubGradeField)
  {
    assert OccursAt(c, "sub", 0) && OccursAt(c, "grade", 4);
    NotContainsByChar(c, "student", 't');
    NotContainsByChar(c, "name", 'n');
    NotContainsByChar(c, "class", 'c');
  }

  lemma ClassifyProgramCell(c: string)
    requires c == "program"
    ensures ClassifyHeader(c) == Some(ProgramField)
  {
    NotContainsByChar(c, "student", 's');
    NotContainsByChar(c, "name", 'n');
    NotContainsByChar(c, "class", 'c');
    NotContainsByChar(c, "sub", 's');
  }

  lemma ClassifyRoleCell(c: string)
    requires c == "role"
    ensures ClassifyHeader(c) == Some(RoleField)
  {
    NotContainsByChar(c, "student", 's');
    NotContainsByChar(c, "name", 'n');
    NotContainsByChar(c, "class", 'c');
    NotContainsByChar(c, "sub", 's');
  }

  /** When each column names a different field, every field maps to its own column. */
  lemma KindMapDistinct(kinds: seq<Option<Field>>, fs: seq<Field>)
    requires |fs| == |kinds|
    requires forall k :: 0 <= k < |kinds| ==> kinds[k] == Some(fs[k])
    requires forall j, k :: 0 <= j < k < |fs| ==> fs[j] != fs[k]
    ensures forall k :: 0 <= k < |fs| ==> fs[k] in KindMap(kinds) && KindMap(kinds)[fs[k]] == k
  {
    var m := KindMap(kinds);
    forall k | 0 <= k < |fs| ensures fs[k] in m && m[fs[k]] == k {
      assert kinds[k] == Some(fs[k]);
      var j := m[fs[k]];
      assert kinds[j] == Some(fs[j]);
    }
  }

  /** When each cell names a different field, every field maps to its own cell. */
  lemma ColumnMapDistinct(cells: seq<string>, fs: seq<Field>)
    requires |fs| == |cells|
    requires forall k :: 0 <= k < |cells| ==> ClassifyHeader(cells[k]) == Some(fs[k])
    requires forall j, k :: 0 <= j < k < |fs| ==> fs[j] != fs[k]
    ensures forall k :: 0 <= k < |fs| ==> fs[k] in ColumnMap(cells) && ColumnMap(cells)[fs[k]] == k
  {
    KindMapDistinct(HeaderKinds(cells), fs);
  }

  /** Eight cells naming the eight fields in template order map them to columns 0 to 7. */
  lemma ColumnMapInTemplateOrder(cells: seq<string>)
    requires |cells| == 8
    requires ClassifyHeader(cells[0]) == Some(StudentIdField) && ClassifyHeader(cells[1]) == Some(NameField)
    requires ClassifyHeader(cells[2]) == Some(ClassNameField) && ClassifyHeader(cells[3]) == Some(SubClassField)
    requires ClassifyHeader(cells[4]) == Some(GradeField) && ClassifyHeader(cells[5]) == Some(SubGradeField)
    requires ClassifyHeader(cells[6]) == Some(ProgramField) && ClassifyHeader(cells[7]) == Some(RoleField)
    ensures forall f :: f in ColumnMap(cells)
    ensures var m := ColumnMap(cells);
      && m[StudentIdField] == 0 && m[NameField] == 1 && m[ClassNameField] == 2 && m[SubClassField] == 3
      && m[GradeField] == 4 && m[SubGradeField] == 5 && m[ProgramField] == 6 && m[RoleField] == 7
  {
    var kinds := HeaderKinds(cells);
    assert kinds[0] == ClassifyHeader(cells[0]) && kinds[1] == ClassifyHeader(cells[1]);
    assert kinds[2] == ClassifyHeader(cells[2]) && kinds[3] == ClassifyHeader(cells[3]);
    assert kinds[4] == ClassifyHeader(cells[4]) && kinds[5] == ClassifyHeader(cells[5]);
    assert kinds[6] == ClassifyHeader(cells[6]) && kinds[7] == ClassifyHeader(cells[7]);
    KindMapInTemplateOrder(kinds);
  }

  /** The map of a prefix of the columns grows by the next column's field. */
  lemma KindMapStep(kinds: seq<Option<Field>>, k: nat)
    requires k < |kinds| && kinds[k].Some?
    ensures KindMap(kinds[..k + 1]) == KindMap(kinds[..k])[kinds[k].value := k]
  {
    assert kinds[..k + 1][..k] == kinds[..k];
  }

  /** The first four template columns map their four fields to columns 0 to 3. */
  lemma KindMapTemplatePrefix(kinds: seq<Option<Field>>)
    requires |kinds| >= 4
    requires kinds[0] == Some(StudentIdField) && kinds[1] == Some(NameField)
    requires kinds[2] == Some(ClassNameField) && kinds[3] == Some(SubClassField)
    ensures KindMap(kinds[..4]) == map[StudentIdField := 0, NameField := 1, ClassNameField := 2, SubClassField := 3]
  {
    assert KindMap(kinds[..0]) == map[];
    KindMapStep(kinds, 0);
    KindMapStep(kinds, 1);
    KindMapStep(kinds, 2);
    KindMapStep(kinds, 3);
  }

  /** All eight template columns, in order, give the map from each field to its column. */
  lemma KindMapTemplateFull(kinds: seq<Option<Field>>)
    requires |kinds| == 8
    requires kinds[0] == Some(StudentIdField) && kinds[1] == Some(NameField)
    requires kinds[2] == Some(ClassNameField) && kinds[3] == Some(SubClassField)
    requires kinds[4] == Some(GradeField) && kinds[5] == Some(SubGradeField)
    requires kinds[6] == Some(ProgramField) && kinds[7] == Some(RoleField)
    ensures KindMap(kinds) == map[StudentIdField := 0, NameField := 1, ClassNameField := 2, SubClassField := 3,
                                  GradeField := 4, SubGradeField := 5, ProgramField := 6, RoleField := 7]
  {
    KindMapTemplatePrefix(kinds);
    KindMapStep(kinds, 4);
    KindMapStep(kinds, 5);
    KindMapStep(kinds, 6);
    KindMapStep(kinds, 7);
    assert kinds[..8] == kinds;
  }

  /** The eight fields, one per column in template order, map to columns 0 to 7. */
  lemma KindMapInTemplateOrder(kinds: seq<Option<Field>>)
    requires |kinds| == 8
    requires kinds[0] == Some(StudentIdField) && kinds[1] == Some(NameField)
    requires kinds[2] == Some(ClassNameField) && kinds[3] == Some(SubClassField)
    requires kinds[4] == Some(GradeField) && kinds[5] == Some(SubGradeField)
    requires kinds[6] == Some(ProgramField) && kinds[7] == Some(RoleField)
    ensures forall f :: f in KindMap(kinds)
    ensures var m := KindMap(kinds);
      && m[StudentIdField] == 0 && m[NameField] == 1 && m[ClassNameField] == 2 && m[SubClassField] == 3
      && m[GradeField] == 4 && m[SubGradeField] == 5 && m[ProgramField] == 6 && m[RoleField] == 7
  {
    KindMapTemplateFull(kinds);
    var m := KindMap(kinds);
    forall f: Field ensures f in m {
      match f
      case StudentIdField => case NameField => case ClassNameField => case SubClassField =>
      case GradeField => case SubGradeField => case ProgramField => case RoleField =>
    }
  }

  lemma TemplateColumnMap(cells: seq<string>)
    requires cells == ["student id", "name", "class", "sub class", "grade", "sub grade", "program", "role"]
    ensures forall f :: f in ColumnMap(cells)
    ensures var m := ColumnMap(cells);
      && m[StudentIdField] == 0 && m[NameField] == 1 && m[ClassNameField] == 2 && m[SubClassField] == 3
      && m[GradeField] == 4 && m[SubGradeField] == 5 && m[ProgramField] == 6 && m[RoleField] == 7
  {
    ClassifyStudentIdCell(cells[0]);
    ClassifyNameCell(cells[1]);
    ClassifyClassCell(cells[2]);
    ClassifySubClassCell(cells[3]);
    ClassifyGradeCell(cells[4]);
    ClassifySubGradeCell(cells[5]);
    ClassifyProgramCell(cells[6]);
    ClassifyRoleCell(cells[7]);
    ColumnMapInTemplateOrder(cells);
  }

  /** The header cells of comma-free pieces joined by commas are the pieces, trimmed and lower-cased. */
  lemma HeaderCellsJoin(ps: seq<string>)
    requires |ps| >= 1
    requires forall k :: 0 <= k < |ps| ==> ',' !in ps[k]
    ensures HeaderCells(Join(ps, ",")) == seq(|ps|, k requires 0 <= k < |ps| => Lower(Trim(ps[k])))
  {
    SplitOnJoin(ps, ',');
  }

  /** Comma- and quote-free pieces joined by commas scan back into the pieces, trimmed. */
  lemma CsvFieldsJoin(ps: seq<string>)
    requires |ps| >= 1
    requires forall k :: 0 <= k < |ps| ==> ',' !in ps[k] && '"' !in ps[k]
    ensures CsvFields(Join(ps, ",")) == TrimAll(ps)
  {
    JoinExcludes(ps, ",", '"');
    CsvFieldsQuoteFree(Join(ps, ","));
    SplitOnJoin(ps, ',');
  }

  const TemplateHeaderPieces := ["Student ID", "Name", "Class", "Sub Class", "Grade", "Sub Grade", "Program", "Role"]
  const TemplateHeaderCells := ["student id", "name", "class", "sub class", "grade", "sub grade", "program", "role"]

  /** A piece without surrounding whitespace whose letters lower-case to `b`. */
  lemma LowerTrimOf(a: string, b: string)
    requires a == [] || (!IsWhitespace(a[0]) && !IsWhitespace(a[|a| - 1]))
    requires |a| == |b| && forall i :: 0 <= i < |a| ==> LowerChar(a[i]) == b[i]
    ensures Lower(Trim(a)) == b
  {
    TrimOfTrimmed(a);
  }

  lemma TemplatePieceLower(k: nat)
    requires k < 8
    ensures Lower(Trim(TemplateHeaderPieces[k])) == TemplateHeaderCells[k]
  {
    var a, b := TemplateHeaderPieces[k], TemplateHeaderCells[k];
    LowerTrimOf(a, b);
  }
  const TemplateHeader := Join(TemplateHeaderPieces, ",")

  lemma TemplateHeaderCellsAre()
    ensures HeaderCells(TemplateHeader) == TemplateHeaderCells
  {
    forall k | 0 <= k < 8 ensures ',' !in TemplateHeaderPieces[k] {
    }
    HeaderCellsJoin(TemplateHeaderPieces);
    forall k | 0 <= k < 8 ensures Lower(Trim(TemplateHeaderPieces[k])) == TemplateHeaderCells[k] {
      TemplatePieceLower(k);
    }
  }

  lemma {:induction false} TrimAllFixed(ps: seq<string>)
    requires forall k :: 0 <= k < |ps| ==> Trim(ps[k]) == ps[k]
    ensures TrimAll(ps) == ps
  {
    if ps != [] {
      TrimAllFixed(ps[1..]);
    }
  }

  /** A data line of comma- and quote-free pieces that need no trimming, with non-blank ends. */
  lemma PlainRow(ps: seq<string>)
    requires |ps| >= 1 && ps[0] != [] && ps[|ps| - 1] != []
    requires !IsWhitespace(ps[0][0]) && !IsWhitespace(ps[|ps| - 1][|ps[|ps| - 1]| - 1])
    requires forall k :: 0 <= k < |ps| ==> ',' !in ps[k] && '"' !in ps[k] && Trim(ps[k]) == ps[k]
    ensures Trim(Join(ps, ",")) == Join(ps, ",")
    ensures CsvFields(Join(ps, ",")) == ps
  {
    JoinEnds(ps, ",");
    var j := Join(ps, ",");
    assert j[0] == ps[0][0];
    assert j[|j| - 1] == ps[|ps| - 1][|ps[|ps| - 1]| - 1];
    TrimOfTrimmed(j);
    CsvFieldsJoin(ps);
    TrimAllFixed(ps);
  }

  /** A non-blank data line whose cells give `d` and whose id and name are not blank is accepted as `d`. */
  lemma AcceptedRow(colMap: map<Field, nat>, i: nat, line: string, row: seq<string>, d: StudentData)
    requires line != [] && Trim(line) == line && CsvFields(line) == row
    requires && d.studentId == Cell(row, colMap, StudentIdField, "") && d.name == Cell(row, colMap, NameField, "")
             && d.className == Cell(row, colMap, ClassNameField, "") && d.subClass == Cell(row, colMap, SubClassField, "")
             && d.grade == Cell(row, colMap, GradeField, "") && d.subGrade == Cell(row, colMap, SubGradeField, "")
             && d.program == Cell(row, colMap, ProgramField, "") && d.role == Cell(row, colMap, RoleField, "Student")
    requires !IsBlank(d.studentId) && !IsBlank(d.name)
    ensures JudgeRow(colMap, i, line) == Accepted(d)
  {
  }

  /** The template's column layout: every field, in header order. */
  predicate TemplateLayout(m: map<Field, nat>) {
    && StudentIdField in m && NameField in m && ClassNameField in m && SubClassField in m
    && GradeField in m && SubGradeField in m && ProgramField in m && RoleField in m
    && m[StudentIdField] == 0 && m[NameField] == 1 && m[ClassNameField] == 2 && m[SubClassField] == 3
    && m[GradeField] == 4 && m[SubGradeField] == 5 && m[ProgramField] == 6 && m[RoleField] == 7
  }

  /** The template header maps all eight fields, each to its own column. */
  lemma TemplateMap(header: string, m: map<Field, nat>)
    requires header == TemplateHeader && m == ColumnMap(HeaderCells(header))
    ensures TemplateLayout(m)
  {
    TemplateHeaderCellsAre();
    TemplateColumnMap(TemplateHeaderCells);
  }

  /** A cell written without commas, quotes or surrounding whitespace. */
  predicate PlainCell(s: string) {
    s != [] && ',' !in s && '"' !in s && !IsWhitespace(s[0]) && !IsWhitespace(s[|s| - 1])
  }

  lemma PlainCellTrimmed(s: string)
    requires s == "" || PlainCell(s)
    ensures ',' !in s && '"' !in s && Trim(s) == s
  {
    if s != "" {
      assert !IsWhitespace(s[0]) && !IsWhitespace(s[|s| - 1]);
      TrimOfTrimmed(s);
    }
  }

  /** A line of plain or empty cells, plain at both ends, scans back into its cells. */
  lemma PlainRowCells(ps: seq<string>)
    requires |ps| >= 2 && PlainCell(ps[0]) && PlainCell(ps[|ps| - 1])
    requires forall k :: 0 <= k < |ps| ==> ps[k] == "" || PlainCell(ps[k])
    ensures Trim(Join(ps, ",")) == Join(ps, ",") && Join(ps, ",") != []
    ensures CsvFields(Join(ps, ",")) == ps
  {
    forall k | 0 <= k < |ps| ensures ',' !in ps[k] && '"' !in ps[k] && Trim(ps[k]) == ps[k] {
      PlainCellTrimmed(ps[k]);
    }
    PlainRow(ps);
  }

  /** Under the template layout a seven-cell row has no Role cell: the role falls back to "Student". */
  lemma CellsUnderLayoutShort(m: map<Field, nat>, ps: seq<string>)
    requires TemplateLayout(m)
    requires |ps| == 7 && forall k :: 0 <= k < 7 ==> Trim(ps[k]) == ps[k]
    ensures && Cell(ps, m, StudentIdField, "") == ps[0] && Cell(ps, m, NameField, "") == ps[1]
            && Cell(ps, m, ClassNameField, "") == ps[2] && Cell(ps, m, SubClassField, "") == ps[3]
            && Cell(ps, m, GradeField, "") == ps[4] && Cell(ps, m, SubGradeField, "") == ps[5]
            && Cell(ps, m, ProgramField, "") == ps[6] && Cell(ps, m, RoleField, "Student") == "Student"
  {
  }

  /** A seven-cell row under the template layout: its last cell is read as the program, and the role is "Student". */
  lemma ShortRowUnderLayout(m: map<Field, nat>, ps: seq<string>, i: nat)
    requires TemplateLayout(m)
    requires |ps| == 7 && PlainCell(ps[0]) && PlainCell(ps[1]) && PlainCell(ps[6])
    requires forall k :: 0 <= k < 7 ==> ps[k] == "" || PlainCell(ps[k])
    ensures JudgeRow(m, i, Join(ps, ","))
         == Accepted(StudentData(ps[0], ps[1], ps[2], ps[3], ps[4], ps[5], ps[6], "Student"))
  {
    var line := Join(ps, ",");
    PlainRowCells(ps);
    forall k | 0 <= k < 7 ensures Trim(ps[k]) == ps[k] {
      PlainCellTrimmed(ps[k]);
    }
    CellsUnderLayoutShort(m, ps);
    AcceptedRow(m, i, line, ps, StudentData(ps[0], ps[1], ps[2], ps[3], ps[4], ps[5], ps[6], "Student"));
  }

  /** Under the template layout the cells of an eight-cell row are read in order. */
  lemma CellsUnderLayout(m: map<Field, nat>, ps: seq<string>)
    requires TemplateLayout(m)
    requires |ps| == 8 && forall k :: 0 <= k < 8 ==> Trim(ps[k]) == ps[k]
    ensures && Cell(ps, m, StudentIdField, "") == ps[0] && Cell(ps, m, NameField, "") == ps[1]
            && Cell(ps, m, ClassNameField, "") == ps[2] && Cell(ps, m, SubClassField, "") == ps[3]
            && Cell(ps, m, GradeField, "") == ps[4] && Cell(ps, m, SubGradeField, "") == ps[5]
            && Cell(ps, m, ProgramField, "") == ps[6] && Cell(ps, m, RoleField, "Student") == ps[7]
  {
  }

  /** A full eight-cell row under the template layout is accepted with its cells as the record. */
  lemma FullRowUnderLayout(m: map<Field, nat>, ps: seq<string>, i: nat)
    requires TemplateLayout(m)
    requires |ps| == 8 && PlainCell(ps[0]) && PlainCell(ps[1]) && PlainCell(ps[7])
    requires forall k :: 0 <= k < 8 ==> ps[k] == "" || PlainCell(ps[k])
    ensures JudgeRow(m, i, Join(ps, ","))
         == Accepted(StudentData(ps[0], ps[1], ps[2], ps[3], ps[4], ps[5], ps[6], ps[7]))
  {
    var line := Join(ps, ",");
    PlainRowCells(ps);
    forall k | 0 <= k < 8 ensures Trim(ps[k]) == ps[k] {
      PlainCellTrimmed(ps[k]);
    }
    CellsUnderLayout(m, ps);
    AcceptedRow(m, i, line, ps, StudentData(ps[0], ps[1], ps[2], ps[3], ps[4], ps[5], ps[6], ps[7]));
  }

  /** The data rows of `generateSampleTemplate`, cell by cell: the two student rows. */
  const TemplateStudentRows: seq<seq<string>> := [
    ["STU001", "John Doe", "Class A", "Sub A1", "Grade 1", "Sub 1A", "Program X", "Student"],
    ["STU002", "Jane Smith", "Class B", "Sub B1", "Grade 2", "Sub 2A", "Program Y", "Student"]]

  /** The teacher row as written: seven cells, with "Teacher" in the seventh. */
  const TeacherRowAsWritten: seq<string> := ["TEA001", "Mr. Johnson", "", "", "", "", "Teacher"]

  /** The teacher row with one more empty cell, so that "Teacher" lands in the Role column. */
  const TeacherRowCorrected: seq<string> := ["TEA001", "Mr. Johnson", "", "", "", "", "", "Teacher"]

  /** The lines of a template: the header, then each row's cells joined by commas. */
  function TemplateLines(rows: seq<seq<string>>): (lines: seq<string>)
    ensures |lines| == |rows| + 1 && lines[0] == TemplateHeader
    ensures forall k :: 0 <= k < |rows| ==> lines[k + 1] == Join(rows[k], ",")
  {
    [TemplateHeader] + seq(|rows|, k requires 0 <= k < |rows| => Join(rows[k], ","))
  }

  lemma StudentRowsPlain(r: nat, k: nat)
    requires r < 2 && k < 8
    ensures PlainCell(TemplateStudentRows[r][k])
  {
  }

  lemma TeacherRowsPlain(k: nat)
    ensures k < 7 ==> TeacherRowAsWritten[k] == "" || PlainCell(TeacherRowAsWritten[k])
    ensures k < 8 ==> TeacherRowCorrected[k] == "" || PlainCell(TeacherRowCorrected[k])
    ensures PlainCell(TeacherRowAsWritten[0]) && PlainCell(TeacherRowAsWritten[1]) && PlainCell(TeacherRowAsWritten[6])
    ensures PlainCell(TeacherRowCorrected[7])
  {
  }

  /** Verdict `k` is the one on line `k + 1`. */
  lemma {:induction false} VerdictsIndex(colMap: map<Field, nat>, lines: seq<string>, n: nat, k: nat)
    requires n <= |lines| && k + 1 < n
    ensures Verdicts(colMap, lines, n)[k] == JudgeRow(colMap, k + 1, lines[k + 1])
  {
    if k + 2 < n {
      VerdictsIndex(colMap, lines, n - 1, k);
    }
  }

  /** When every verdict accepts, the records are the accepted ones, in order, and no message is reported. */
  lemma {:induction false} AllAccepted(vs: seq<RowVerdict>)
    requires forall k :: 0 <= k < |vs| ==> vs[k].Accepted?
    ensures |AcceptedOf(vs)| == |vs| && forall k :: 0 <= k < |vs| ==> AcceptedOf(vs)[k] == vs[k].student
    ensures MessagesOf(vs) == []
  {
    if vs != [] {
      AllAccepted(vs[..|vs| - 1]);
    }
  }

  /** The record a row of eight cells stands for, in header order. */
  function RecordOf(cells: seq<string>): StudentData
    requires |cells| == 8
  {
    StudentData(cells[0], cells[1], cells[2], cells[3], cells[4], cells[5], cells[6], cells[7])
  }

  const TemplateRowsCorrected := TemplateStudentRows + [TeacherRowCorrected]

  /** Every row of the corrected template has eight plain or empty cells, plain at both ends and in the name. */
  lemma TemplateRowPlain(row: seq<string>, k: nat)
    requires k < 3 && row == TemplateRowsCorrected[k]
    ensures |row| == 8 && PlainCell(row[0]) && PlainCell(row[1]) && PlainCell(row[7])
    ensures forall c :: 0 <= c < 8 ==> row[c] == "" || PlainCell(row[c])
  {
    forall c | 0 <= c < 8 ensures row[c] == "" || PlainCell(row[c]) {
      if k < 2 { StudentRowsPlain(k, c); } else { TeacherRowsPlain(c); }
    }
    if k < 2 { StudentRowsPlain(k, 0); StudentRowsPlain(k, 1); StudentRowsPlain(k, 7); }
    else { TeacherRowsPlain(0); }
  }

  /** Each row of the corrected template is accepted as the record its cells spell out. */
  lemma TemplateRowAccepted(row: seq<string>, m: map<Field, nat>, i: nat)
    requires TemplateLayout(m)
    requires |row| == 8 && PlainCell(row[0]) && PlainCell(row[1]) && PlainCell(row[7])
    requires forall c :: 0 <= c < 8 ==> row[c] == "" || PlainCell(row[c])
    ensures JudgeRow(m, i, Join(row, ",")) == Accepted(RecordOf(row))
  {
    FullRowUnderLayout(m, row, i);
  }

  lemma TemplateVerdict(rows: seq<seq<string>>, lines: seq<string>, m: map<Field, nat>, k: nat)
    requires rows == TemplateRowsCorrected && lines == TemplateLines(rows) && TemplateLayout(m)
    requires k < 3
    ensures |rows[k]| == 8 && Verdicts(m, lines, 4)[k] == Accepted(RecordOf(rows[k]))
  {
    assert lines[k + 1] == Join(rows[k], ",");
    VerdictsIndex(m, lines, 4, k);
    TemplateRowPlain(rows[k], k);
    TemplateRowAccepted(rows[k], m, k + 1);
  }

  lemma TemplateRowsShape(rows: seq<seq<string>>)
    requires rows == TemplateRowsCorrected
    ensures |rows| == 3 && forall k :: 0 <= k < 3 ==> |rows[k]| == 8
  {
  }

  /** Three verdicts that accept three records are their records, in order, with no message. */
  lemma AcceptedRecords(vs: seq<RowVerdict>, rows: seq<seq<string>>)
    requires |vs| == 3 && |rows| == 3 && forall k :: 0 <= k < 3 ==> |rows[k]| == 8
    requires forall k :: 0 <= k < 3 ==> vs[k] == Accepted(RecordOf(rows[k]))
    ensures |AcceptedOf(vs)| == 3 && MessagesOf(vs) == []
    ensures forall k :: 0 <= k < 3 ==> AcceptedOf(vs)[k] == RecordOf(rows[k])
  {
    AllAccepted(vs);
  }

  lemma TemplateAccepted(rows: seq<seq<string>>, lines: seq<string>, m: map<Field, nat>)
    requires rows == TemplateRowsCorrected && lines == TemplateLines(rows) && TemplateLayout(m)
    ensures |rows| == 3 && forall k :: 0 <= k < 3 ==> |rows[k]| == 8
    ensures |Verdicts(m, lines, 4)| == 3
    ensures forall k :: 0 <= k < 3 ==> Verdicts(m, lines, 4)[k] == Accepted(RecordOf(rows[k]))
  {
    TemplateRowsShape(rows);
    forall k | 0 <= k < 3 ensures Verdicts(m, lines, 4)[k] == Accepted(RecordOf(rows[k])) {
      TemplateVerdict(rows, lines, m, k);
    }
  }

  /** Importing the template with the corrected teacher row gives back every row as written in it. */
  lemma ImportTemplateCorrected(src: CsvSource, rows: seq<seq<string>>, lines: seq<string>)
    requires rows == TemplateRowsCorrected && lines == TemplateLines(rows)
    requires src.read == Opened(lines)
    requires IsCsv(Lower(src.mimeType.GetOr("")), src.displayName.GetOr(""), src.uriText)
    ensures |rows| == 3 && forall k :: 0 <= k < 3 ==> |rows[k]| == 8
    ensures var r := ImportReference(src);
      && r.success && r.errors == [] && r.totalRows == 3 && r.validRows == 3
      && |r.data| == 3 && forall k :: 0 <= k < 3 ==> r.data[k] == RecordOf(rows[k])
  {
    var m := ColumnMap(HeaderCells(lines[0]));
    TemplateMap(lines[0], m);
    TemplateAccepted(rows, lines, m);
    AcceptedRecords(Verdicts(m, lines, 4), rows);
    ImportOpened(src, lines, m);
  }

  const TemplateRowsAsWritten := TemplateStudentRows + [TeacherRowAsWritten]

  lemma TemplateVerdictsAsWritten(rows: seq<seq<string>>, lines: seq<string>, m: map<Field, nat>, k: nat)
    requires rows == TemplateRowsAsWritten && lines == TemplateLines(rows) && TemplateLayout(m) && k < 3
    ensures Verdicts(m, lines, 4)[k].Accepted?
    ensures k == 2 ==> Verdicts(m, lines, 4)[k].student
                       == StudentData(rows[2][0], rows[2][1], "", "", "", "", rows[2][6], "Student")
  {
    assert lines[k + 1] == Join(rows[k], ",");
    VerdictsIndex(m, lines, 4, k);
    if k < 2 {
      assert rows[k] == TemplateRowsCorrected[k];
      TemplateRowPlain(rows[k], k);
      TemplateRowAccepted(rows[k], m, k + 1);
    } else {
      var row := rows[2];
      assert row == TeacherRowAsWritten;
      forall c | 0 <= c < 7 ensures row[c] == "" || PlainCell(row[c]) {
        TeacherRowsPlain(c);
      }
      TeacherRowsPlain(0);
      ShortRowUnderLayout(m, row, 3);
    }
  }

  /**
   * Importing the template as written: the teacher row is accepted, but its
   * "Teacher" is read as the program and its role is the default "Student".
   */
  lemma ImportTemplateAsWritten(src: CsvSource, rows: seq<seq<string>>, lines: seq<string>)
    requires rows == TemplateRowsAsWritten && lines == TemplateLines(rows)
    requires src.read == Opened(lines)
    requires IsCsv(Lower(src.mimeType.GetOr("")), src.displayName.GetOr(""), src.uriText)
    ensures var r := ImportReference(src);
      && r.success && r.errors == [] && |r.data| == 3 && r.totalRows == 3
      && r.data[2].program == rows[2][6] && r.data[2].role == "Student"
  {
    var m := ColumnMap(HeaderCells(lines[0]));
    TemplateMap(lines[0], m);
    var vs := Verdicts(m, lines, 4);
    forall k | 0 <= k < 3 ensures vs[k].Accepted? {
      TemplateVerdictsAsWritten(rows, lines, m, k);
    }
    TemplateVerdictsAsWritten(rows, lines, m, 2);
    AllAccepted(vs);
    ImportOpened(src, lines, m);
  }

  /** The teacher row's last cell is "Teacher". */
  lemma TeacherCell(rows: seq<seq<string>>)
    requires rows == TemplateRowsAsWritten
    ensures rows[2][6] == "Teacher"
  {
  }

  // ----- Header lines the substring rules accept or refuse -----

  /** "id" alone meets no rule: "student" is not in it. */
  lemma ClassifyBareId(c: string)
    requires c == "id"
    ensures ClassifyHeader(c) == None
  {
    NotContainsByChar(c, "student", 's');
    NotContainsByChar(c, "name", 'n');
    NotContainsByChar(c, "class", 'c');
    NotContainsByChar(c, "sub", 's');
  }

  /** "full name" is a name column. */
  lemma ClassifyFullName(c: string)
    requires c == "full name"
    ensures ClassifyHeader(c) == Some(NameField)
  {
    NotContainsByChar(c, "student", 's');
    assert OccursAt(c, "name", 5);
  }

  /** "student id", however it is capitalised, is the ID column. */
  lemma ClassifyStudentId(c: string)
    requires c == "student id"
    ensures ClassifyHeader(c) == Some(StudentIdField)
  {
    ClassifyStudentIdCell(c);
  }

  /** Two comma-free cells give their trimmed, lower-cased selves. */
  lemma HeaderCellsPair(header: string, a: string, b: string, x: string, y: string)
    requires ',' !in a && ',' !in b && header == a + "," + b
    requires Lower(Trim(a)) == x && Lower(Trim(b)) == y
    ensures HeaderCells(header) == [x, y]
  {
    HeaderCellsCons(a, b);
    HeaderCellsSingle(b);
  }

  lemma JoinPair(x: string, y: string, sep: string)
    ensures Join([x, y], sep) == x + sep + y
  {
    assert [x, y][1..] == [y];
  }

  /** A cell that names a field puts that field in the column map. */
  lemma ColumnMapHas(cells: seq<string>, i: nat, f: Field)
    requires i < |cells| && ClassifyHeader(cells[i]) == Some(f)
    ensures f in ColumnMap(cells)
  {
  }

  /** Two cells, neither of which names a field, leave it out of the column map. */
  lemma ColumnMapLacksPair(cells: seq<string>, f: Field)
    requires |cells| == 2 && ClassifyHeader(cells[0]) != Some(f) && ClassifyHeader(cells[1]) != Some(f)
    ensures f !in ColumnMap(cells)
  {
    forall i | 0 <= i < |cells| ensures ClassifyHeader(cells[i]) != Some(f) {
      assert i == 0 || i == 1;
    }
  }

  /** The cells of the header `ID,Name`. */
  lemma BareIdCells(header: string, a: string, b: string)
    requires a == "ID" && b == "Name" && header == a + "," + b
    ensures HeaderCells(header) == ["id", "name"]
  {
    var x, y := "id", "name";
    LowerTrimOf(a, x);
    LowerTrimOf(b, y);
    HeaderCellsPair(header, a, b, x, y);
  }

  /** The cells "id" and "name" give a name column and no ID column. */
  lemma BareIdColumns(cells: seq<string>)
    requires cells == ["id", "name"]
    ensures StudentIdField !in ColumnMap(cells) && NameField in ColumnMap(cells)
  {
    ClassifyBareId(cells[0]);
    ClassifyNameCell(cells[1]);
    ColumnMapLacksPair(cells, StudentIdField);
    ColumnMapHas(cells, 1, NameField);
  }

  /** The header `ID,Name` has a name column but no ID column: "ID" alone is not recognised. */
  lemma BareIdHeader(header: string, a: string, b: string)
    requires a == "ID" && b == "Name" && header == a + "," + b
    ensures HeaderCells(header) == ["id", "name"] && Join(HeaderCells(header), ", ") == "id, name"
    ensures StudentIdField !in ColumnMap(HeaderCells(header)) && NameField in ColumnMap(HeaderCells(header))
  {
    BareIdCells(header, a, b);
    var cells := HeaderCells(header);
    JoinPair(cells[0], cells[1], ", ");
    IdNameText(cells[0], cells[1]);
    BareIdColumns(cells);
  }

  /** The two cells listed as the message lists them. */
  lemma IdNameText(x: string, y: string)
    requires x == "id" && y == "name"
    ensures x + ", " + y == "id, name"
  {
  }

  /** The cells of the header `Student Id,Full Name`. */
  lemma StudentIdFullNameCells(header: string, a: string, b: string)
    requires a == "Student Id" && b == "Full Name" && header == a + "," + b
    ensures HeaderCells(header) == ["student id", "full name"]
  {
    var x, y := "student id", "full name";
    LowerTrimOf(a, x);
    LowerTrimOf(b, y);
    HeaderCellsPair(header, a, b, x, y);
  }

  /** The header `Student Id,Full Name` has both required columns. */
  lemma StudentIdFullNameHeader(header: string, a: string, b: string)
    requires a == "Student Id" && b == "Full Name" && header == a + "," + b
    ensures HeaderCells(header) == ["student id", "full name"]
    ensures StudentIdField in ColumnMap(HeaderCells(header)) && NameField in ColumnMap(HeaderCells(header))
  {
    StudentIdFullNameCells(header, a, b);
    var cells := HeaderCells(header);
    ClassifyStudentId(cells[0]);
    ClassifyFullName(cells[1]);
    ColumnMapHas(cells, 0, StudentIdField);
    ColumnMapHas(cells, 1, NameField);
  }

  /** A CSV file headed `ID,Name` is refused whatever its rows, and the message lists the cells it saw. */
  lemma ImportBareIdHeader(src: CsvSource, lines: seq<string>, a: string, b: string)
    requires a == "ID" && b == "Name"
    requires src.read == Opened(lines) && lines != [] && lines[0] == a + "," + b
    requires IsCsv(Lower(src.mimeType.GetOr("")), src.displayName.GetOr(""), src.uriText)
    ensures ImportReference(src) == Failure([MissingColumnsMessage, "Detected columns: " + Join(HeaderCells(lines[0]), ", ")])
    ensures Join(HeaderCells(lines[0]), ", ") == "id, name"
  {
    BareIdHeader(lines[0], a, b);
    ImportMissingColumns(src);
  }

  // ----- The template text -----

  /**
   * `generateSampleTemplate()`: after `trimIndent` removes the indentation
   * and the blank first and last lines, the text is the template's lines
   * joined by line breaks, with no line break at the end.
   */
  const SampleTemplate := Join(TemplateLines(TemplateRowsAsWritten), "\n")

  /** No cell and no header piece of the template holds a line break. */
  lemma TemplateCellsOneLine(r: nat, k: nat)
    ensures r < 3 && k < |TemplateRowsAsWritten[r]| ==> '\n' !in TemplateRowsAsWritten[r][k]
    ensures k < 8 ==> '\n' !in TemplateHeaderPieces[k]
  {
  }

  /** The template header is a single line. */
  lemma TemplateHeaderOneLine()
    ensures '\n' !in TemplateHeader
  {
    forall c | 0 <= c < |TemplateHeaderPieces| ensures '\n' !in TemplateHeaderPieces[c] {
      TemplateCellsOneLine(0, c);
    }
    JoinExcludes(TemplateHeaderPieces, ",", '\n');
  }

  /** Each template row, joined by commas, is a single line. */
  lemma TemplateRowOneLine(rows: seq<seq<string>>, r: nat)
    requires rows == TemplateRowsAsWritten && r < 3
    ensures '\n' !in Join(rows[r], ",")
  {
    var row := rows[r];
    forall c | 0 <= c < |row| ensures '\n' !in row[c] {
      TemplateCellsOneLine(r, c);
    }
    JoinExcludes(row, ",", '\n');
  }

  /** When every row joins into a single line, each line of the template is a single line. */
  lemma TemplateLinesOneLine(rows: seq<seq<string>>, lines: seq<string>, k: nat)
    requires forall r :: 0 <= r < |rows| ==> '\n' !in Join(rows[r], ",")
    requires lines == TemplateLines(rows) && k < |lines|
    ensures '\n' !in lines[k]
  {
    if k == 0 {
      TemplateHeaderOneLine();
    } else {
      assert lines[k] == Join(rows[k - 1], ",");
    }
  }

  /** Reading the template text line by line gives back its header and its three rows. */
  lemma SampleTemplateLines(t: string, rows: seq<seq<string>>)
    requires rows == TemplateRowsAsWritten && t == Join(TemplateLines(rows), "\n")
    ensures SplitOn(t, '\n') == TemplateLines(rows)
  {
    forall r | 0 <= r < |rows| ensures '\n' !in Join(rows[r], ",") {
      TemplateRowOneLine(rows, r);
    }
    var lines := TemplateLines(rows);
    forall k | 0 <= k < |lines| ensures '\n' !in lines[k] {
      TemplateLinesOneLine(rows, lines, k);
    }
    SplitOnJoin(lines, '\n');
  }

  /** Importing the text `generateSampleTemplate` returns, read line by line. */
  lemma ImportSampleTemplate(src: CsvSource, t: string, rows: seq<seq<string>>)
    requires rows == TemplateRowsAsWritten && t == Join(TemplateLines(rows), "\n")
    requires src.read == Opened(SplitOn(t, '\n'))
    requires IsCsv(Lower(src.mimeType.GetOr("")), src.displayName.GetOr(""), src.uriText)
    ensures |rows| == 3 && |rows[2]| == 7
    ensures var r := ImportReference(src);
      && r.success && r.errors == [] && |r.data| == 3 && r.totalRows == 3
      && r.data[2].program == rows[2][6] && r.data[2].role == "Student"
  {
    SampleTemplateLines(t, rows);
    ImportTemplateAsWritten(src, rows, TemplateLines(rows));
  }
}
