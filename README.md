# Bulk student import and face registration

This project models the bulk-registration core of the attendance app: how
students are imported from a CSV file and how each student's face is
registered.

- **CSV import** (`ExcelImportUtils`). The importer:
  - checks the file type;
  - maps header cells to fields by case-insensitive substring rules;
  - splits data lines with a quote-aware scanner;
  - accepts, rejects or skips each data line while counting rows;
  - also produces a sample template.
- **The registration chain** (`processStudentAndRegister`). A student's
  photo goes through four steps: resolve, decode, face detection and save.
  Each step can halt the row with its own message. After that comes
  `registerFace`, which can throw.
- **`RegisterViewModel`** has the following parts:
  - a face registry in which a stored ID, or a stored face within the
    cosine-distance threshold 0.3f, makes the row a duplicate;
  - a variant whose status is set by the callbacks of `registerFace`;
  - the batch loop that publishes progress after each row;
  - the preparation step, which builds the time estimate.
- **`BulkRegistrationViewModel`** has the following parts:
  - the same batch loop, publishing progress and photo type before each
    row and the photo size after it;
  - a cache of the parsed students keyed by student ID;
  - `rerunFailed`, which retries every row in Error and patches the
    result back into the list.

Files:

| file | module | models |
|---|---|---|
| `text.dfy` | `Wrappers`, `Text` | `Option` and the Kotlin string operations the core uses: `trim`, `isBlank`, ASCII `lowercase`, `contains`, `split`, `joinToString` and decimal printing |
| `processing.dfy` | `Processing` | the shared records (`CsvStudentData`, `ProcessResult`, `ProcessingState`, the photo result); the outcomes of the platform calls; the status buckets and counts; `formatFileSize`; the time estimate |
| `csv_import.dfy` | `CsvImport` | `importFromCsv`, `importFromExcel`, the header mapping and `parseCsvLine` |
| `csv_template.dfy` | `CsvTemplate` | the headers and the sample template run through the importer |
| `student_chain.dfy` | `StudentChain` | `processStudentAndRegister` and the four front steps that both view models repeat |
| `register_view_model.dfy` | `Register` | the face registry (`class FaceDao`) and `class RegisterViewModel` |
| `bulk_registration.dfy` | `BulkRegistration` | `class BulkRegistrationViewModel` and the re-run |

## Modelling

Each loop of the source is a method proved equal to a specification
function:

- `ParseCsvLine` equals `CsvFields`;
- `MapColumns` equals `ColumnMap`;
- `ImportFromCsv` equals `ImportReference`;
- the view-model loops equal `RowResults`, `RunProgress` and `RerunLoop`.

The properties the source promises are then proved as lemmas about those
functions.

The view models are classes. Their state fields are reassigned the way
the `MutableStateFlow` is. A ghost log `published` records every value
the state flow held, so the order of the progress updates can be stated.

The platform's answers are inputs to the model:

- each row's photo result, decode, face detection, save and
  `registerFace` outcome is given by a `RowEnv`, with the row index as the
  argument;
- the content resolver's MIME type and name, and the lines it reads, are
  given by a `CsvSource`;
- `parseCsvFile` is given by a `CsvParse`.

The model follows the code, including these behaviours a reader might
not expect:

- The header is always `lines[0]`.
- `totalRows` counts empty data lines too.
- A header `ID,Name` is refused, because "id" alone does not contain
  "student".
- A header `Student Id,Full Name` is accepted.
- `RegisterViewModel` publishes progress after a row, and only for a row
  that returned. `BulkRegistrationViewModel` publishes progress before
  every row.
- The final state of a run is a fresh `ProcessingState`, so the estimate
  text is cleared.
- No cancellation exists.

The view-model classes follow the code as written. The definitions
corrected under "## Findings" stand beside them, with their intended
properties proved.

## Model

| member | source | states |
|---|---|---|
| Text.BlankIffTrimEmpty | app/src/main/java/com/example/crashcourse/utils/ExcelImportUtils.kt:118-119 | a line is blank exactly when trimming it leaves nothing, so `trim().isEmpty()` and `isBlank()` agree |
| Text.TrimIdempotent | app/src/main/java/com/example/crashcourse/utils/ExcelImportUtils.kt:118-124 | trimming a trimmed string changes nothing, so a cell of an already trimmed line is trimmed once in effect |
| CsvImport.HeaderCells | app/src/main/java/com/example/crashcourse/utils/ExcelImportUtils.kt:89 | the header has one cell per comma-separated piece of the first line, quotes not honoured |
| CsvImport.ColumnMap | app/src/main/java/com/example/crashcourse/utils/ExcelImportUtils.kt:91-102 | a field is mapped exactly when some header cell meets its rule first; it is mapped to such a cell, and to the last one, later columns overwriting earlier ones |
| CsvImport.KindMapMeaning | app/src/main/java/com/example/crashcourse/utils/ExcelImportUtils.kt:91-102 | the map built column by column from the classified header holds a field exactly when some column has it, maps it to a column that has it, and no later column has it |
| CsvImport.MapColumns | app/src/main/java/com/example/crashcourse/utils/ExcelImportUtils.kt:91-102 | the `forEachIndexed` loop builds exactly that column map |
| CsvImport.CsvFields | app/src/main/java/com/example/crashcourse/utils/ExcelImportUtils.kt:167-198 | the line scanner always returns at least one field |
| CsvImport.ParseCsvLine | app/src/main/java/com/example/crashcourse/utils/ExcelImportUtils.kt:167-198 | the character loop of `parseCsvLine` returns exactly the fields of the scanner |
| CsvImport.CsvFieldsQuoteFree | app/src/main/java/com/example/crashcourse/utils/ExcelImportUtils.kt:184-196 | a line without quotes gives its comma-separated pieces, each trimmed: one more field than commas |
| CsvImport.ScanCopiesQuoted | app/src/main/java/com/example/crashcourse/utils/ExcelImportUtils.kt:184-192 | inside quotes every character except the quote, the comma included, is copied into the field |
| CsvImport.QuotedField | app/src/main/java/com/example/crashcourse/utils/ExcelImportUtils.kt:175-196 | a line that is one quoted value gives that value, trimmed, as its only field |
| CsvImport.EscapedQuoteField | app/src/main/java/com/example/crashcourse/utils/ExcelImportUtils.kt:176-179 | a doubled quote inside quotes stands for one quote and does not end the quoted part |
| CsvImport.QuotedCommaExample | app/src/main/java/com/example/crashcourse/utils/ExcelImportUtils.kt:184-187 | the quoted value `Smith, John` stays one field |
| CsvImport.EscapedQuoteExample | app/src/main/java/com/example/crashcourse/utils/ExcelImportUtils.kt:176-179 | the quoted value `a""b` gives the single field `a"b` |
| CsvImport.ImportFromExcel | app/src/main/java/com/example/crashcourse/utils/ExcelImportUtils.kt:34-39 | a spreadsheet import never succeeds: no records and one error message |
| CsvImport.ImportFromCsv | app/src/main/java/com/example/crashcourse/utils/ExcelImportUtils.kt:44-162 | the method returns the reference result: file-type check, open failure, read failure, empty file, missing columns, then the row loop |
| CsvImport.JudgeSkipped | app/src/main/java/com/example/crashcourse/utils/ExcelImportUtils.kt:118-119 | a data line is skipped exactly when it is blank |
| CsvImport.JudgeAccepted | app/src/main/java/com/example/crashcourse/utils/ExcelImportUtils.kt:123-143 | an accepted record has an ID and a name that are neither blank nor padded; each field is the trimmed cell of its column; a field with no column or no cell is "", except the role, which is then "Student"; a role cell that is there but blank stays "" |
| CsvImport.JudgeRejected | app/src/main/java/com/example/crashcourse/utils/ExcelImportUtils.kt:118-128 | a line is rejected exactly when it is not blank and its ID or its name has no column, no cell, or a blank cell; the message names its 1-based line number |
| CsvImport.VerdictCountsAddUp | app/src/main/java/com/example/crashcourse/utils/ExcelImportUtils.kt:116-147 | every data line is accepted, rejected or skipped, and the three counts add up to the lines judged |
| CsvImport.SkippedAreBlank | app/src/main/java/com/example/crashcourse/utils/ExcelImportUtils.kt:116-119 | the skipped lines are exactly the blank data lines |
| CsvImport.NoBlankLines | app/src/main/java/com/example/crashcourse/utils/ExcelImportUtils.kt:116-119 | no blank line is counted exactly when no data line is blank |
| CsvImport.AcceptedInOrder | app/src/main/java/com/example/crashcourse/utils/ExcelImportUtils.kt:131-142 | the records come from accepted lines, one each, in line order |
| CsvImport.AcceptedAreGood | app/src/main/java/com/example/crashcourse/utils/ExcelImportUtils.kt:123-143 | every record of the import has a present, trimmed ID and name |
| CsvImport.MessagesNameLines | app/src/main/java/com/example/crashcourse/utils/ExcelImportUtils.kt:127 | every error message of the row loop names a data line |
| CsvImport.VerdictsSummary | app/src/main/java/com/example/crashcourse/utils/ExcelImportUtils.kt:116-147 | records plus messages plus blank lines are the data lines; records are well formed; messages name lines |
| CsvImport.ImportOutcome | app/src/main/java/com/example/crashcourse/utils/ExcelImportUtils.kt:149-155 | an import succeeds exactly when it returns records, and `validRows` is their number, on every path |
| CsvImport.ImportCounts | app/src/main/java/com/example/crashcourse/utils/ExcelImportUtils.kt:116-155 | `totalRows` counts every data line, blank ones included; valid rows plus errors fall short of it by the blank lines, so they equal it exactly when no data line is blank |
| CsvImport.ImportMissingColumns | app/src/main/java/com/example/crashcourse/utils/ExcelImportUtils.kt:104-113 | without an ID or a name column no data line is read, and the two messages list the cells detected |
| CsvTemplate.ColumnMapDistinct | app/src/main/java/com/example/crashcourse/utils/ExcelImportUtils.kt:91-102 | when each header cell names a different field, every field maps to its own column |
| CsvTemplate.TemplateColumnMap | app/src/main/java/com/example/crashcourse/utils/ExcelImportUtils.kt:91-102 | the eight lower-cased template header cells map the eight fields to columns 0 to 7 |
| CsvTemplate.SampleTemplateLines | app/src/main/java/com/example/crashcourse/utils/ExcelImportUtils.kt:203-210 | reading the template text line by line gives its header and its three rows back |
| CsvTemplate.ImportTemplateCorrected | app/src/main/java/com/example/crashcourse/utils/ExcelImportUtils.kt:203-210 | with an eighth cell in the teacher row, the template imports as its three records, cell for cell, with no error |
| CsvTemplate.ImportTemplateAsWritten | app/src/main/java/com/example/crashcourse/utils/ExcelImportUtils.kt:208 | as written, the teacher row is accepted with "Teacher" as its program and the default role "Student" |
| CsvTemplate.ImportSampleTemplate | app/src/main/java/com/example/crashcourse/utils/ExcelImportUtils.kt:203-210 | importing the template text gives three records and no error, the third with program "Teacher" and role "Student" |
| CsvTemplate.BareIdHeader | app/src/main/java/com/example/crashcourse/utils/ExcelImportUtils.kt:89-101 | a header `ID,Name` has a name column but no ID column, since "id" alone meets no rule |
| CsvTemplate.StudentIdFullNameHeader | app/src/main/java/com/example/crashcourse/utils/ExcelImportUtils.kt:89-101 | a header `Student Id,Full Name` has both required columns |
| CsvTemplate.ImportBareIdHeader | app/src/main/java/com/example/crashcourse/utils/ExcelImportUtils.kt:104-113 | a file headed `ID,Name` is refused whatever its rows, and the message lists "id, name" |
| StudentChain.FrontSteps | app/src/main/java/com/example/crashcourse/utils/processStudentAndRegister.kt:23-60 | the chain reaches registration exactly when the photo, the decode, the face detection and the save all succeed, with that embedding and path |
| StudentChain.FirstFailure | app/src/main/java/com/example/crashcourse/utils/processStudentAndRegister.kt:23-60 | no message exactly when every step passes |
| StudentChain.FirstFailureIsFirst | app/src/main/java/com/example/crashcourse/utils/processStudentAndRegister.kt:23-60 | the message is that of a failing step that only passing steps precede, in both directions |
| StudentChain.FrontStepsFirstFailure | app/src/main/java/com/example/crashcourse/utils/processStudentAndRegister.kt:23-60 | the chain halts exactly when some step fails, and with the first failing step's message |
| StudentChain.ProcessStudentAndRegister | app/src/main/java/com/example/crashcourse/utils/processStudentAndRegister.kt:13-96 | ID and name are the student's; "Registered" exactly when the four steps pass and `registerFace` returns, then with no error and the processed size; otherwise "Error" with a message and the original size |
| StudentChain.HaltedChain | app/src/main/java/com/example/crashcourse/utils/processStudentAndRegister.kt:23-60 | the first failing step decides the result, and `registerFace` then makes no difference |
| StudentChain.ReadyChain | app/src/main/java/com/example/crashcourse/utils/processStudentAndRegister.kt:62-95 | once the four steps pass, a returning `registerFace` registers and a throwing one reports its message or "Registration failed" |
| Processing.BucketsPartition | app/src/main/java/com/example/crashcourse/viewmodel/RegisterViewModel.kt:197-201 | every result is counted in exactly one of "Registered", starts with "Duplicate", and anything else |
| Processing.ExactErrorIsErrorBucket | app/src/main/java/com/example/crashcourse/viewmodel/BulkRegistrationViewModel.kt:291-293 | over the statuses the pipeline produces, counting `status == "Error"` gives the same count as the "anything else" bucket |
| Processing.FormatFileSizeMeaning | app/src/main/java/com/example/crashcourse/viewmodel/RegisterViewModel.kt:154-161 | zero prints "0 KB"; below 1 KiB prints the exact byte count with " B"; below 1 MiB prints the KiB count rounded down with " KB" |
| Processing.EstimateWithinAMinute | app/src/main/java/com/example/crashcourse/viewmodel/RegisterViewModel.kt:36-40 | the estimate text stands for a time at most the true one and less than a minute below it, for every duration except 120 s |
| Processing.EstimateAt120 | app/src/main/java/com/example/crashcourse/viewmodel/RegisterViewModel.kt:36-40 | at exactly 120 s the text is "1 minute 0 seconds", i.e. 60 s |
| Processing.EstimateShapeCorrected | app/src/main/java/com/example/crashcourse/viewmodel/RegisterViewModel.kt:36-40 | with the boundary at 120 s included in the minutes branch, the text is within the minute for every duration, and agrees with the code elsewhere |
| Processing.PhotoUrls | app/src/main/java/com/example/crashcourse/viewmodel/RegisterViewModel.kt:33 | one photo reference per parsed student, in order |
| Register.IndexOfId | app/src/main/java/com/example/crashcourse/viewmodel/RegisterViewModel.kt:105 | a stored face bearing the ID is found exactly when one exists |
| Register.FaceDao.constructor | app/src/main/java/com/example/crashcourse/viewmodel/RegisterViewModel.kt:103 | the registry starts empty |
| Register.FaceDao.FaceByStudentId | app/src/main/java/com/example/crashcourse/viewmodel/RegisterViewModel.kt:105 | a face is returned exactly when one with the ID is stored, and it is that one |
| Register.FaceDao.Insert | app/src/main/java/com/example/crashcourse/viewmodel/RegisterViewModel.kt:144 | the new face is stored after the others |
| Register.FirstMatchFrom | app/src/main/java/com/example/crashcourse/viewmodel/RegisterViewModel.kt:118-128 | the first stored face whose distance is within 0.3f, inclusive, with every earlier face beyond it; none exactly when all are beyond it |
| Register.DecideMatchInRange | app/src/main/java/com/example/crashcourse/viewmodel/RegisterViewModel.kt:118-128 | a matched face is a stored one |
| Register.IdCollisionFirst | app/src/main/java/com/example/crashcourse/viewmodel/RegisterViewModel.kt:105-113 | an ID already stored decides the row before any distance is computed: "Duplicate (ID already exists)" with the original size, nothing stored |
| Register.FirstMatchNamesDuplicate | app/src/main/java/com/example/crashcourse/viewmodel/RegisterViewModel.kt:115-128 | without an ID collision the first face within the threshold names the duplicate, and nothing is stored |
| Register.InsertOnlyWhenNew | app/src/main/java/com/example/crashcourse/viewmodel/RegisterViewModel.kt:130-151 | the registry changes exactly when the four steps pass and neither duplicate rule fires, and then by exactly the new student's face |
| Register.UniqueIdsPreserved | app/src/main/java/com/example/crashcourse/viewmodel/RegisterViewModel.kt:103-151 | stored student IDs stay unique |
| Register.SecondRegistrationIsDuplicate | app/src/main/java/com/example/crashcourse/viewmodel/RegisterViewModel.kt:105-151 | a student registered once is a duplicate by ID on the next row with the same ID, which stores nothing |
| Register.FrontFailureStoresNothing | app/src/main/java/com/example/crashcourse/viewmodel/RegisterViewModel.kt:64-101 | a failing front step stores nothing and reports its message with the original size |
| Register.RegisterViewModel.ProcessStudent | app/src/main/java/com/example/crashcourse/viewmodel/RegisterViewModel.kt:54-152 | the result and the registry after the two-argument `processStudent` are those of the decision: front steps, ID check, threshold scan, insertion |
| Register.LastCallbackWins | app/src/main/java/com/example/crashcourse/viewmodel/RegisterViewModel.kt:302-303 | the last callback `registerFace` invokes decides the status; with none it stays "Registered" |
| Register.CallbackOutcome | app/src/main/java/com/example/crashcourse/viewmodel/RegisterViewModel.kt:239-321 | the three-argument `processStudent` keeps the student's ID and name |
| Register.CallbackOutcomeMeaning | app/src/main/java/com/example/crashcourse/viewmodel/RegisterViewModel.kt:289-320 | after the four steps, a returning `registerFace` gives the processed size and the last callback's status; a throwing one "Error" with its message and the original size |
| Register.RegisterViewModel.ProcessStudentWithCallbacks | app/src/main/java/com/example/crashcourse/viewmodel/RegisterViewModel.kt:239-321 | the method applying the callbacks in order returns exactly that outcome |
| Register.RowResult | app/src/main/java/com/example/crashcourse/viewmodel/RegisterViewModel.kt:195-217 | each row keeps its student's ID and name; a throwing row is "Error" with its message or "Unknown error"; a row that returns is the callback outcome of the chain |
| Register.RowResults | app/src/main/java/com/example/crashcourse/viewmodel/RegisterViewModel.kt:194-219 | one result per row processed |
| Register.RowResultsInOrder | app/src/main/java/com/example/crashcourse/viewmodel/RegisterViewModel.kt:194-219 | result k is row k's, for the student in position k |
| Register.CompletedProgressRows | app/src/main/java/com/example/crashcourse/viewmodel/RegisterViewModel.kt:194-209 | progress (i+1)/total is published exactly for the rows whose processing did not throw, and nothing else is published |
| Register.FinishedCounts | app/src/main/java/com/example/crashcourse/viewmodel/RegisterViewModel.kt:221-228 | a finished run holds one result per student, and its three counts add up to the students |
| Register.RegisterViewModel.constructor | app/src/main/java/com/example/crashcourse/viewmodel/RegisterViewModel.kt:23-27 | the state starts as a default `ProcessingState` and no photo sources |
| Register.RegisterViewModel.PrepareProcessing | app/src/main/java/com/example/crashcourse/viewmodel/RegisterViewModel.kt:29-51 | the photo sources are those of the parsed students; the estimate line is set, or "Time estimate unavailable" when parsing or estimating throws; nothing else changes |
| Register.RegisterViewModel.ResetState | app/src/main/java/com/example/crashcourse/viewmodel/RegisterViewModel.kt:163-165 | the state is the default one again |
| Register.RegisterViewModel.PublishProgress | app/src/main/java/com/example/crashcourse/viewmodel/RegisterViewModel.kt:204-207 | progress (i+1)/total and the "Processing i+1/total: name" status are published, nothing else |
| Register.RegisterViewModel.ProcessRows | app/src/main/java/com/example/crashcourse/viewmodel/RegisterViewModel.kt:188-219 | the results are the rows' results in order, with the three counters equal to the three buckets over them; progress is published after each row whose processing returned, and not for a row that threw |
| Register.RegisterViewModel.ProcessCsvFile | app/src/main/java/com/example/crashcourse/viewmodel/RegisterViewModel.kt:169-237 | "Parsing CSV file..." first; then the failure state, the no-students state, or a fresh state with the results and their three counts, after the per-row progress |
| BulkRegistration.AssociateBy | app/src/main/java/com/example/crashcourse/viewmodel/BulkRegistrationViewModel.kt:31 | the cache holds exactly the IDs that occur, each under its own ID |
| BulkRegistration.AssociateByLastWins | app/src/main/java/com/example/crashcourse/viewmodel/BulkRegistrationViewModel.kt:31 | the last student bearing an ID is the one cached under it |
| BulkRegistration.RowResult | app/src/main/java/com/example/crashcourse/viewmodel/BulkRegistrationViewModel.kt:77-108 | each row keeps its student's ID and name and is "Registered" or "Error"; a throwing row is "Error" with its message or "Unknown error"; a row that returns is the result of `processStudentAndRegister` |
| BulkRegistration.RowResults | app/src/main/java/com/example/crashcourse/viewmodel/BulkRegistrationViewModel.kt:77-109 | one result per row processed |
| BulkRegistration.RowResultsInOrder | app/src/main/java/com/example/crashcourse/viewmodel/BulkRegistrationViewModel.kt:77-109 | result k is row k's, for the student in position k |
| BulkRegistration.NoDuplicates | app/src/main/java/com/example/crashcourse/viewmodel/BulkRegistrationViewModel.kt:88-92 | with no-op callbacks no row is ever counted a duplicate; successes and errors add up to the rows |
| BulkRegistration.RunProgressCoversRows | app/src/main/java/com/example/crashcourse/viewmodel/BulkRegistrationViewModel.kt:79-85 | progress (i+1)/total is published for every row i, also for a row that throws; nothing else is published, and a run ends on progress n/total |
| BulkRegistration.FailedIds | app/src/main/java/com/example/crashcourse/viewmodel/BulkRegistrationViewModel.kt:240 | each failed ID is the ID of an entry in Error; no failed IDs exactly when no entry is in Error |
| BulkRegistration.IndexOfFirst | app/src/main/java/com/example/crashcourse/viewmodel/BulkRegistrationViewModel.kt:258 | the first position holding the ID, or -1 exactly when none holds it |
| BulkRegistration.Patch | app/src/main/java/com/example/crashcourse/viewmodel/BulkRegistrationViewModel.kt:271-272 | the first entry holding the ID is replaced and nothing else moves; without one the result is appended |
| BulkRegistration.MarkMissing | app/src/main/java/com/example/crashcourse/viewmodel/BulkRegistrationViewModel.kt:256-266 | the first entry holding the ID becomes "Error" with "Missing cached data"; every other entry is unchanged |
| BulkRegistration.Retry | app/src/main/java/com/example/crashcourse/viewmodel/BulkRegistrationViewModel.kt:269-288 | a returning retry is the chain's result; a throwing one is "Error" for the failed ID with the cached name and the message or "Re-run failed" |
| BulkRegistration.Tally | app/src/main/java/com/example/crashcourse/viewmodel/BulkRegistrationViewModel.kt:273-277 | each retry adds one to the count of its bucket and leaves the other two counts as they were |
| BulkRegistration.RerunCountsAddUp | app/src/main/java/com/example/crashcourse/viewmodel/BulkRegistrationViewModel.kt:255-289 | the three added counts sum to the number of IDs retried |
| BulkRegistration.RowResultsKnown | app/src/main/java/com/example/crashcourse/viewmodel/BulkRegistrationViewModel.kt:76-107 | every result of a run is "Registered" or "Error", a status the counts know |
| BulkRegistration.RerunKeepsKnown | app/src/main/java/com/example/crashcourse/viewmodel/BulkRegistrationViewModel.kt:255-288 | a re-run keeps every status one the counts know |
| BulkRegistration.RerunErrorCount | app/src/main/java/com/example/crashcourse/viewmodel/BulkRegistrationViewModel.kt:291-293 | after a run, the re-run's count of `status == "Error"` equals the error bucket that `processCsvFile` counts |
| BulkRegistration.RerunKeepsPositions | app/src/main/java/com/example/crashcourse/viewmodel/BulkRegistrationViewModel.kt:255-289 | retrying IDs that occur keeps the length and the IDs position by position, and every entry whose ID was not retried is unchanged |
| BulkRegistration.RerunTouchesOnlyErrors | app/src/main/java/com/example/crashcourse/viewmodel/BulkRegistrationViewModel.kt:237-289 | with distinct IDs a re-run changes only entries that were in Error |
| BulkRegistration.RerunPatchesFirstPosition | app/src/main/java/com/example/crashcourse/viewmodel/BulkRegistrationViewModel.kt:271-272 | with a "Registered" and an "Error" entry for one ID, the re-run overwrites the Registered one and leaves the Error one |
| BulkRegistration.FailedPositions | app/src/main/java/com/example/crashcourse/viewmodel/BulkRegistrationViewModel.kt:240 | the positions of entries in Error, strictly increasing |
| BulkRegistration.FailedPositionsComplete | app/src/main/java/com/example/crashcourse/viewmodel/BulkRegistrationViewModel.kt:240 | every entry in Error is at one of those positions |
| BulkRegistration.RerunLoopCorrected | app/src/main/java/com/example/crashcourse/viewmodel/BulkRegistrationViewModel.kt:255-289 | retrying by position keeps the length of the list |
| BulkRegistration.RerunCorrectedTouchesOnlyErrors | app/src/main/java/com/example/crashcourse/viewmodel/BulkRegistrationViewModel.kt:255-289 | retrying by position changes only the retried positions, keeps every ID in place, and counts each retry once |
| BulkRegistration.RerunCorrectedKeepsNonErrors | app/src/main/java/com/example/crashcourse/viewmodel/BulkRegistrationViewModel.kt:255-289 | corrected, a re-run leaves every entry not in Error as it was, even when IDs repeat |
| BulkRegistration.CorrectedPatches | app/src/main/java/com/example/crashcourse/viewmodel/BulkRegistrationViewModel.kt:255-289 | retrying strictly increasing positions leaves each retried position holding the retry of its own entry, or that entry marked "Missing cached data" when its ID is not cached |
| BulkRegistration.RerunCorrectedPatchesErrors | app/src/main/java/com/example/crashcourse/viewmodel/BulkRegistrationViewModel.kt:255-289 | corrected, every entry in Error is itself retried (its student's retry, or "Missing cached data"), and every other entry and every ID stays as it was |
| BulkRegistration.FailedIdsAtPositions | app/src/main/java/com/example/crashcourse/viewmodel/BulkRegistrationViewModel.kt:240 | the k-th failed ID is the ID at the k-th failed position |
| BulkRegistration.RerunAgreesWhenDistinct | app/src/main/java/com/example/crashcourse/viewmodel/BulkRegistrationViewModel.kt:255-289 | when no two results share an ID, the re-run as written and the corrected one give the same list and counts |
| BulkRegistration.RerunPatchesErrorsWhenDistinct | app/src/main/java/com/example/crashcourse/viewmodel/BulkRegistrationViewModel.kt:255-289 | when no two results share an ID, the re-run as written retries every Error entry itself |
| BulkRegistration.RerunCorrectedExample | app/src/main/java/com/example/crashcourse/viewmodel/BulkRegistrationViewModel.kt:255-289 | corrected, the example's Error entry is the one retried and the Registered entry stays |
| BulkRegistration.BulkRegistrationViewModel.constructor | app/src/main/java/com/example/crashcourse/viewmodel/BulkRegistrationViewModel.kt:20-24 | a default state, no photo sources and an empty cache |
| BulkRegistration.BulkRegistrationViewModel.PrepareProcessing | app/src/main/java/com/example/crashcourse/viewmodel/BulkRegistrationViewModel.kt:26-50 | the cache is the parsed students keyed by ID and the photo sources theirs; the estimate line is set, or "Time estimate unavailable"; the cache stays keyed by ID |
| BulkRegistration.BulkRegistrationViewModel.ResetState | app/src/main/java/com/example/crashcourse/viewmodel/BulkRegistrationViewModel.kt:232-234 | the state is the default one again; the cache survives |
| BulkRegistration.BulkRegistrationViewModel.PublishRowStart | app/src/main/java/com/example/crashcourse/viewmodel/BulkRegistrationViewModel.kt:79-85 | before a row: its progress, its status, its photo type and an empty size are published |
| BulkRegistration.BulkRegistrationViewModel.PublishPhotoSize | app/src/main/java/com/example/crashcourse/viewmodel/BulkRegistrationViewModel.kt:95-97 | after a returning row: its formatted photo size is published, the progress unchanged |
| BulkRegistration.BulkRegistrationViewModel.ProcessRow | app/src/main/java/com/example/crashcourse/viewmodel/BulkRegistrationViewModel.kt:78-108 | a row returns its result; it publishes its progress first, and a second state when its processing returned |
| BulkRegistration.BulkRegistrationViewModel.ProcessRows | app/src/main/java/com/example/crashcourse/viewmodel/BulkRegistrationViewModel.kt:71-109 | the results are the rows' results in order, with the three counters equal to the three buckets over them; progress is published before every row |
| BulkRegistration.BulkRegistrationViewModel.ProcessCsvFile | app/src/main/java/com/example/crashcourse/viewmodel/BulkRegistrationViewModel.kt:52-127 | "Parsing CSV file..." first; then the failure state, the no-students state, or a fresh state with the results and their counts, after the per-row progress |
| BulkRegistration.BulkRegistrationViewModel.RetryFailed | app/src/main/java/com/example/crashcourse/viewmodel/BulkRegistrationViewModel.kt:255-289 | one pass of the re-run loop gives exactly the re-run step for that ID |
| BulkRegistration.BulkRegistrationViewModel.RerunFailed | app/src/main/java/com/example/crashcourse/viewmodel/BulkRegistrationViewModel.kt:237-310 | nothing happens while processing or without Error entries; otherwise "Re-running N failed rows..." is published, then the patched list with its counts recomputed over the whole list; the cache stays |

## Left out

- Coroutines, `viewModelScope.launch` and the threading of the state flow are left out. Each operation runs to completion in one step.
- Progress is kept exactly as `Fraction(index + 1, total)` instead of a `Float`, because floating-point rounding is not modelled.
- The megabyte branch of `formatFileSize` is a parameter, because it prints through the locale-dependent `String.format("%.1f MB", ...)`.
- `lowercase()` is modelled for ASCII letters only. Unicode case mapping is not modelled.
- `cosineDistance` is a parameter of the two-argument `processStudent`, because the embedding arithmetic is floating point and lives outside the core.
- Several external calls are inputs: `CsvImportUtils.parseCsvFile`, `BulkPhotoProcessor.processPhotoSource`, `estimateProcessingTime`, `getPhotoSourceType`, `BitmapFactory.decodeFile`, `processBitmapForFaceEmbedding`, `saveFacePhoto` and `registerFace`. Their code is not part of this model.
- `System.currentTimeMillis()` is a parameter. Database persistence, and the conflict strategy of `FaceDao.insert`, are not modelled: the registry is a sequence that `Insert` appends to.
- `registerFace` is modelled as invoking its callbacks before it returns. If it invokes them later, the status of the three-argument `processStudent` would already be fixed.
- The `catch` around one data line (app/src/main/java/com/example/crashcourse/utils/ExcelImportUtils.kt:144-146) is left out, because nothing inside it can throw in the model.
- The outer `catch` of `rerunFailed` (app/src/main/java/com/example/crashcourse/viewmodel/BulkRegistrationViewModel.kt:303-307) is left out, because the model's re-run loop cannot throw.
- In `BulkRegistrationViewModel.processCsvFile`, `getPhotoSourceType` is taken not to throw. If it did, the row would fail before its progress was published.
- Resolver exceptions raised before the file-type check are modelled with the read outcome: a read failure is taken to happen only after the type check.
- `readLines()` is modelled as splitting on '\n': carriage returns stay in the line, and `SampleTemplate` ends without a line break.
- `ExcelImageProcessScreen` (the UI that calls the core) is not part of this model.
- `CsvImport.CsvFields`: its own contract says only that a line has at least one field. What the fields are is stated by `ParseCsvLine`, `CsvFieldsQuoteFree`, `QuotedField` and `EscapedQuoteField`.
- `Register.CallbackOutcome`: its contract keeps the ID and name only. Its meaning is stated by `CallbackOutcomeMeaning`.

## Findings

| source | as written | input that shows it | evidently intended | confidence | as-written member | corrected member |
|---|---|---|---|---|---|---|
| app/src/main/java/com/example/crashcourse/viewmodel/RegisterViewModel.kt:36-40 (also app/src/main/java/com/example/crashcourse/viewmodel/BulkRegistrationViewModel.kt:35-39) | `seconds > 120` sends exactly 120 s to the "1 minute" branch, which prints "1 minute 0 seconds" | an estimate of 120 s | "2 minutes": every estimate at most a minute short of the true time | not executed | Processing.EstimateAt120 | Processing.EstimateShapeCorrected |
| app/src/main/java/com/example/crashcourse/utils/ExcelImportUtils.kt:208 | the teacher row has five commas after the name, so it has seven cells: "Teacher" lands in the Program column and the role defaults to "Student" | the sample template imported back | eight cells, with "Teacher" in the Role column | not executed | CsvTemplate.ImportTemplateAsWritten | CsvTemplate.ImportTemplateCorrected |
| app/src/main/java/com/example/crashcourse/viewmodel/BulkRegistrationViewModel.kt:258-286 | the re-run patches the FIRST entry holding a failed ID, which can be a non-Error entry with the same ID; the Error entry is left as it was | results [S1 Registered, S1 Error] and a retry that fails | retry and patch the failed entry itself, leaving every non-Error entry unchanged | not executed | BulkRegistration.RerunPatchesFirstPosition | BulkRegistration.RerunCorrectedPatchesErrors |
