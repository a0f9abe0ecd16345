/**
 * The records and shared helpers of the registration pipeline: the parsed
 * student row handed to the view models, the per-row outcome, the observable
 * processing state, the outcomes of the platform calls each row makes, and
 * the two text formatters both view models carry an identical copy of.
 */
module Processing {
  import opened Wrappers
  import opened Text

  /** A face embedding; its distance function is a parameter wherever it is used. */
  type Embedding = seq<real>

  /** One student row as the CSV reader of the view models delivers it. */
  datatype CsvStudent = CsvStudent(
    studentId: string,
    name: string,
    photoUrl: string,
    className: string,
    subClass: string,
    grade: string,
    subGrade: string,
    program: string,
    role: string)

  /** The terminal outcome of one row. `error` and `photoSize` default to null and 0. */
  datatype ProcessResult = ProcessResult(
    studentId: string,
    name: string,
    status: string,
    error: Option<string>,
    photoSize: int)

  const RegisteredStatus := "Registered"
  const ErrorStatus := "Error"
  const DuplicatePrefix := "Duplicate"

  /** What the photo resolver reports for one photo reference. */
  datatype PhotoResult = PhotoResult(
    success: bool,
    error: Option<string>,
    originalSize: int,
    processedSize: int)

  /**
   * The outcomes of the four platform calls at the head of every row: photo
   * resolution, decoding the resolved file, face detection with embedding,
   * and saving the face crop (`Some(path)` on success).
   */
  datatype FrontOracle = FrontOracle(
    photo: PhotoResult,
    decodes: bool,
    face: Option<Embedding>,
    savedPath: Option<string>)

  /** A callback that `registerFace` invokes before it returns. */
  datatype Callback = OnSuccess | OnDuplicate(existing: string)

  /** How a call of `registerFace` ends: it returns after some callbacks, or it throws. */
  datatype RegisterCall = Returned(callbacks: seq<Callback>) | Threw(message: Option<string>)

  /**
   * Everything one row's processing meets: either the calls run and end as
   * described, or an exception escapes `processStudent` itself.
   */
  datatype RowEnv = Completes(front: FrontOracle, register: RegisterCall) | Throws(message: Option<string>)

  /** What the external `CsvImportUtils.parseCsvFile` yields. */
  datatype CsvParse = Parsed(students: seq<CsvStudent>, errors: seq<string>) | ParseThrew(message: Option<string>)

  /** The progress value (num / den), kept exact instead of as a Float. */
  datatype Fraction = Fraction(num: int, den: int)

  /** The observable state both view models publish. */
  datatype ProcessingState = ProcessingState(
    isProcessing: bool,
    progress: Fraction,
    status: string,
    estimatedTime: string,
    results: seq<ProcessResult>,
    successCount: int,
    duplicateCount: int,
    errorCount: int,
    currentPhotoType: string,
    currentPhotoSize: string)

  /** `ProcessingState()`: every field at its default. */
  const InitialState := ProcessingState(false, Fraction(0, 1), "", "", [], 0, 0, 0, "", "")

  /** Kotlin prints `${e.message}` of a message-less exception as "null". */
  function MessageText(message: Option<string>): string {
    message.GetOr("null")
  }

  // ----- Classifying and counting outcomes -----

  /** The `when` the batch loops use: "Registered", starts with "Duplicate", anything else. */
  datatype Bucket = RegisteredBucket | DuplicateBucket | ErrorBucket

  function BucketOf(status: string): Bucket {
    if status == RegisteredStatus then RegisteredBucket
    else if StartsWith(status, DuplicatePrefix) then DuplicateBucket
    else ErrorBucket
  }

  /** The status strings the pipeline produces. */
  predicate KnownStatus(status: string) {
    status == RegisteredStatus || StartsWith(status, DuplicatePrefix) || status == ErrorStatus
  }

  predicate AllKnown(rs: seq<ProcessResult>) {
    forall k :: 0 <= k < |rs| ==> KnownStatus(rs[k].status)
  }

  /** How many results fall into bucket `b`. */
  function CountIn(rs: seq<ProcessResult>, b: Bucket): nat {
    if rs == [] then 0
    else CountIn(rs[..|rs| - 1], b) + (if BucketOf(rs[|rs| - 1].status) == b then 1 else 0)
  }

  /** `count { it.status == "Error" }`. */
  function CountExactError(rs: seq<ProcessResult>): nat {
    if rs == [] then 0
    else CountExactError(rs[..|rs| - 1]) + (if rs[|rs| - 1].status == ErrorStatus then 1 else 0)
  }

  /** Every result lands in exactly one bucket. */
  lemma {:induction false} BucketsPartition(rs: seq<ProcessResult>)
    ensures CountIn(rs, RegisteredBucket) + CountIn(rs, DuplicateBucket) + CountIn(rs, ErrorBucket) == |rs|
  {
    if rs != [] {
      BucketsPartition(rs[..|rs| - 1]);
    }
  }

  /** Over known statuses, "anything else" and "exactly Error" count the same results. */
  lemma {:induction false} ExactErrorIsErrorBucket(rs: seq<ProcessResult>)
    requires AllKnown(rs)
    ensures CountExactError(rs) == CountIn(rs, ErrorBucket)
  {
    if rs != [] {
      var last := rs[|rs| - 1].status;
      assert KnownStatus(last);
      assert last == ErrorStatus ==> !StartsWith(last, DuplicatePrefix);
      ExactErrorIsErrorBucket(rs[..|rs| - 1]);
    }
  }

  /** Counting distributes over concatenation. */
  lemma {:induction false} CountInAppend(a: seq<ProcessResult>, b: seq<ProcessResult>, bucket: Bucket)
    ensures CountIn(a + b, bucket) == CountIn(a, bucket) + CountIn(b, bucket)
  {
    if b != [] {
      assert (a + b)[..|a + b| - 1] == a + b[..|b| - 1];
      CountInAppend(a, b[..|b| - 1], bucket);
    } else {
      assert a + b == a;
    }
  }

  // ----- formatFileSize -----

  const KiB := 1024
  const MiB := 1024 * 1024

  /**
   * `formatFileSize`. The megabyte branch prints through the locale-dependent
   * `String.format("%.1f MB", ...)`; `formatMegabytes` stands for that number.
   */
  function FormatFileSize(size: int, formatMegabytes: int -> string): string {
    if size == 0 then "0 KB"
    else if size < KiB then IntToString(size) + " B"
    else if size < MiB then IntToString(size / KiB) + " KB"
    else formatMegabytes(size) + " MB"
  }

  /**
   * What the printed size means: a positive size under 1 KiB is printed
   * exactly in bytes; a size under 1 MiB is printed as its whole number of
   * KiB, rounded down; zero is "0 KB".
   */
  lemma FormatFileSizeMeaning(size: int, formatMegabytes: int -> string)
    requires 0 <= size < MiB
    ensures var t := FormatFileSize(size, formatMegabytes);
      && |t| >= 3
      && (size == 0 ==> t == "0 KB")
      && (0 < size < KiB ==> t[|t| - 2..] == " B" && ParseDigits(t[..|t| - 2]) == size)
      && (KiB <= size ==>
            && t[|t| - 3..] == " KB"
            && ParseDigits(t[..|t| - 3]) * KiB <= size < (ParseDigits(t[..|t| - 3]) + 1) * KiB)
  {
    var t := FormatFileSize(size, formatMegabytes);
    if 0 < size < KiB {
      assert t[..|t| - 2] == NatToString(size);
      ParseNatToString(size);
    } else if KiB <= size {
      assert t[..|t| - 3] == NatToString(size / KiB);
      ParseNatToString(size / KiB);
    }
  }

  // ----- The time estimate of prepareProcessing -----

  /** The three shapes of the estimate text. */
  datatype EstimateShape = WholeMinutes(minutes: int) | OneMinuteAnd(seconds: int) | JustSeconds(seconds: int)

  /** The `when` over `seconds` in `prepareProcessing`, as written. */
  function EstimateShapeOf(seconds: int): EstimateShape {
    if seconds > 120 then WholeMinutes(seconds / 60)
    else if seconds > 60 then OneMinuteAnd(seconds % 60)
    else JustSeconds(seconds)
  }

  function RenderEstimate(e: EstimateShape): string {
    match e
    case WholeMinutes(m) => IntToString(m) + " minutes"
    case OneMinuteAnd(s) => "1 minute " + IntToString(s) + " seconds"
    case JustSeconds(s) => IntToString(s) + " seconds"
  }

  /** The estimate text, without the "Estimated time: " prefix. */
  function EstimateText(seconds: int): string {
    RenderEstimate(EstimateShapeOf(seconds))
  }

  /** The number of seconds an estimate text stands for. */
  function Denoted(e: EstimateShape): int {
    match e
    case WholeMinutes(m) => 60 * m
    case OneMinuteAnd(s) => 60 + s
    case JustSeconds(s) => s
  }

  /**
   * The estimate as written rounds down to less than a minute below the true
   * value, for every non-negative duration except exactly 120 seconds.
   */
  lemma EstimateWithinAMinute(seconds: int)
    requires seconds >= 0 && seconds != 120
    ensures seconds - 60 < Denoted(EstimateShapeOf(seconds)) <= seconds
  {
  }

  /** At exactly 120 seconds the text as written says "1 minute 0 seconds", i.e. 60 seconds. */
  lemma EstimateAt120()
    ensures EstimateText(120) == "1 minute 0 seconds"
    ensures Denoted(EstimateShapeOf(120)) == 60
  {
    assert NatToString(0) == "0";
  }

  /** The estimate with the middle branch ending below 120 seconds. */
  function EstimateShapeCorrected(seconds: int): (e: EstimateShape)
    ensures seconds >= 0 ==> seconds - 60 < Denoted(e) <= seconds
    ensures seconds != 120 ==> e == EstimateShapeOf(seconds)
  {
    if seconds >= 120 then WholeMinutes(seconds / 60)
    else if seconds > 60 then OneMinuteAnd(seconds % 60)
    else JustSeconds(seconds)
  }

  // ----- Shared by both view models -----

  /** The progress values of a sequence of published states. */
  function Progresses(log: seq<ProcessingState>): (ps: seq<Fraction>)
    ensures |ps| == |log|
  {
    if log == [] then [] else Progresses(log[..|log| - 1]) + [log[|log| - 1].progress]
  }

  lemma ProgressesSnoc(log: seq<ProcessingState>, st: ProcessingState)
    ensures Progresses(log + [st]) == Progresses(log) + [st.progress]
  {
    assert (log + [st])[..|log|] == log;
  }

  /** Counting one more result. */
  lemma CountInSnoc(rs: seq<ProcessResult>, r: ProcessResult)
    ensures forall b :: CountIn(rs + [r], b) == CountIn(rs, b) + (if BucketOf(r.status) == b then 1 else 0)
  {
    assert (rs + [r])[..|rs|] == rs;
  }

  function ProcessingStatus(i: nat, total: nat, name: string): string {
    "Processing " + NatToString(i + 1) + "/" + NatToString(total) + ": " + name
  }

  function SuccessStatus(successes: nat): string {
    "Processed " + NatToString(successes) + " students successfully"
  }

  /** The estimate line of `prepareProcessing`; a throwing estimate gives "Time estimate unavailable". */
  function EstimateLine(seconds: Option<int>): string {
    match seconds
    case Some(s) => "Estimated time: " + EstimateText(s)
    case None => "Time estimate unavailable"
  }

  /** The photo references of the parsed students. */
  function PhotoUrls(students: seq<CsvStudent>): (urls: seq<string>)
    ensures |urls| == |students| && forall k :: 0 <= k < |students| ==> urls[k] == students[k].photoUrl
  {
    seq(|students|, k requires 0 <= k < |students| => students[k].photoUrl)
  }

  /** The state a finished run publishes: a fresh state holding the results and their counts. */
  function FinishedState(rs: seq<ProcessResult>): ProcessingState {
    ProcessingState(false, Fraction(0, 1), SuccessStatus(CountIn(rs, RegisteredBucket)), "", rs,
      CountIn(rs, RegisteredBucket), CountIn(rs, DuplicateBucket), CountIn(rs, ErrorBucket), "", "")
  }
}
