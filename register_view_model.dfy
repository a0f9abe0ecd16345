/**
 * `RegisterViewModel`: the face registry, the registry-backed duplicate
 * rules of the two-argument `processStudent`, the callback-driven status of
 * the three-argument `processStudent`, and the batch loop of
 * `processCsvFile` with the state it publishes.
 */
module Register {
  import opened Wrappers
  import opened Text
  import opened Processing
  import opened StudentChain

  /** A stored face, as `faceDao.insert` receives it. */
  datatype FaceEntity = FaceEntity(
    studentId: string,
    name: string,
    photoUrl: string,
    embedding: Embedding,
    className: string,
    subClass: string,
    grade: string,
    subGrade: string,
    program: string,
    role: string,
    timestamp: int)

  /** No two stored faces share a student ID. */
  predicate UniqueIds(faces: seq<FaceEntity>) {
    forall i, j :: 0 <= i < j < |faces| ==> faces[i].studentId != faces[j].studentId
  }

  /** Where the face with student ID `id` is stored, if one is. */
  function IndexOfId(faces: seq<FaceEntity>, id: string): (r: Option<nat>)
    ensures r.Some? ==> r.value < |faces| && faces[r.value].studentId == id
    ensures r.None? <==> forall k :: 0 <= k < |faces| ==> faces[k].studentId != id
  {
    if faces == [] then None
    else if faces[|faces| - 1].studentId == id then Some(|faces| - 1)
    else IndexOfId(faces[..|faces| - 1], id)
  }

  /** The face registry behind `AppDatabase.faceDao()`. */
  class FaceDao {
    var faces: seq<FaceEntity>

    constructor()
      ensures faces == []
    {
      faces := [];
    }

    /** `getFaceByStudentId`: the stored face with this student ID, or null. */
    function FaceByStudentId(id: string): (f: Option<FaceEntity>)
      reads this
      ensures f.Some? <==> exists k :: 0 <= k < |faces| && faces[k].studentId == id
      ensures f.Some? ==> f.value in faces && f.value.studentId == id
    {
      match IndexOfId(faces, id)
      case Some(k) => Some(faces[k])
      case None => None
    }

    /** `insert`: the new face is stored after the others. */
    method Insert(face: FaceEntity)
      modifies this
      ensures faces == old(faces) + [face]
    {
      faces := faces + [face];
    }
  }

  /** `0.3f`, the duplicate threshold, as the exact value of the single-precision constant. */
  const DuplicateThreshold: real := 0.300000011920928955078125

  /** Distance between a stored embedding and a new one (`cosineDistance(stored, new)`). */
  type Distance = (Embedding, Embedding) -> real

  /**
   * The first stored face, from position `i` on, whose distance to `e` is
   * within the threshold (inclusive).
   */
  function FirstMatchFrom(faces: seq<FaceEntity>, e: Embedding, dist: Distance, i: nat): (r: Option<nat>)
    requires i <= |faces|
    ensures r.Some? ==> i <= r.value < |faces| && dist(faces[r.value].embedding, e) <= DuplicateThreshold
    ensures r.Some? ==> forall k :: i <= k < r.value ==> dist(faces[k].embedding, e) > DuplicateThreshold
    ensures r.None? <==> forall k :: i <= k < |faces| ==> dist(faces[k].embedding, e) > DuplicateThreshold
    decreases |faces| - i
  {
    if i == |faces| then None
    else if dist(faces[i].embedding, e) <= DuplicateThreshold then Some(i)
    else FirstMatchFrom(faces, e, dist, i + 1)
  }

  const IdTakenStatus := "Duplicate (ID already exists)"

  function MatchedStatus(name: string): string {
    "Duplicate (Matched " + name + ")"
  }

  /** The face the two-argument `processStudent` stores for a new student. */
  function NewEntity(s: CsvStudent, e: Embedding, path: string, now: int): FaceEntity {
    FaceEntity(s.studentId, s.name, path, e, s.className, s.subClass, s.grade, s.subGrade, s.program, s.role, now)
  }

  /** How the two-argument `processStudent` ends for a student, given the stored faces. */
  datatype Decision = Halt(error: string) | IdTaken | Matched(at: nat) | Insert(embedding: Embedding, photoPath: string)

  function Decide(faces: seq<FaceEntity>, s: CsvStudent, o: FrontOracle, dist: Distance): Decision {
    match FrontSteps(o)
    case Halted(e) => Halt(e)
    case Ready(e, path) =>
      if IndexOfId(faces, s.studentId).Some? then IdTaken
      else match FirstMatchFrom(faces, e, dist, 0)
        case Some(k) => Matched(k)
        case None => Insert(e, path)
  }

  /** The row's outcome for a decision. */
  function DecisionResult(faces: seq<FaceEntity>, s: CsvStudent, o: FrontOracle, d: Decision): ProcessResult
    requires d.Matched? ==> d.at < |faces|
  {
    match d
    case Halt(e) => HaltedResult(s, e, o.photo)
    case IdTaken => ProcessResult(s.studentId, s.name, IdTakenStatus, None, o.photo.originalSize)
    case Matched(k) => ProcessResult(s.studentId, s.name, MatchedStatus(faces[k].name), None, o.photo.originalSize)
    case Insert(_, _) => ProcessResult(s.studentId, s.name, RegisteredStatus, None, o.photo.processedSize)
  }

  /** The registry after a decision: only an insertion changes it. */
  function FacesAfter(faces: seq<FaceEntity>, s: CsvStudent, d: Decision, now: int): seq<FaceEntity> {
    match d
    case Insert(e, path) => faces + [NewEntity(s, e, path, now)]
    case _ => faces
  }

  lemma DecideMatchInRange(faces: seq<FaceEntity>, s: CsvStudent, o: FrontOracle, dist: Distance)
    ensures Decide(faces, s, o, dist).Matched? ==> Decide(faces, s, o, dist).at < |faces|
  {
  }

  /**
   * An ID already stored decides the row before any distance is looked at:
   * the status is "Duplicate (ID already exists)" with the original size,
   * nothing is stored, and the distance function makes no difference.
   */
  lemma IdCollisionFirst(faces: seq<FaceEntity>, s: CsvStudent, o: FrontOracle, dist: Distance, other: Distance, now: int)
    requires FrontSteps(o).Ready?
    requires exists k :: 0 <= k < |faces| && faces[k].studentId == s.studentId
    ensures Decide(faces, s, o, dist) == Decide(faces, s, o, other) == IdTaken
    ensures DecisionResult(faces, s, o, IdTaken) == ProcessResult(s.studentId, s.name, IdTakenStatus, None, o.photo.originalSize)
    ensures FacesAfter(faces, s, IdTaken, now) == faces
  {
  }

  /**
   * Without an ID collision, the first stored face within the threshold
   * (distance equal to the threshold included) names the duplicate, and
   * nothing is stored.
   */
  lemma FirstMatchNamesDuplicate(faces: seq<FaceEntity>, s: CsvStudent, o: FrontOracle, dist: Distance, j: nat, now: int)
    requires FrontSteps(o).Ready?
    requires forall k :: 0 <= k < |faces| ==> faces[k].studentId != s.studentId
    requires j < |faces| && dist(faces[j].embedding, o.face.value) <= DuplicateThreshold
    requires forall k :: 0 <= k < j ==> dist(faces[k].embedding, o.face.value) > DuplicateThreshold
    ensures Decide(faces, s, o, dist) == Matched(j)
    ensures DecisionResult(faces, s, o, Matched(j)).status == MatchedStatus(faces[j].name)
    ensures FacesAfter(faces, s, Matched(j), now) == faces
  {
  }

  /** The registry grows, by exactly the new student's face, only when neither duplicate rule fires. */
  lemma InsertOnlyWhenNew(faces: seq<FaceEntity>, s: CsvStudent, o: FrontOracle, dist: Distance, now: int)
    ensures var d := Decide(faces, s, o, dist);
      && (FacesAfter(faces, s, d, now) != faces <==>
            && FrontSteps(o).Ready?
            && (forall k :: 0 <= k < |faces| ==> faces[k].studentId != s.studentId)
            && (forall k :: 0 <= k < |faces| ==> dist(faces[k].embedding, o.face.value) > DuplicateThreshold))
      && (FacesAfter(faces, s, d, now) != faces ==>
            FacesAfter(faces, s, d, now) == faces + [NewEntity(s, o.face.value, o.savedPath.value, now)])
  {
    var d := Decide(faces, s, o, dist);
    if d.Insert? {
      assert |FacesAfter(faces, s, d, now)| == |faces| + 1;
    }
  }

  /** Stored student IDs stay unique. */
  lemma UniqueIdsPreserved(faces: seq<FaceEntity>, s: CsvStudent, o: FrontOracle, dist: Distance, now: int)
    requires UniqueIds(faces)
    ensures UniqueIds(FacesAfter(faces, s, Decide(faces, s, o, dist), now))
  {
    var d := Decide(faces, s, o, dist);
    if d.Insert? {
      var after := FacesAfter(faces, s, d, now);
      forall i, j | 0 <= i < j < |after| ensures after[i].studentId != after[j].studentId {
        if j == |faces| {
          assert after[i] == faces[i];
        } else {
          assert after[i] == faces[i] && after[j] == faces[j];
        }
      }
    }
  }

  /**
   * A student registered once is a duplicate by ID the next time a row with
   * the same ID gets through the front steps, and that row stores nothing.
   */
  lemma SecondRegistrationIsDuplicate(faces: seq<FaceEntity>, s: CsvStudent, o: FrontOracle, again: CsvStudent, o2: FrontOracle, dist: Distance, now: int, later: int)
    requires Decide(faces, s, o, dist).Insert?
    requires again.studentId == s.studentId && FrontSteps(o2).Ready?
    ensures var after := FacesAfter(faces, s, Decide(faces, s, o, dist), now);
      && Decide(after, again, o2, dist) == IdTaken
      && FacesAfter(after, again, Decide(after, again, o2, dist), later) == after
  {
    var after := FacesAfter(faces, s, Decide(faces, s, o, dist), now);
    assert after[|faces|].studentId == again.studentId;
  }

  /** The failures of the four front steps leave the registry as it was and report the original size. */
  lemma FrontFailureStoresNothing(faces: seq<FaceEntity>, s: CsvStudent, o: FrontOracle, dist: Distance, now: int)
    requires FrontSteps(o).Halted?
    ensures var d := Decide(faces, s, o, dist);
      && FacesAfter(faces, s, d, now) == faces
      && DecisionResult(faces, s, o, d) == ProcessResult(s.studentId, s.name, ErrorStatus, Some(FrontSteps(o).error), o.photo.originalSize)
  {
  }

  // ----- The three-argument processStudent: status set by callbacks -----

  /** The status after one callback. */
  function AfterCallback(c: Callback): string {
    match c
    case OnSuccess => RegisteredStatus
    case OnDuplicate(existing) => "Duplicate (" + existing + ")"
  }

  /** `status` after `registerFace` has invoked the callbacks `cs`, in order. */
  function RunCallbacks(status: string, cs: seq<Callback>): string
    decreases |cs|
  {
    if cs == [] then status else RunCallbacks(AfterCallback(cs[0]), cs[1..])
  }

  /** The last callback decides the status; with none it stays as it started. */
  lemma {:induction false} LastCallbackWins(status: string, cs: seq<Callback>)
    ensures cs == [] ==> RunCallbacks(status, cs) == status
    ensures cs != [] ==> RunCallbacks(status, cs) == AfterCallback(cs[|cs| - 1])
    decreases |cs|
  {
    if |cs| > 1 {
      LastCallbackWins(AfterCallback(cs[0]), cs[1..]);
      assert cs[1..][|cs[1..]| - 1] == cs[|cs| - 1];
    }
  }

  /** The three-argument `processStudent`. */
  function CallbackOutcome(s: CsvStudent, o: FrontOracle, register: RegisterCall): (r: ProcessResult)
    ensures r.studentId == s.studentId && r.name == s.name
  {
    match FrontSteps(o)
    case Halted(e) => HaltedResult(s, e, o.photo)
    case Ready(_, _) =>
      match register
      case Returned(cs) => ProcessResult(s.studentId, s.name, RunCallbacks(RegisteredStatus, cs), None, o.photo.processedSize)
      case Threw(m) => ProcessResult(s.studentId, s.name, ErrorStatus, Some(m.GetOr(RegistrationFailed)), o.photo.originalSize)
  }

  /**
   * Once the four steps succeed, a `registerFace` that returns leaves
   * "Registered" unless its last callback reported a duplicate, and the
   * size is always the processed one; one that throws is an error with
   * its message or "Registration failed".
   */
  lemma CallbackOutcomeMeaning(s: CsvStudent, o: FrontOracle, register: RegisterCall)
    requires FrontSteps(o).Ready?
    ensures var r := CallbackOutcome(s, o, register);
      && (register.Returned? ==> r.photoSize == o.photo.processedSize && r.error == None)
      && (register.Returned? && register.callbacks != [] && register.callbacks[|register.callbacks| - 1].OnDuplicate? ==>
            r.status == "Duplicate (" + register.callbacks[|register.callbacks| - 1].existing + ")")
      && (register.Returned? && (register.callbacks == [] || register.callbacks[|register.callbacks| - 1].OnSuccess?) ==>
            r.status == RegisteredStatus)
      && (register.Threw? ==>
            && r.status == ErrorStatus && r.error == Some(register.message.GetOr(RegistrationFailed))
            && r.photoSize == o.photo.originalSize)
  {
    if register.Returned? {
      LastCallbackWins(RegisteredStatus, register.callbacks);
    }
  }

  /** What one row of `processCsvFile` yields: the exception's message if `processStudent` threw. */
  function RowResult(s: CsvStudent, env: RowEnv): (r: ProcessResult)
    ensures r.studentId == s.studentId && r.name == s.name
    ensures env.Throws? ==> r.status == ErrorStatus && r.error == Some(env.message.GetOr("Unknown error"))
    ensures env.Completes? ==> r == CallbackOutcome(s, env.front, env.register)
  {
    match env
    case Throws(m) => ProcessResult(s.studentId, s.name, ErrorStatus, Some(m.GetOr("Unknown error")), 0)
    case Completes(o, register) => CallbackOutcome(s, o, register)
  }

  /** The results of the first `n` rows, in order. */
  function RowResults(students: seq<CsvStudent>, env: nat -> RowEnv, n: nat): (rs: seq<ProcessResult>)
    requires n <= |students|
    ensures |rs| == n
  {
    if n == 0 then [] else RowResults(students, env, n - 1) + [RowResult(students[n - 1], env(n - 1))]
  }

  /** Result k is row k's, for the student in position k. */
  lemma {:induction false} RowResultsInOrder(students: seq<CsvStudent>, env: nat -> RowEnv, n: nat, k: nat)
    requires k < n <= |students|
    ensures RowResults(students, env, n)[k] == RowResult(students[k], env(k))
    ensures RowResults(students, env, n)[k].studentId == students[k].studentId
  {
    if k < n - 1 {
      RowResultsInOrder(students, env, n - 1, k);
    }
  }

  /** The progress values a run publishes: (i+1)/total for each row i < n whose processing did not throw. */
  function CompletedProgress(env: nat -> RowEnv, total: int, n: nat): seq<Fraction> {
    if n == 0 then []
    else CompletedProgress(env, total, n - 1) + (if env(n - 1).Completes? then [Fraction(n, total)] else [])
  }

  /**
   * A row's progress (i+1)/total is published exactly when its processing
   * did not throw, and nothing but these values is published.
   */
  lemma {:induction false} CompletedProgressRows(env: nat -> RowEnv, total: int, n: nat)
    ensures |CompletedProgress(env, total, n)| <= n
    ensures forall i :: 0 <= i < n ==> (Fraction(i + 1, total) in CompletedProgress(env, total, n) <==> env(i).Completes?)
    ensures forall x :: x in CompletedProgress(env, total, n) ==> x.den == total && 1 <= x.num <= n
  {
    if n > 0 {
      CompletedProgressRows(env, total, n - 1);
      var front := CompletedProgress(env, total, n - 1);
      var tail := if env(n - 1).Completes? then [Fraction(n, total)] else [];
      assert CompletedProgress(env, total, n) == front + tail;
      forall i | 0 <= i < n ensures Fraction(i + 1, total) in front + tail <==> env(i).Completes? {
        if i < n - 1 {
          assert Fraction(i + 1, total) !in tail;
        }
      }
    }
  }

  /** The counts of a finished run: one result per student, every result counted once. */
  lemma FinishedCounts(students: seq<CsvStudent>, env: nat -> RowEnv)
    ensures var st := FinishedState(RowResults(students, env, |students|));
      && |st.results| == |students|
      && st.successCount + st.duplicateCount + st.errorCount == |students|
  {
    BucketsPartition(RowResults(students, env, |students|));
  }

  class RegisterViewModel {
    var state: ProcessingState
    var photoSources: seq<string>
    /** Every value the state flow has held, oldest first. */
    ghost var published: seq<ProcessingState>

    constructor()
      ensures state == InitialState && photoSources == [] && published == [InitialState]
    {
      state := InitialState;
      photoSources := [];
      published := [InitialState];
    }

    /** Sets the state and records the value published. */
    method Publish(st: ProcessingState)
      modifies this
      ensures state == st && published == old(published) + [st] && photoSources == old(photoSources)
    {
      state := st;
      published := published + [st];
    }

    /**
     * `prepareProcessing`: the estimate text for the parsed students, or
     * "Time estimate unavailable" when parsing or estimating throws
     * (`seconds` is None when `estimateProcessingTime` threw).
     */
    method PrepareProcessing(parse: CsvParse, seconds: Option<int>)
      modifies this
      ensures parse.Parsed? ==> photoSources == PhotoUrls(parse.students)
      ensures parse.ParseThrew? ==> photoSources == old(photoSources)
      ensures state == old(state).(estimatedTime := EstimateLine(if parse.Parsed? then seconds else None))
      ensures published == old(published) + [state]
    {
      match parse {
        case ParseThrew(_) =>
          Publish(state.(estimatedTime := EstimateLine(None)));
        case Parsed(students, _) =>
          photoSources := PhotoUrls(students);
          Publish(state.(estimatedTime := EstimateLine(seconds)));
      }
    }

    /** `resetState`. */
    method ResetState()
      modifies this
      ensures state == InitialState && photoSources == old(photoSources)
      ensures published == old(published) + [InitialState]
    {
      Publish(InitialState);
    }

    /** The three-argument `processStudent`, with the callbacks `registerFace` invoked applied in order. */
    method ProcessStudentWithCallbacks(s: CsvStudent, o: FrontOracle, register: RegisterCall) returns (r: ProcessResult)
      ensures r == CallbackOutcome(s, o, register)
    {
      match FrontSteps(o) {
        case Halted(e) =>
          return HaltedResult(s, e, o.photo);
        case Ready(_, _) =>
      }
      match register {
        case Threw(m) =>
          return ProcessResult(s.studentId, s.name, ErrorStatus, Some(m.GetOr(RegistrationFailed)), o.photo.originalSize);
        case Returned(cs) =>
          var status := RegisteredStatus;
          for i := 0 to |cs|
            invariant RunCallbacks(status, cs[i..]) == RunCallbacks(RegisteredStatus, cs)
          {
            assert cs[i..][1..] == cs[i + 1..];
            status := AfterCallback(cs[i]);
          }
          assert cs[|cs|..] == [];
          return ProcessResult(s.studentId, s.name, status, None, o.photo.processedSize);
      }
    }

    /**
     * The two-argument `processStudent`: the four front steps, then the ID
     * check, then a scan of the stored faces for the first one within the
     * threshold, and only then an insertion.
     */
    method ProcessStudent(dao: FaceDao, s: CsvStudent, o: FrontOracle, dist: Distance, now: int) returns (r: ProcessResult)
      modifies dao
      ensures var d := Decide(old(dao.faces), s, o, dist);
        && (d.Matched? ==> d.at < |old(dao.faces)|)
        && r == DecisionResult(old(dao.faces), s, o, d)
        && dao.faces == FacesAfter(old(dao.faces), s, d, now)
    {
      DecideMatchInRange(dao.faces, s, o, dist);
      var e, path;
      match FrontSteps(o) {
        case Halted(msg) =>
          return HaltedResult(s, msg, o.photo);
        case Ready(emb, p) =>
          e, path := emb, p;
      }
      var existing := dao.FaceByStudentId(s.studentId);
      if existing.Some? {
        return ProcessResult(s.studentId, s.name, IdTakenStatus, None, o.photo.originalSize);
      }
      var allFaces := dao.faces;
      var i := 0;
      while i < |allFaces|
        invariant 0 <= i <= |allFaces| && allFaces == dao.faces
        invariant FirstMatchFrom(allFaces, e, dist, i) == FirstMatchFrom(allFaces, e, dist, 0)
      {
        if dist(allFaces[i].embedding, e) <= DuplicateThreshold {
          return ProcessResult(s.studentId, s.name, MatchedStatus(allFaces[i].name), None, o.photo.originalSize);
        }
        i := i + 1;
      }
      dao.Insert(NewEntity(s, e, path, now));
      return ProcessResult(s.studentId, s.name, RegisteredStatus, None, o.photo.processedSize);
    }

    /**
     * One row of the loop: its result, then its progress and status if its
     * processing returned; a row whose processing threw publishes nothing.
     */
    method ProcessRow(ghost base: nat, index: nat, total: nat, s: CsvStudent, e: RowEnv) returns (result: ProcessResult)
      requires base <= |published|
      modifies this
      ensures result == RowResult(s, e)
      ensures photoSources == old(photoSources)
      ensures |published| >= |old(published)| && published[..|old(published)|] == old(published)
      ensures Progresses(published[base..])
        == Progresses(old(published)[base..]) + (if e.Completes? then [Fraction(index + 1, total)] else [])
    {
      match e {
        case Throws(m) =>
          result := ProcessResult(s.studentId, s.name, ErrorStatus, Some(m.GetOr("Unknown error")), 0);
        case Completes(o, register) =>
          result := ProcessStudentWithCallbacks(s, o, register);
          PublishProgress(base, index, total, s.name);
      }
    }

    /**
     * The row loop of `processCsvFile`: each row's result is appended and
     * counted in its bucket; a row whose processing returned publishes its
     * progress and status, a row whose processing threw publishes nothing.
     */
    method ProcessRows(students: seq<CsvStudent>, env: nat -> RowEnv) returns (results: seq<ProcessResult>, successCount: int, duplicateCount: int, errorCount: int)
      modifies this
      ensures results == RowResults(students, env, |students|)
      ensures successCount == CountIn(results, RegisteredBucket) && duplicateCount == CountIn(results, DuplicateBucket)
      ensures errorCount == CountIn(results, ErrorBucket)
      ensures photoSources == old(photoSources)
      ensures |published| >= |old(published)| && published[..|old(published)|] == old(published)
      ensures Progresses(published[|old(published)|..]) == CompletedProgress(env, |students|, |students|)
    {
      var base := |published|;
      results := [];
      successCount, duplicateCount, errorCount := 0, 0, 0;
      var total := |students|;
      for index := 0 to total
        invariant results == RowResults(students, env, index)
        invariant successCount == CountIn(results, RegisteredBucket)
        invariant duplicateCount == CountIn(results, DuplicateBucket)
        invariant errorCount == CountIn(results, ErrorBucket)
        invariant |published| >= base && published[..base] == old(published)
        invariant Progresses(published[base..]) == CompletedProgress(env, total, index)
        invariant photoSources == old(photoSources)
      {
        var student := students[index];
        ghost var before := published;
        var result := ProcessRow(base, index, total, student, env(index));
        CountInSnoc(results, result);
        match BucketOf(result.status) {
          case RegisteredBucket => successCount := successCount + 1;
          case DuplicateBucket => duplicateCount := duplicateCount + 1;
          case ErrorBucket => errorCount := errorCount + 1;
        }
        results := results + [result];
        assert published[..base] == before[..base];
      }
    }

    /** Publishes the progress and status after row `index` of `total`. */
    method PublishProgress(ghost base: nat, index: nat, total: nat, name: string)
      requires base <= |published|
      modifies this
      ensures photoSources == old(photoSources)
      ensures state == old(state).(progress := Fraction(index + 1, total), status := ProcessingStatus(index, total, name))
      ensures published == old(published) + [state]
      ensures Progresses(published[base..]) == Progresses(old(published)[base..]) + [Fraction(index + 1, total)]
    {
      ghost var before := published;
      Publish(state.(progress := Fraction(index + 1, total), status := ProcessingStatus(index, total, name)));
      assert published[base..] == before[base..] + [state];
      ProgressesSnoc(before[base..], state);
    }

    /**
     * `processCsvFile`: parse, then one row at a time; progress is published
     * after each row whose processing returned; the run ends in a fresh
     * state holding the results and the counts.
     */
    method ProcessCsvFile(parse: CsvParse, env: nat -> RowEnv)
      modifies this
      ensures photoSources == old(photoSources)
      ensures var parsing := ProcessingState(true, Fraction(0, 1), "Parsing CSV file...", old(state).estimatedTime, [], 0, 0, 0, "", "");
        && |published| >= |old(published)| + 2
        && published[..|old(published)| + 1] == old(published) + [parsing]
        && published[|published| - 1] == state
        && (parse.ParseThrew? ==>
              state == ProcessingState(false, Fraction(0, 1), "Processing failed: " + MessageText(parse.message), "", [], 0, 0, 1, "", "")
              && |published| == |old(published)| + 2)
        && (parse.Parsed? && parse.students == [] ==>
              state == parsing.(isProcessing := false, status := "No valid students found in CSV", errorCount := |parse.errors|)
              && |published| == |old(published)| + 2)
        && (parse.Parsed? && parse.students != [] ==>
              state == FinishedState(RowResults(parse.students, env, |parse.students|))
              && Progresses(published[|old(published)| + 1..|published| - 1])
                 == CompletedProgress(env, |parse.students|, |parse.students|))
    {
      var parsing := ProcessingState(true, Fraction(0, 1), "Parsing CSV file...", state.estimatedTime, [], 0, 0, 0, "", "");
      Publish(parsing);
      var base := |published|;
      match parse {
        case ParseThrew(m) =>
          Publish(ProcessingState(false, Fraction(0, 1), "Processing failed: " + MessageText(m), "", [], 0, 0, 1, "", ""));
        case Parsed(students, errors) =>
          if students == [] {
            Publish(state.(isProcessing := false, status := "No valid students found in CSV", errorCount := |errors|));
            return;
          }
          var results, successCount, duplicateCount, errorCount := ProcessRows(students, env);
          ghost var before := published;
          Publish(ProcessingState(false, Fraction(0, 1), SuccessStatus(successCount), "", results,
                                  successCount, duplicateCount, errorCount, "", ""));
          assert published[base..|published| - 1] == before[base..];
      }
    }
  }
}
