/**
 * `processStudentAndRegister`: one student's photo is resolved, decoded,
 * searched for a face and cropped to disk, and the face is then handed to
 * `registerFace`. Each of the four steps ahead of registration can fail,
 * and the first failure ends the chain with its own message. The same four
 * steps open `processStudent` in both view models.
 */
module StudentChain {
  import opened Wrappers
  import opened Text
  import opened Processing

  /** How the four steps ahead of registration end. */
  datatype Front = Halted(error: string) | Ready(embedding: Embedding, photoPath: string)

  /** The messages of the four steps, in the order they are tried. */
  const PhotoFailed := "Photo processing failed"
  const DecodeFailed := "Failed to load processed photo"
  const NoFace := "No face detected"
  const SaveFailed := "Failed to save face photo"
  const RegistrationFailed := "Registration failed"

  /** Photo, decode, face, save: the first step that fails halts the chain. */
  function FrontSteps(o: FrontOracle): (f: Front)
    ensures f.Ready? <==> o.photo.success && o.decodes && o.face.Some? && o.savedPath.Some?
    ensures f.Ready? ==> f.embedding == o.face.value && f.photoPath == o.savedPath.value
  {
    if !o.photo.success then Halted(o.photo.error.GetOr(PhotoFailed))
    else if !o.decodes then Halted(DecodeFailed)
    else if o.face.None? then Halted(NoFace)
    else if o.savedPath.None? then Halted(SaveFailed)
    else Ready(o.face.value, o.savedPath.value)
  }

  /** One step of the chain: whether it succeeded, and the message it halts with if not. */
  datatype Check = Check(ok: bool, message: string)

  /** The four steps as checks, in order. */
  function Checks(o: FrontOracle): seq<Check> {
    [Check(o.photo.success, o.photo.error.GetOr(PhotoFailed)),
     Check(o.decodes, DecodeFailed),
     Check(o.face.Some?, NoFace),
     Check(o.savedPath.Some?, SaveFailed)]
  }

  /** The message of the first failing check, if any fails. */
  function FirstFailure(cs: seq<Check>): (r: Option<string>)
    ensures r.None? <==> forall i :: 0 <= i < |cs| ==> cs[i].ok
  {
    if cs == [] then None
    else if !cs[0].ok then Some(cs[0].message)
    else
      var r := FirstFailure(cs[1..]);
      assert forall i :: 1 <= i < |cs| ==> cs[i] == cs[1..][i - 1];
      r
  }

  /** Check `i` fails with message `m` and every check before it passes. */
  predicate FailsFirstAt(cs: seq<Check>, i: int, m: string) {
    0 <= i < |cs| && !cs[i].ok && cs[i].message == m && forall j :: 0 <= j < i ==> cs[j].ok
  }

  /** Behind a passing check, the first failure is the first failure of the rest, one place later. */
  lemma FailsFirstBehindPass(cs: seq<Check>, m: string)
    requires cs != [] && cs[0].ok
    ensures (exists i :: FailsFirstAt(cs, i, m)) <==> (exists i :: FailsFirstAt(cs[1..], i, m))
  {
    if exists i :: FailsFirstAt(cs, i, m) {
      var i :| FailsFirstAt(cs, i, m);
      assert cs[1..][i - 1] == cs[i];
      forall j | 0 <= j < i - 1 ensures cs[1..][j].ok {
        assert cs[1..][j] == cs[j + 1];
      }
      assert FailsFirstAt(cs[1..], i - 1, m);
    }
    if exists i :: FailsFirstAt(cs[1..], i, m) {
      var i :| FailsFirstAt(cs[1..], i, m);
      forall j | 0 <= j < i + 1 ensures cs[j].ok {
        if j > 0 { assert cs[j] == cs[1..][j - 1]; }
      }
      assert FailsFirstAt(cs, i + 1, m);
    }
  }

  /** The first failure is a failing check that only passing checks precede. */
  lemma {:induction false} FirstFailureIsFirst(cs: seq<Check>, m: string)
    ensures FirstFailure(cs) == Some(m) <==> exists i :: FailsFirstAt(cs, i, m)
  {
    if cs != [] {
      if cs[0].ok {
        FirstFailureIsFirst(cs[1..], m);
        FailsFirstBehindPass(cs, m);
      } else if exists i :: FailsFirstAt(cs, i, m) {
        var i :| FailsFirstAt(cs, i, m);
        assert i == 0;
      } else {
        assert !FailsFirstAt(cs, 0, m);
      }
    }
  }

  /**
   * The front of the chain halts exactly with the first failing step's
   * message, and goes on to registration exactly when all four steps succeed.
   */
  lemma FrontStepsFirstFailure(o: FrontOracle)
    ensures FrontSteps(o).Halted? <==> FirstFailure(Checks(o)).Some?
    ensures FrontSteps(o).Halted? ==> FirstFailure(Checks(o)) == Some(FrontSteps(o).error)
  {
    var cs := Checks(o);
    var c1 := cs[1..];
    var c2 := c1[1..];
    var c3 := c2[1..];
    assert c1[0] == cs[1] && c2[0] == cs[2] && c3 == [cs[3]] && c3[1..] == [];
    if o.photo.success {
      assert FirstFailure(cs) == FirstFailure(c1);
      if o.decodes {
        assert FirstFailure(c1) == FirstFailure(c2);
        if o.face.Some? {
          assert FirstFailure(c2) == FirstFailure(c3);
        }
      }
    }
  }

  /** The row's outcome when one of the four steps halts it. */
  function HaltedResult(s: CsvStudent, error: string, photo: PhotoResult): ProcessResult {
    ProcessResult(s.studentId, s.name, ErrorStatus, Some(error), photo.originalSize)
  }

  /**
   * `processStudentAndRegister`. Its callbacks are no-ops, so a
   * `registerFace` that returns always means "Registered".
   */
  function ProcessStudentAndRegister(s: CsvStudent, o: FrontOracle, register: RegisterCall): (r: ProcessResult)
    ensures r.studentId == s.studentId && r.name == s.name
    ensures r.status == RegisteredStatus <==> FrontSteps(o).Ready? && register.Returned?
    ensures r.status == RegisteredStatus ==> r.error == None && r.photoSize == o.photo.processedSize
    ensures r.status != RegisteredStatus ==> r.status == ErrorStatus && r.error.Some? && r.photoSize == o.photo.originalSize
  {
    match FrontSteps(o)
    case Halted(e) => HaltedResult(s, e, o.photo)
    case Ready(_, _) =>
      match register
      case Returned(_) => ProcessResult(s.studentId, s.name, RegisteredStatus, None, o.photo.processedSize)
      case Threw(m) => ProcessResult(s.studentId, s.name, ErrorStatus, Some(m.GetOr(RegistrationFailed)), o.photo.originalSize)
  }

  /**
   * The first failing step decides the outcome: its message is the row's
   * error, with the photo's original size; `registerFace` is not reached,
   * so how it would have ended makes no difference.
   */
  lemma HaltedChain(s: CsvStudent, o: FrontOracle, register: RegisterCall, other: RegisterCall, m: string)
    requires FirstFailure(Checks(o)) == Some(m)
    ensures ProcessStudentAndRegister(s, o, register) == HaltedResult(s, m, o.photo)
    ensures ProcessStudentAndRegister(s, o, register) == ProcessStudentAndRegister(s, o, other)
  {
    FrontStepsFirstFailure(o);
  }

  /** When all four steps succeed, registration alone decides: returning registers whatever the callbacks did; throwing is an error with the exception's message. */
  lemma ReadyChain(s: CsvStudent, o: FrontOracle, register: RegisterCall)
    requires FirstFailure(Checks(o)) == None
    ensures register.Returned? ==> ProcessStudentAndRegister(s, o, register) == ProcessResult(s.studentId, s.name, RegisteredStatus, None, o.photo.processedSize)
    ensures register.Threw? ==> ProcessStudentAndRegister(s, o, register).error == Some(register.message.GetOr(RegistrationFailed))
  {
    FrontStepsFirstFailure(o);
  }
}
