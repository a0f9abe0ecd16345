/**
 * `BulkRegistrationViewModel`: the cache of parsed students kept for
 * re-runs, the batch loop of `processCsvFile` with the progress it
 * publishes before each row, and `rerunFailed`, which retries the rows in
 * Error and patches them into the result list.
 */
module BulkRegistration {
  import opened Wrappers
  import opened Text
  import opened Processing
  import opened StudentChain

  // ----- The student cache -----

  /** Every cached student is stored under its own ID. */
  predicate KeyedById(cache: map<string, CsvStudent>) {
    forall id :: id in cache ==> cache[id].studentId == id
  }

  /**
   * `associateBy { it.studentId }`: the IDs that occur are the keys, each
   * mapped to a student bearing it.
   */
  function AssociateBy(students: seq<CsvStudent>): (m: map<string, CsvStudent>)
    ensures KeyedById(m)
    ensures forall id :: id in m <==> exists k :: 0 <= k < |students| && students[k].studentId == id
  {
    if students == [] then map[]
    else
      var init := students[..|students| - 1];
      var last := students[|students| - 1];
      assert forall k :: 0 <= k < |init| ==> init[k] == students[k];
      AssociateBy(init)[last.studentId := last]
  }

  /** The last student bearing an ID is the one cached under it. */
  lemma {:induction false} AssociateByLastWins(students: seq<CsvStudent>, k: nat)
    requires k < |students|
    requires forall j :: k < j < |students| ==> students[j].studentId != students[k].studentId
    ensures AssociateBy(students)[students[k].studentId] == students[k]
  {
    var init := students[..|students| - 1];
    if k < |students| - 1 {
      assert init[k] == students[k];
      forall j | k < j < |init| ensures init[j].studentId != init[k].studentId {
        assert init[j] == students[j];
      }
      AssociateByLastWins(init, k);
    }
  }

  // ----- processCsvFile -----

  /** What one row of `processCsvFile` yields: the exception's message if `processStudent` threw. */
  function RowResult(s: CsvStudent, env: RowEnv): (r: ProcessResult)
    ensures r.studentId == s.studentId && r.name == s.name
    ensures r.status == RegisteredStatus || r.status == ErrorStatus
    ensures env.Throws? ==> r.status == ErrorStatus && r.error == Some(env.message.GetOr("Unknown error"))
    ensures env.Completes? ==> r == ProcessStudentAndRegister(s, env.front, env.register)
  {
    match env
    case Throws(m) => ProcessResult(s.studentId, s.name, ErrorStatus, Some(m.GetOr("Unknown error")), 0)
    case Completes(o, register) => ProcessStudentAndRegister(s, o, register)
  }

  /** The results of the first `n` rows, in order. */
  function RowResults(students: seq<CsvStudent>, env: nat -> RowEnv, n: nat): (rs: seq<ProcessResult>)
    requires n <= |students|
    ensures |rs| == n
  {
    if n == 0 then [] else RowResults(students, env, n - 1) + [RowResult(students[n - 1], env(n - 1))]
  }

  /** Result k is row k's, for the student in position k. */
  lemma {:induction false} RowResultsInOrder(students: seq<CsvStudent>, env: nat -> RowEnv, n: nat, k: nat)
    requires k < n <= |students|
    ensures RowResults(students, env, n)[k] == RowResult(students[k], env(k))
    ensures RowResults(students, env, n)[k].studentId == students[k].studentId
  {
    if k < n - 1 {
      RowResultsInOrder(students, env, n - 1, k);
    }
  }

  /**
   * No row of this view model is ever a duplicate: a whole run counts zero
   * duplicates, and its successes and errors add up to the number of students.
   */
  lemma {:induction false} NoDuplicates(students: seq<CsvStudent>, env: nat -> RowEnv, n: nat)
    requires n <= |students|
    ensures CountIn(RowResults(students, env, n), DuplicateBucket) == 0
    ensures CountIn(RowResults(students, env, n), RegisteredBucket) + CountIn(RowResults(students, env, n), ErrorBucket) == n
  {
    if n > 0 {
      NoDuplicates(students, env, n - 1);
      NoDuplicatesStep(RowResults(students, env, n - 1), RowResult(students[n - 1], env(n - 1)));
    }
  }

  /** Appending a "Registered" or "Error" result adds one to the successes or the errors, and none to the duplicates. */
  lemma NoDuplicatesStep(front: seq<ProcessResult>, r: ProcessResult)
    requires r.status == RegisteredStatus || r.status == ErrorStatus
    ensures CountIn(front + [r], DuplicateBucket) == CountIn(front, DuplicateBucket)
    ensures CountIn(front + [r], RegisteredBucket) + CountIn(front + [r], ErrorBucket)
         == CountIn(front, RegisteredBucket) + CountIn(front, ErrorBucket) + 1
  {
    CountInSnoc(front, r);
    assert r.status == ErrorStatus ==> !StartsWith(r.status, DuplicatePrefix);
  }

  /**
   * The progress values a run publishes: for every row, (i+1)/total before
   * it is processed, and once more with the photo size after it when its
   * processing returned.
   */
  function RunProgress(env: nat -> RowEnv, total: int, n: nat): seq<Fraction> {
    if n == 0 then []
    else RunProgress(env, total, n - 1) + [Fraction(n, total)] + (if env(n - 1).Completes? then [Fraction(n, total)] else [])
  }

  /**
   * Every row's progress (i+1)/total is published, whether or not its
   * processing throws, the last value is that of the last row, and nothing
   * but these values is published.
   */
  lemma {:induction false} RunProgressCoversRows(env: nat -> RowEnv, total: int, n: nat)
    ensures |RunProgress(env, total, n)| >= n
    ensures forall num :: 1 <= num <= n ==> Fraction(num, total) in RunProgress(env, total, n)
    ensures forall x :: x in RunProgress(env, total, n) ==> x.den == total && 1 <= x.num <= n
    ensures n > 0 ==> |RunProgress(env, total, n)| > 0 && RunProgress(env, total, n)[|RunProgress(env, total, n)| - 1] == Fraction(n, total)
  {
    if n > 0 {
      RunProgressCoversRows(env, total, n - 1);
      var front := RunProgress(env, total, n - 1);
      var tail := [Fraction(n, total)] + (if env(n - 1).Completes? then [Fraction(n, total)] else []);
      assert RunProgress(env, total, n) == front + tail;
      forall num | 1 <= num <= n ensures Fraction(num, total) in front + tail {
        if num < n {
          assert Fraction(num, total) in front;
        } else {
          assert tail[0] == Fraction(num, total);
        }
      }
    }
  }

  // ----- rerunFailed -----

  /** `results.filter { it.status == "Error" }.map { it.studentId }`. */
  function FailedIds(rs: seq<ProcessResult>): (ids: seq<string>)
    ensures forall k :: 0 <= k < |ids| ==> exists p :: 0 <= p < |rs| && rs[p].status == ErrorStatus && rs[p].studentId == ids[k]
    ensures ids == [] <==> forall p :: 0 <= p < |rs| ==> rs[p].status != ErrorStatus
  {
    if rs == [] then []
    else
      var init := rs[..|rs| - 1];
      var ids := FailedIds(init);
      assert forall p :: 0 <= p < |init| ==> init[p] == rs[p];
      ids + (if rs[|rs| - 1].status == ErrorStatus then [rs[|rs| - 1].studentId] else [])
  }

  /** `indexOfFirst { it.studentId == id }`: the first position holding `id`, or -1. */
  function IndexOfFirst(rs: seq<ProcessResult>, id: string): (idx: int)
    ensures -1 <= idx < |rs|
    ensures idx >= 0 ==> rs[idx].studentId == id && forall p :: 0 <= p < idx ==> rs[p].studentId != id
    ensures idx == -1 <==> forall p :: 0 <= p < |rs| ==> rs[p].studentId != id
  {
    if rs == [] then -1
    else if rs[0].studentId == id then 0
    else
      var i := IndexOfFirst(rs[1..], id);
      assert forall p :: 1 <= p < |rs| ==> rs[p] == rs[1..][p - 1];
      if i == -1 then -1 else i + 1
  }

  /**
   * `if (idx >= 0) newResults[idx] = r else newResults.add(r)`: the first
   * entry holding `id` is replaced and nothing else moves; without one,
   * `r` goes at the end.
   */
  function Patch(rs: seq<ProcessResult>, id: string, r: ProcessResult): (after: seq<ProcessResult>)
    ensures var idx := IndexOfFirst(rs, id);
      if idx >= 0 then
        |after| == |rs| && after[idx] == r && forall q :: 0 <= q < |rs| && q != idx ==> after[q] == rs[q]
      else
        |after| == |rs| + 1 && after[..|rs|] == rs && after[|rs|] == r
  {
    var idx := IndexOfFirst(rs, id);
    if idx >= 0 then rs[idx := r] else rs + [r]
  }

  const MissingCachedData := "Missing cached data"

  /** The first entry holding `id`, if there is one, becomes an Error for lack of cached data. */
  function MarkMissing(rs: seq<ProcessResult>, id: string): (after: seq<ProcessResult>)
    ensures |after| == |rs|
    ensures var idx := IndexOfFirst(rs, id);
      forall q :: 0 <= q < |rs| ==>
        if q == idx then after[q] == rs[q].(status := ErrorStatus, error := Some(MissingCachedData)) else after[q] == rs[q]
  {
    var idx := IndexOfFirst(rs, id);
    if idx >= 0 then rs[idx := rs[idx].(status := ErrorStatus, error := Some(MissingCachedData))] else rs
  }

  /**
   * The retry of a cached student: `processStudent`, or, when it throws,
   * an Error entry for `id` with the cached name.
   */
  function Retry(id: string, s: CsvStudent, env: RowEnv): (r: ProcessResult)
    ensures r.name == s.name
    ensures r.studentId == (if env.Completes? then s.studentId else id)
    ensures env.Throws? ==> r.status == ErrorStatus && r.error == Some(env.message.GetOr("Re-run failed"))
    ensures env.Completes? ==> r == ProcessStudentAndRegister(s, env.front, env.register)
  {
    match env
    case Completes(o, register) => ProcessStudentAndRegister(s, o, register)
    case Throws(m) => ProcessResult(id, s.name, ErrorStatus, Some(m.GetOr("Re-run failed")), 0)
  }

  /** The results patched so far and the three added counts. */
  datatype Rerun = Rerun(results: seq<ProcessResult>, added: nat, duplicates: nat, errors: nat)

  /** The counts after one more result in bucket `b`. */
  function Tally(acc: Rerun, results: seq<ProcessResult>, b: Bucket): (t: Rerun)
    ensures t.results == results
    ensures t.added + t.duplicates + t.errors == acc.added + acc.duplicates + acc.errors + 1
    ensures b == RegisteredBucket ==> t.added == acc.added + 1 && t.duplicates == acc.duplicates && t.errors == acc.errors
    ensures b == DuplicateBucket ==> t.added == acc.added && t.duplicates == acc.duplicates + 1 && t.errors == acc.errors
    ensures b == ErrorBucket ==> t.added == acc.added && t.duplicates == acc.duplicates && t.errors == acc.errors + 1
  {
    Rerun(results,
          acc.added + (if b == RegisteredBucket then 1 else 0),
          acc.duplicates + (if b == DuplicateBucket then 1 else 0),
          acc.errors + (if b == ErrorBucket then 1 else 0))
  }

  /** One pass of the `for (sid in failedIds)` body; `env` is how the retry of `sid` goes. */
  function RerunStep(acc: Rerun, id: string, cache: map<string, CsvStudent>, env: RowEnv): Rerun {
    if id !in cache then Tally(acc, MarkMissing(acc.results, id), ErrorBucket)
    else
      var r := Retry(id, cache[id], env);
      Tally(acc, Patch(acc.results, id, r), BucketOf(r.status))
  }

  /** The loop over the first `n` failed IDs; the retry of the j-th goes as `env(j)`. */
  function RerunLoop(rs: seq<ProcessResult>, ids: seq<string>, cache: map<string, CsvStudent>, env: nat -> RowEnv, n: nat): Rerun
    requires n <= |ids|
  {
    if n == 0 then Rerun(rs, 0, 0, 0)
    else RerunStep(RerunLoop(rs, ids, cache, env, n - 1), ids[n - 1], cache, env(n - 1))
  }

  /** Each failed ID adds to exactly one of the three counts. */
  lemma {:induction false} RerunCountsAddUp(rs: seq<ProcessResult>, ids: seq<string>, cache: map<string, CsvStudent>, env: nat -> RowEnv, n: nat)
    requires n <= |ids|
    ensures var acc := RerunLoop(rs, ids, cache, env, n); acc.added + acc.duplicates + acc.errors == n
  {
    if n > 0 {
      RerunCountsAddUp(rs, ids, cache, env, n - 1);
    }
  }

  /** The same positions as `rs`, holding the same student IDs. */
  predicate SameIds(rs: seq<ProcessResult>, after: seq<ProcessResult>) {
    |after| == |rs| && forall p :: 0 <= p < |rs| ==> after[p].studentId == rs[p].studentId
  }

  /** `x` is none of the first `n` elements of `xs`. */
  predicate NotAmong<T(==)>(x: T, xs: seq<T>, n: nat) {
    forall k :: 0 <= k < n && k < |xs| ==> xs[k] != x
  }

  /**
   * `after` has the positions and IDs of `rs`, and every entry whose ID is
   * none of the first `n` of `ids` is unchanged.
   */
  predicate Untouched(rs: seq<ProcessResult>, after: seq<ProcessResult>, ids: seq<string>, n: nat) {
    && SameIds(rs, after)
    && forall p :: 0 <= p < |rs| && NotAmong(rs[p].studentId, ids, n) ==> after[p] == rs[p]
  }

  /** `after` has the positions and IDs of `before`, and only entries holding `id` may differ. */
  predicate KeepsOthers(before: seq<ProcessResult>, after: seq<ProcessResult>, id: string) {
    && SameIds(before, after)
    && forall q :: 0 <= q < |before| && before[q].studentId != id ==> after[q] == before[q]
  }

  /**
   * Retrying an ID held by some entry replaces an entry holding it with a
   * result for the same ID: no entry is appended and no other entry changes.
   */
  lemma RerunStepKeepsIds(acc: Rerun, id: string, cache: map<string, CsvStudent>, env: RowEnv, p0: nat)
    requires KeyedById(cache)
    requires p0 < |acc.results| && acc.results[p0].studentId == id
    ensures KeepsOthers(acc.results, RerunStep(acc, id, cache, env).results, id)
  {
  }

  /** Untouched for the first `n - 1` IDs, then only entries holding the n-th may change: untouched for the first `n`. */
  lemma UntouchedThen(rs: seq<ProcessResult>, mid: seq<ProcessResult>, after: seq<ProcessResult>, ids: seq<string>, n: nat)
    requires 0 < n <= |ids|
    requires Untouched(rs, mid, ids, n - 1) && KeepsOthers(mid, after, ids[n - 1])
    ensures Untouched(rs, after, ids, n)
  {
  }

  /** Every ID in `ids` is held by some entry of `rs`. */
  predicate IdsOccur(rs: seq<ProcessResult>, ids: seq<string>) {
    forall k :: 0 <= k < |ids| ==> exists p :: 0 <= p < |rs| && rs[p].studentId == ids[k]
  }

  /**
   * Retrying IDs that all occur in the list keeps its length and its IDs,
   * position by position, and leaves unchanged every entry whose ID was
   * not retried.
   */
  lemma {:induction false} RerunKeepsPositions(rs: seq<ProcessResult>, ids: seq<string>, cache: map<string, CsvStudent>, env: nat -> RowEnv, n: nat)
    requires n <= |ids| && KeyedById(cache)
    requires IdsOccur(rs, ids)
    ensures Untouched(rs, RerunLoop(rs, ids, cache, env, n).results, ids, n)
  {
    if n > 0 {
      RerunKeepsPositions(rs, ids, cache, env, n - 1);
      KeepsPositionsStep(rs, ids, RerunLoop(rs, ids, cache, env, n - 1), cache, env(n - 1), n);
    }
  }

  /** One more retried ID that occurs in the list keeps the list untouched outside the retried IDs. */
  lemma KeepsPositionsStep(rs: seq<ProcessResult>, ids: seq<string>, before: Rerun, cache: map<string, CsvStudent>, e: RowEnv, n: nat)
    requires 0 < n <= |ids| && KeyedById(cache) && IdsOccur(rs, ids)
    requires Untouched(rs, before.results, ids, n - 1)
    ensures Untouched(rs, RerunStep(before, ids[n - 1], cache, e).results, ids, n)
  {
    var id := ids[n - 1];
    var p0 :| 0 <= p0 < |rs| && rs[p0].studentId == id;
    assert before.results[p0].studentId == id;
    RerunStepKeepsIds(before, id, cache, e, p0);
    UntouchedThen(rs, before.results, RerunStep(before, id, cache, e).results, ids, n);
  }

  /** No two results share a student ID. */
  predicate DistinctIds(rs: seq<ProcessResult>) {
    forall p, q :: 0 <= p < q < |rs| ==> rs[p].studentId != rs[q].studentId
  }

  /**
   * With distinct IDs, a re-run changes only entries that were in Error:
   * every other entry keeps its place and its value.
   */
  lemma RerunTouchesOnlyErrors(rs: seq<ProcessResult>, cache: map<string, CsvStudent>, env: nat -> RowEnv)
    requires KeyedById(cache) && DistinctIds(rs)
    ensures var after := RerunLoop(rs, FailedIds(rs), cache, env, |FailedIds(rs)|).results;
      && SameIds(rs, after)
      && forall p :: 0 <= p < |rs| && rs[p].status != ErrorStatus ==> after[p] == rs[p]
  {
    var ids := FailedIds(rs);
    RerunKeepsPositions(rs, ids, cache, env, |ids|);
    forall p | 0 <= p < |rs| && rs[p].status != ErrorStatus ensures NotAmong(rs[p].studentId, ids, |ids|) {
    }
  }

  function RerunningStatus(failed: nat): string {
    "Re-running " + NatToString(failed) + " failed rows..."
  }

  function RerunDoneStatus(acc: Rerun): string {
    "Re-run done: +" + NatToString(acc.added) + " ok, +" + NatToString(acc.duplicates) + " dup, +" + NatToString(acc.errors) + " err"
  }

  /** The state after a re-run: the patched list, its counts recomputed over the whole list. */
  function RerunState(current: ProcessingState, acc: Rerun): ProcessingState {
    current.(isProcessing := false, results := acc.results,
             successCount := CountIn(acc.results, RegisteredBucket),
             duplicateCount := CountIn(acc.results, DuplicateBucket),
             errorCount := CountExactError(acc.results),
             status := RerunDoneStatus(acc))
  }

  /** Every row of a run ends as "Registered" or "Error", so every status is one the counts know. */
  lemma {:induction false} RowResultsKnown(students: seq<CsvStudent>, env: nat -> RowEnv, n: nat)
    requires n <= |students|
    ensures AllKnown(RowResults(students, env, n))
  {
    if n > 0 {
      RowResultsKnown(students, env, n - 1);
      var rs := RowResults(students, env, n);
      assert rs[..n - 1] == RowResults(students, env, n - 1);
      assert KnownStatus(rs[n - 1].status);
    }
  }

  /** One retry keeps every status one the counts know. */
  lemma RerunStepKnown(acc: Rerun, id: string, cache: map<string, CsvStudent>, e: RowEnv)
    requires AllKnown(acc.results)
    ensures AllKnown(RerunStep(acc, id, cache, e).results)
  {
    var after := RerunStep(acc, id, cache, e).results;
    if id in cache {
      var r := Retry(id, cache[id], e);
      assert KnownStatus(r.status);
      forall q | 0 <= q < |after| ensures KnownStatus(after[q].status) {
        if q < |acc.results| && q != IndexOfFirst(acc.results, id) {
          assert after[q] == acc.results[q];
        }
      }
    } else {
      forall q | 0 <= q < |after| ensures KnownStatus(after[q].status) {
        assert KnownStatus(acc.results[q].status);
      }
    }
  }

  /** A re-run of results whose statuses are all known keeps them known. */
  lemma {:induction false} RerunKeepsKnown(rs: seq<ProcessResult>, ids: seq<string>, cache: map<string, CsvStudent>, env: nat -> RowEnv, n: nat)
    requires n <= |ids| && AllKnown(rs)
    ensures AllKnown(RerunLoop(rs, ids, cache, env, n).results)
  {
    if n > 0 {
      RerunKeepsKnown(rs, ids, cache, env, n - 1);
      RerunStepKnown(RerunLoop(rs, ids, cache, env, n - 1), ids[n - 1], cache, env(n - 1));
    }
  }

  /**
   * After a run, the re-run's `count { it.status == "Error" }` is the
   * number of results in the error bucket, the same count `processCsvFile`
   * keeps in its `else` branch.
   */
  lemma RerunErrorCount(current: ProcessingState, students: seq<CsvStudent>, env: nat -> RowEnv, cache: map<string, CsvStudent>, renv: nat -> RowEnv)
    ensures var rs := RowResults(students, env, |students|);
      var acc := RerunLoop(rs, FailedIds(rs), cache, renv, |FailedIds(rs)|);
      RerunState(current, acc).errorCount == CountIn(acc.results, ErrorBucket)
  {
    var rs := RowResults(students, env, |students|);
    RowResultsKnown(students, env, |students|);
    RerunKeepsKnown(rs, FailedIds(rs), cache, renv, |FailedIds(rs)|);
    ExactErrorIsErrorBucket(RerunLoop(rs, FailedIds(rs), cache, renv, |FailedIds(rs)|).results);
  }

  // ----- Two results for one ID: the first position is patched, not the Error row -----

  const Alice := CsvStudent("S1", "Alice", "alice.jpg", "", "", "", "", "", "Student")

  /** A photo the resolver could not fetch. */
  const Unresolvable := FrontOracle(PhotoResult(false, None, 0, 0), false, None, None)

  /**
   * As written: with a Registered and an Error entry for S1, re-running S1
   * overwrites the Registered entry at position 0 (here with a new Error),
   * and the Error entry at position 1 is left as it was.
   */
  lemma RerunPatchesFirstPosition(rs: seq<ProcessResult>, cache: map<string, CsvStudent>, env: nat -> RowEnv)
    requires rs == [ProcessResult("S1", "Alice", RegisteredStatus, None, 2048),
                    ProcessResult("S1", "Alice", ErrorStatus, Some("No face detected"), 2048)]
    requires cache == map["S1" := Alice] && env(0) == Completes(Unresolvable, Returned([]))
    ensures FailedIds(rs) == ["S1"]
    ensures var after := RerunLoop(rs, FailedIds(rs), cache, env, 1).results;
      && |after| == 2 && rs[0].status == RegisteredStatus && after[0].status == ErrorStatus
      && after[1] == rs[1]
  {
    assert rs[..1][..0] == [];
    assert FailedIds(rs[..1]) == [];
    assert IndexOfFirst(rs, "S1") == 0;
  }

  /** The positions of the entries in Error, in order. */
  function FailedPositions(rs: seq<ProcessResult>): (ps: seq<nat>)
    ensures forall k :: 0 <= k < |ps| ==> ps[k] < |rs| && rs[ps[k]].status == ErrorStatus
    ensures forall a, b :: 0 <= a < b < |ps| ==> ps[a] < ps[b]
  {
    if rs == [] then []
    else
      var init := rs[..|rs| - 1];
      var ps := FailedPositions(init);
      assert forall p :: 0 <= p < |init| ==> init[p] == rs[p];
      ps + (if rs[|rs| - 1].status == ErrorStatus then [|rs| - 1] else [])
  }

  /** Every entry in Error is at one of the failed positions. */
  lemma {:induction false} FailedPositionsComplete(rs: seq<ProcessResult>, p: nat)
    requires p < |rs| && rs[p].status == ErrorStatus
    ensures p in FailedPositions(rs)
  {
    var init := rs[..|rs| - 1];
    if p < |init| {
      assert init[p] == rs[p];
      FailedPositionsComplete(init, p);
    }
  }

  /** Corrected step: the retry of the Error entry at position `p` overwrites that entry. */
  function RerunStepAt(acc: Rerun, p: nat, id: string, cache: map<string, CsvStudent>, env: RowEnv): Rerun
    requires p < |acc.results|
  {
    if id !in cache then
      Tally(acc, acc.results[p := acc.results[p].(status := ErrorStatus, error := Some(MissingCachedData))], ErrorBucket)
    else
      var r := Retry(id, cache[id], env);
      Tally(acc, acc.results[p := r], BucketOf(r.status))
  }

  /** `after` has the positions and IDs of `rs`, and every entry at none of the first `n` positions of `ps` is unchanged. */
  predicate UntouchedOutside(rs: seq<ProcessResult>, after: seq<ProcessResult>, ps: seq<nat>, n: nat) {
    && SameIds(rs, after)
    && forall p :: 0 <= p < |rs| && NotAmong(p, ps, n) ==> after[p] == rs[p]
  }

  /** `after` has the positions and IDs of `before`, and only position `p` may differ. */
  predicate KeepsOthersAt(before: seq<ProcessResult>, after: seq<ProcessResult>, p: nat) {
    && SameIds(before, after)
    && forall q :: 0 <= q < |before| && q != p ==> after[q] == before[q]
  }

  /**
   * A corrected step overwrites position `p` alone, with an entry for the
   * same ID when the cache is keyed by ID, and adds one to exactly one count.
   */
  lemma RerunStepAtKeeps(acc: Rerun, p: nat, cache: map<string, CsvStudent>, env: RowEnv)
    requires p < |acc.results| && KeyedById(cache)
    ensures var after := RerunStepAt(acc, p, acc.results[p].studentId, cache, env);
      && KeepsOthersAt(acc.results, after.results, p)
      && after.added + after.duplicates + after.errors == acc.added + acc.duplicates + acc.errors + 1
  {
  }

  /** Untouched outside the first `n - 1` positions, then only the n-th may change: untouched outside the first `n`. */
  lemma UntouchedOutsideThen(rs: seq<ProcessResult>, mid: seq<ProcessResult>, after: seq<ProcessResult>, ps: seq<nat>, n: nat)
    requires 0 < n <= |ps|
    requires UntouchedOutside(rs, mid, ps, n - 1) && KeepsOthersAt(mid, after, ps[n - 1])
    ensures UntouchedOutside(rs, after, ps, n)
  {
  }

  /** Corrected loop: each Error entry is retried at its own position. */
  function RerunLoopCorrected(rs: seq<ProcessResult>, ps: seq<nat>, cache: map<string, CsvStudent>, env: nat -> RowEnv, n: nat): (acc: Rerun)
    requires n <= |ps| && forall k :: 0 <= k < |ps| ==> ps[k] < |rs|
    ensures |acc.results| == |rs|
  {
    if n == 0 then Rerun(rs, 0, 0, 0)
    else
      var before := RerunLoopCorrected(rs, ps, cache, env, n - 1);
      RerunStepAt(before, ps[n - 1], rs[ps[n - 1]].studentId, cache, env(n - 1))
  }

  /**
   * The corrected re-run changes only the entries at the retried positions,
   * keeps every ID in its place when the cache is keyed by ID, and counts
   * every retry once, whether or not IDs repeat.
   */
  lemma {:induction false} RerunCorrectedTouchesOnlyErrors(rs: seq<ProcessResult>, ps: seq<nat>, cache: map<string, CsvStudent>, env: nat -> RowEnv, n: nat)
    requires KeyedById(cache) && n <= |ps| && forall k :: 0 <= k < |ps| ==> ps[k] < |rs|
    ensures var acc := RerunLoopCorrected(rs, ps, cache, env, n);
      && UntouchedOutside(rs, acc.results, ps, n)
      && acc.added + acc.duplicates + acc.errors == n
  {
    if n > 0 {
      RerunCorrectedTouchesOnlyErrors(rs, ps, cache, env, n - 1);
      var p := ps[n - 1];
      var before := RerunLoopCorrected(rs, ps, cache, env, n - 1);
      assert before.results[p].studentId == rs[p].studentId;
      RerunStepAtKeeps(before, p, cache, env(n - 1));
      UntouchedOutsideThen(rs, before.results, RerunStepAt(before, p, rs[p].studentId, cache, env(n - 1)).results, ps, n);
    }
  }

  /** With the correction, a re-run leaves every entry that was not in Error as it was, even when IDs repeat. */
  lemma RerunCorrectedKeepsNonErrors(rs: seq<ProcessResult>, cache: map<string, CsvStudent>, env: nat -> RowEnv)
    requires KeyedById(cache)
    ensures var ps := FailedPositions(rs);
      var after := RerunLoopCorrected(rs, ps, cache, env, |ps|).results;
      && SameIds(rs, after)
      && forall p :: 0 <= p < |rs| && rs[p].status != ErrorStatus ==> after[p] == rs[p]
  {
    var ps := FailedPositions(rs);
    RerunCorrectedTouchesOnlyErrors(rs, ps, cache, env, |ps|);
  }

  /**
   * What a retried entry becomes: the retry of its student when the ID is
   * cached, otherwise the entry marked Error with "Missing cached data".
   */
  function Patched(e: ProcessResult, cache: map<string, CsvStudent>, env: RowEnv): ProcessResult {
    if e.studentId in cache then Retry(e.studentId, cache[e.studentId], env)
    else e.(status := ErrorStatus, error := Some(MissingCachedData))
  }

  /** The n-th corrected retry patches its own position and leaves the earlier retried positions as they were. */
  lemma CorrectedPatchesStep(rs: seq<ProcessResult>, ps: seq<nat>, cache: map<string, CsvStudent>, env: nat -> RowEnv, n: nat)
    requires KeyedById(cache) && 0 < n <= |ps| && forall k :: 0 <= k < |ps| ==> ps[k] < |rs|
    requires forall a, b :: 0 <= a < b < |ps| ==> ps[a] < ps[b]
    requires forall k :: 0 <= k < n - 1 ==> RerunLoopCorrected(rs, ps, cache, env, n - 1).results[ps[k]] == Patched(rs[ps[k]], cache, env(k))
    ensures forall k :: 0 <= k < n ==> RerunLoopCorrected(rs, ps, cache, env, n).results[ps[k]] == Patched(rs[ps[k]], cache, env(k))
  {
    RerunCorrectedTouchesOnlyErrors(rs, ps, cache, env, n - 1);
    var before := RerunLoopCorrected(rs, ps, cache, env, n - 1);
    var p := ps[n - 1];
    assert NotAmong(p, ps, n - 1);
    assert before.results[p] == rs[p];
    var after := RerunStepAt(before, p, rs[p].studentId, cache, env(n - 1)).results;
    assert RerunLoopCorrected(rs, ps, cache, env, n).results == after;
    forall k | 0 <= k < n ensures after[ps[k]] == Patched(rs[ps[k]], cache, env(k)) {
      if k < n - 1 {
        assert ps[k] != p;
      }
    }
  }

  /** Retrying strictly increasing positions leaves each of them holding the retry of its own entry. */
  lemma {:induction false} CorrectedPatches(rs: seq<ProcessResult>, ps: seq<nat>, cache: map<string, CsvStudent>, env: nat -> RowEnv, n: nat)
    requires KeyedById(cache) && n <= |ps| && forall k :: 0 <= k < |ps| ==> ps[k] < |rs|
    requires forall a, b :: 0 <= a < b < |ps| ==> ps[a] < ps[b]
    ensures forall k :: 0 <= k < n ==> RerunLoopCorrected(rs, ps, cache, env, n).results[ps[k]] == Patched(rs[ps[k]], cache, env(k))
  {
    if n > 0 {
      CorrectedPatches(rs, ps, cache, env, n - 1);
      CorrectedPatchesStep(rs, ps, cache, env, n);
    }
  }

  /**
   * With the correction, every entry that was in Error is itself retried:
   * it ends as the retry of its student, or marked "Missing cached data",
   * where the k-th failed entry is retried as `env(k)`; every other entry
   * is left as it was.
   */
  lemma RerunCorrectedPatchesErrors(rs: seq<ProcessResult>, cache: map<string, CsvStudent>, env: nat -> RowEnv)
    requires KeyedById(cache)
    ensures var ps := FailedPositions(rs);
      var after := RerunLoopCorrected(rs, ps, cache, env, |ps|).results;
      && SameIds(rs, after)
      && (forall p :: 0 <= p < |rs| && rs[p].status != ErrorStatus ==> after[p] == rs[p])
      && (forall k :: 0 <= k < |ps| ==> after[ps[k]] == Patched(rs[ps[k]], cache, env(k)))
      && (forall p :: 0 <= p < |rs| && rs[p].status == ErrorStatus ==>
            exists k :: 0 <= k < |ps| && ps[k] == p && after[p] == Patched(rs[p], cache, env(k)))
  {
    var ps := FailedPositions(rs);
    RerunCorrectedKeepsNonErrors(rs, cache, env);
    CorrectedPatches(rs, ps, cache, env, |ps|);
    forall p | 0 <= p < |rs| && rs[p].status == ErrorStatus
      ensures exists k :: 0 <= k < |ps| && ps[k] == p && RerunLoopCorrected(rs, ps, cache, env, |ps|).results[p] == Patched(rs[p], cache, env(k))
    {
      FailedPositionsComplete(rs, p);
      var k :| 0 <= k < |ps| && ps[k] == p;
    }
  }

  /** The k-th failed ID is the ID of the entry at the k-th failed position. */
  lemma {:induction false} FailedIdsAtPositions(rs: seq<ProcessResult>)
    ensures |FailedIds(rs)| == |FailedPositions(rs)|
    ensures forall k :: 0 <= k < |FailedIds(rs)| ==> FailedIds(rs)[k] == rs[FailedPositions(rs)[k]].studentId
  {
    if rs != [] {
      var init := rs[..|rs| - 1];
      FailedIdsAtPositions(init);
      assert forall p :: 0 <= p < |init| ==> init[p] == rs[p];
    }
  }

  /** With distinct IDs, the first entry holding the ID of position `p` is at `p`, in any list with the same IDs. */
  lemma IndexOfFirstDistinct(rs: seq<ProcessResult>, cur: seq<ProcessResult>, p: nat)
    requires DistinctIds(rs) && SameIds(rs, cur) && p < |rs|
    ensures IndexOfFirst(cur, rs[p].studentId) == p
  {
    var idx := IndexOfFirst(cur, rs[p].studentId);
    assert cur[p].studentId == rs[p].studentId;
    assert idx >= 0;
    assert rs[idx].studentId == rs[p].studentId;
  }

  /** A step patching the first entry holding `id` is the corrected step at `p` when `p` is that entry. */
  lemma RerunStepIsStepAt(acc: Rerun, p: nat, id: string, cache: map<string, CsvStudent>, env: RowEnv)
    requires p < |acc.results| && IndexOfFirst(acc.results, id) == p
    ensures RerunStep(acc, id, cache, env) == RerunStepAt(acc, p, id, cache, env)
  {
  }

  /** With distinct IDs, patching the first entry holding the ID of position `p` patches `p`. */
  lemma RerunAgreeStep(rs: seq<ProcessResult>, acc: Rerun, p: nat, id: string, cache: map<string, CsvStudent>, env: RowEnv)
    requires DistinctIds(rs) && SameIds(rs, acc.results) && p < |rs| && id == rs[p].studentId
    ensures RerunStep(acc, id, cache, env) == RerunStepAt(acc, p, id, cache, env)
  {
    IndexOfFirstDistinct(rs, acc.results, p);
    RerunStepIsStepAt(acc, p, id, cache, env);
  }

  /**
   * Retrying `ids` by first position and retrying the positions `ps` agree
   * when no two results share an ID and the k-th ID is that of the k-th position.
   */
  lemma {:induction false} RerunAgreesAt(rs: seq<ProcessResult>, ids: seq<string>, ps: seq<nat>, cache: map<string, CsvStudent>, env: nat -> RowEnv, n: nat)
    requires KeyedById(cache) && DistinctIds(rs) && n <= |ids| && n <= |ps|
    requires forall k :: 0 <= k < |ps| ==> ps[k] < |rs|
    requires forall k :: 0 <= k < n ==> ids[k] == rs[ps[k]].studentId
    ensures RerunLoop(rs, ids, cache, env, n) == RerunLoopCorrected(rs, ps, cache, env, n)
  {
    if n > 0 {
      RerunAgreesAt(rs, ids, ps, cache, env, n - 1);
      RerunAgreesNext(rs, ids, ps, cache, env, n);
    }
  }

  /** The corrected loop keeps every ID in its place when the cache is keyed by ID. */
  lemma RerunCorrectedSameIds(rs: seq<ProcessResult>, ps: seq<nat>, cache: map<string, CsvStudent>, env: nat -> RowEnv, n: nat)
    requires KeyedById(cache) && n <= |ps| && forall k :: 0 <= k < |ps| ==> ps[k] < |rs|
    ensures SameIds(rs, RerunLoopCorrected(rs, ps, cache, env, n).results)
  {
    RerunCorrectedTouchesOnlyErrors(rs, ps, cache, env, n);
  }

  /** When both loops agree after `n - 1` retries and the n-th ID is that of the n-th position, they agree after `n`. */
  lemma RerunAgreesNext(rs: seq<ProcessResult>, ids: seq<string>, ps: seq<nat>, cache: map<string, CsvStudent>, env: nat -> RowEnv, n: nat)
    requires KeyedById(cache) && DistinctIds(rs) && 0 < n <= |ids| && n <= |ps|
    requires forall k :: 0 <= k < |ps| ==> ps[k] < |rs|
    requires ids[n - 1] == rs[ps[n - 1]].studentId
    requires RerunLoop(rs, ids, cache, env, n - 1) == RerunLoopCorrected(rs, ps, cache, env, n - 1)
    ensures RerunLoop(rs, ids, cache, env, n) == RerunLoopCorrected(rs, ps, cache, env, n)
  {
    RerunCorrectedSameIds(rs, ps, cache, env, n - 1);
    RerunAgreeStep(rs, RerunLoopCorrected(rs, ps, cache, env, n - 1), ps[n - 1], ids[n - 1], cache, env(n - 1));
  }

  /**
   * When no two results share an ID, `rerunFailed` as written and the
   * corrected re-run agree: the first position holding a failed ID is the
   * failed entry itself.
   */
  lemma RerunAgreesWhenDistinct(rs: seq<ProcessResult>, cache: map<string, CsvStudent>, env: nat -> RowEnv)
    requires KeyedById(cache) && DistinctIds(rs)
    ensures |FailedIds(rs)| == |FailedPositions(rs)|
    ensures RerunLoop(rs, FailedIds(rs), cache, env, |FailedIds(rs)|) == RerunLoopCorrected(rs, FailedPositions(rs), cache, env, |FailedPositions(rs)|)
  {
    FailedIdsAtPositions(rs);
    RerunAgreesAt(rs, FailedIds(rs), FailedPositions(rs), cache, env, |FailedIds(rs)|);
  }

  /**
   * When no two results share an ID, `rerunFailed` as written retries every
   * Error entry itself: the k-th one ends as the retry of its student, or
   * marked "Missing cached data".
   */
  lemma RerunPatchesErrorsWhenDistinct(rs: seq<ProcessResult>, cache: map<string, CsvStudent>, env: nat -> RowEnv)
    requires KeyedById(cache) && DistinctIds(rs)
    ensures var ps := FailedPositions(rs);
      var after := RerunLoop(rs, FailedIds(rs), cache, env, |FailedIds(rs)|).results;
      && |FailedIds(rs)| == |ps| && |after| == |rs|
      && forall k :: 0 <= k < |ps| ==> after[ps[k]] == Patched(rs[ps[k]], cache, env(k))
  {
    RerunAgreesWhenDistinct(rs, cache, env);
    RerunCorrectedPatchesErrors(rs, cache, env);
  }

  /** Corrected, the example's Error entry at position 1 is the one retried, and the Registered entry stays. */
  lemma RerunCorrectedExample(rs: seq<ProcessResult>, cache: map<string, CsvStudent>, env: nat -> RowEnv)
    requires rs == [ProcessResult("S1", "Alice", RegisteredStatus, None, 2048),
                    ProcessResult("S1", "Alice", ErrorStatus, Some("No face detected"), 2048)]
    requires cache == map["S1" := Alice] && env(0) == Completes(Unresolvable, Returned([]))
    ensures FailedPositions(rs) == [1]
    ensures var after := RerunLoopCorrected(rs, FailedPositions(rs), cache, env, 1).results;
      && after[0] == rs[0] && after[1] == ProcessStudentAndRegister(Alice, Unresolvable, Returned([]))
  {
    assert rs[..1][..0] == [];
    assert FailedPositions(rs[..1]) == [];
  }

  class BulkRegistrationViewModel {
    var state: ProcessingState
    var photoSources: seq<string>
    /** `lastStudents`: filled only by `prepareProcessing`. */
    var lastStudents: map<string, CsvStudent>
    /** Every value the state flow has held, oldest first. */
    ghost var published: seq<ProcessingState>

    ghost predicate Valid()
      reads this
    {
      KeyedById(lastStudents)
    }

    constructor()
      ensures Valid()
      ensures state == InitialState && photoSources == [] && lastStudents == map[] && published == [InitialState]
    {
      state := InitialState;
      photoSources := [];
      lastStudents := map[];
      published := [InitialState];
    }

    /** Sets the state and records the value published. */
    method Publish(st: ProcessingState)
      modifies this
      ensures state == st && published == old(published) + [st]
      ensures photoSources == old(photoSources) && lastStudents == old(lastStudents)
    {
      state := st;
      published := published + [st];
    }

    /**
     * `prepareProcessing`: caches the parsed students by ID and sets the
     * estimate (`seconds` is None when `estimateProcessingTime` threw; the
     * cache is then already filled).
     */
    method PrepareProcessing(parse: CsvParse, seconds: Option<int>)
      requires Valid()
      modifies this
      ensures Valid()
      ensures parse.Parsed? ==> lastStudents == AssociateBy(parse.students) && photoSources == PhotoUrls(parse.students)
      ensures parse.ParseThrew? ==> lastStudents == old(lastStudents) && photoSources == old(photoSources)
      ensures state == old(state).(estimatedTime := EstimateLine(if parse.Parsed? then seconds else None))
      ensures published == old(published) + [state]
    {
      match parse {
        case ParseThrew(_) =>
          Publish(state.(estimatedTime := EstimateLine(None)));
        case Parsed(students, _) =>
          lastStudents := AssociateBy(students);
          photoSources := PhotoUrls(students);
          Publish(state.(estimatedTime := EstimateLine(seconds)));
      }
    }

    /** `resetState`: a fresh state; the student cache survives it. */
    method ResetState()
      modifies this
      ensures state == InitialState && published == old(published) + [InitialState]
      ensures lastStudents == old(lastStudents) && photoSources == old(photoSources)
    {
      Publish(InitialState);
    }

    /** Publishes the progress, status and photo type before row `index` of `total`. */
    method PublishRowStart(ghost base: nat, index: nat, total: nat, s: CsvStudent, photoType: string -> string)
      requires base <= |published|
      modifies this
      ensures photoSources == old(photoSources) && lastStudents == old(lastStudents)
      ensures state == old(state).(progress := Fraction(index + 1, total), status := ProcessingStatus(index, total, s.name),
                                   currentPhotoType := "Photo source: " + photoType(s.photoUrl), currentPhotoSize := "")
      ensures published == old(published) + [state]
      ensures Progresses(published[base..]) == Progresses(old(published)[base..]) + [Fraction(index + 1, total)]
    {
      ghost var before := published;
      Publish(state.(progress := Fraction(index + 1, total), status := ProcessingStatus(index, total, s.name),
                     currentPhotoType := "Photo source: " + photoType(s.photoUrl), currentPhotoSize := ""));
      assert published[base..] == before[base..] + [state];
      ProgressesSnoc(before[base..], state);
    }

    /** Publishes the size of the photo a returned row reported. */
    method PublishPhotoSize(ghost base: nat, r: ProcessResult, formatMegabytes: int -> string)
      requires base <= |published|
      modifies this
      ensures photoSources == old(photoSources) && lastStudents == old(lastStudents)
      ensures state == old(state).(currentPhotoSize := "Photo size: " + FormatFileSize(r.photoSize, formatMegabytes))
      ensures published == old(published) + [state]
      ensures Progresses(published[base..]) == Progresses(old(published)[base..]) + [old(state).progress]
    {
      ghost var before := published;
      Publish(state.(currentPhotoSize := "Photo size: " + FormatFileSize(r.photoSize, formatMegabytes)));
      assert published[base..] == before[base..] + [state];
      ProgressesSnoc(before[base..], state);
    }

    /** One row of the loop: its progress first, then its result, then its photo size if it returned. */
    method ProcessRow(ghost base: nat, index: nat, total: nat, s: CsvStudent, e: RowEnv, photoType: string -> string, formatMegabytes: int -> string)
      returns (result: ProcessResult)
      requires base <= |published|
      modifies this
      ensures result == RowResult(s, e)
      ensures photoSources == old(photoSources) && lastStudents == old(lastStudents)
      ensures |published| > |old(published)| && published[..|old(published)|] == old(published)
      ensures Progresses(published[base..])
        == Progresses(old(published)[base..]) + [Fraction(index + 1, total)] + (if e.Completes? then [Fraction(index + 1, total)] else [])
    {
      ghost var before := published;
      PublishRowStart(base, index, total, s, photoType);
      match e {
        case Throws(m) =>
          result := ProcessResult(s.studentId, s.name, ErrorStatus, Some(m.GetOr("Unknown error")), 0);
        case Completes(o, register) =>
          result := ProcessStudentAndRegister(s, o, register);
          PublishPhotoSize(base, result, formatMegabytes);
      }
    }

    /**
     * The row loop of `processCsvFile`: progress is published before each
     * row, the photo size after each row whose processing returned.
     */
    method ProcessRows(students: seq<CsvStudent>, env: nat -> RowEnv, photoType: string -> string, formatMegabytes: int -> string)
      returns (results: seq<ProcessResult>, successCount: int, duplicateCount: int, errorCount: int)
      modifies this
      ensures results == RowResults(students, env, |students|)
      ensures successCount == CountIn(results, RegisteredBucket) && duplicateCount == CountIn(results, DuplicateBucket)
      ensures errorCount == CountIn(results, ErrorBucket)
      ensures photoSources == old(photoSources) && lastStudents == old(lastStudents)
      ensures |published| >= |old(published)| && published[..|old(published)|] == old(published)
      ensures Progresses(published[|old(published)|..]) == RunProgress(env, |students|, |students|)
    {
      var base := |published|;
      results := [];
      successCount, duplicateCount, errorCount := 0, 0, 0;
      var total := |students|;
      for index := 0 to total
        invariant results == RowResults(students, env, index)
        invariant successCount == CountIn(results, RegisteredBucket)
        invariant duplicateCount == CountIn(results, DuplicateBucket)
        invariant errorCount == CountIn(results, ErrorBucket)
        invariant |published| >= base && published[..base] == old(published)
        invariant Progresses(published[base..]) == RunProgress(env, total, index)
        invariant photoSources == old(photoSources) && lastStudents == old(lastStudents)
      {
        var student := students[index];
        ghost var before := published;
        var result := ProcessRow(base, index, total, student, env(index), photoType, formatMegabytes);
        CountInSnoc(results, result);
        match BucketOf(result.status) {
          case RegisteredBucket => successCount := successCount + 1;
          case DuplicateBucket => duplicateCount := duplicateCount + 1;
          case ErrorBucket => errorCount := errorCount + 1;
        }
        results := results + [result];
        assert published[..base] == before[..base];
      }
    }

    /** `processCsvFile`: parse, run every row, end in a fresh state with the results and their counts. */
    method ProcessCsvFile(parse: CsvParse, env: nat -> RowEnv, photoType: string -> string, formatMegabytes: int -> string)
      modifies this
      ensures photoSources == old(photoSources) && lastStudents == old(lastStudents)
      ensures var parsing := ProcessingState(true, Fraction(0, 1), "Parsing CSV file...", old(state).estimatedTime, [], 0, 0, 0, "", "");
        && |published| >= |old(published)| + 2
        && published[..|old(published)| + 1] == old(published) + [parsing]
        && published[|published| - 1] == state
        && (parse.ParseThrew? ==>
              state == ProcessingState(false, Fraction(0, 1), "Processing failed: " + MessageText(parse.message), "", [], 0, 0, 1, "", ""))
        && (parse.Parsed? && parse.students == [] ==>
              state == parsing.(isProcessing := false, status := "No valid students found in CSV", errorCount := |parse.errors|))
        && (parse.Parsed? && parse.students != [] ==>
              state == FinishedState(RowResults(parse.students, env, |parse.students|))
              && Progresses(published[|old(published)| + 1..|published| - 1])
                 == RunProgress(env, |parse.students|, |parse.students|))
    {
      var parsing := ProcessingState(true, Fraction(0, 1), "Parsing CSV file...", state.estimatedTime, [], 0, 0, 0, "", "");
      Publish(parsing);
      var base := |published|;
      match parse {
        case ParseThrew(m) =>
          Publish(ProcessingState(false, Fraction(0, 1), "Processing failed: " + MessageText(m), "", [], 0, 0, 1, "", ""));
        case Parsed(students, errors) =>
          if students == [] {
            Publish(state.(isProcessing := false, status := "No valid students found in CSV", errorCount := |errors|));
            return;
          }
          var results, successCount, duplicateCount, errorCount := ProcessRows(students, env, photoType, formatMegabytes);
          ghost var before := published;
          Publish(ProcessingState(false, Fraction(0, 1), SuccessStatus(successCount), "", results,
                                  successCount, duplicateCount, errorCount, "", ""));
          assert published[base..|published| - 1] == before[base..];
      }
    }

    /**
     * One pass of the `for (sid in failedIds)` loop of `rerunFailed`: the
     * patched results and the three counts so far, after retrying `sid`.
     */
    method RetryFailed(acc: Rerun, sid: string, e: RowEnv) returns (next: Rerun)
      ensures next == RerunStep(acc, sid, lastStudents, e)
    {
      var newResults := acc.results;
      var addSuccess: int, addDuplicate: int, addError: int := acc.added, acc.duplicates, acc.errors;
      if sid !in lastStudents {
        var idx := IndexOfFirst(newResults, sid);
        if idx >= 0 {
          newResults := newResults[idx := newResults[idx].(status := ErrorStatus, error := Some(MissingCachedData))];
        }
        return Rerun(newResults, addSuccess, addDuplicate, addError + 1);
      }
      var student := lastStudents[sid];
      match e {
        case Completes(o, register) =>
          var result := ProcessStudentAndRegister(student, o, register);
          var idx := IndexOfFirst(newResults, sid);
          if idx >= 0 {
            newResults := newResults[idx := result];
          } else {
            newResults := newResults + [result];
          }
          match BucketOf(result.status) {
            case RegisteredBucket => addSuccess := addSuccess + 1;
            case DuplicateBucket => addDuplicate := addDuplicate + 1;
            case ErrorBucket => addError := addError + 1;
          }
        case Throws(m) =>
          var idx := IndexOfFirst(newResults, sid);
          var fallback := ProcessResult(sid, student.name, ErrorStatus, Some(m.GetOr("Re-run failed")), 0);
          if idx >= 0 {
            newResults := newResults[idx := fallback];
          } else {
            newResults := newResults + [fallback];
          }
          addError := addError + 1;
      }
      next := Rerun(newResults, addSuccess, addDuplicate, addError);
    }

    /**
     * `rerunFailed`: nothing happens while processing or without Error
     * entries; otherwise every failed ID is retried (the j-th as `env(j)`)
     * and patched in at the first position holding it, and the counts are
     * recomputed over the whole list.
     */
    method RerunFailed(env: nat -> RowEnv)
      requires Valid()
      modifies this
      ensures Valid() && lastStudents == old(lastStudents) && photoSources == old(photoSources)
      ensures var ids := FailedIds(old(state).results);
        if old(state).isProcessing || ids == [] then
          state == old(state) && published == old(published)
        else
          var acc := RerunLoop(old(state).results, ids, lastStudents, env, |ids|);
          && state == RerunState(old(state), acc)
          && published == old(published) + [old(state).(isProcessing := true, status := RerunningStatus(|ids|)), state]
    {
      var current := state;
      if current.isProcessing {
        return;
      }
      var failedIds := FailedIds(current.results);
      if failedIds == [] {
        return;
      }
      Publish(current.(isProcessing := true, status := RerunningStatus(|failedIds|)));
      ghost var started := published;
      var acc := Rerun(current.results, 0, 0, 0);
      for j := 0 to |failedIds|
        invariant acc == RerunLoop(current.results, failedIds, lastStudents, env, j)
        invariant lastStudents == old(lastStudents) && photoSources == old(photoSources) && published == started
      {
        acc := RetryFailed(acc, failedIds[j], env(j));
      }
      Publish(RerunState(current, acc));
    }
  }
}
