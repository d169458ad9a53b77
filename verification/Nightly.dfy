// The Mac nightly: take the run lock, start a clone, stage, bootstrap, run the
// jobs, and tear everything down again. Any outside call may fail, a signal may
// exit at any call outside the teardown, writing to the log may raise, and the
// quiet lock may be seen at any poll. The trace records what the run did; the proofs are about every trace.
module Nightly {

  /** A call returns, raises an exception, or is left by a signal. */
  datatype Outcome = Fine | Fails | Exits

  datatype Event =
    | Polled
    | QuietSeen
    | CloneStarted
    | BootstrapStarted
    | JobStarted(branch: string, main: bool)
    | Ended(start: Event, code: nat)
    | ExportFailed
    | Exported
    | CloneStopped
    | Published
    | StatusWritten(failed: bool)
    | BodyFailed
    | StepFailed
    | CutShort
    | LogRaised
    | UnlinkFailed
    | StatusRemoved
    | RmdirFailed
    | LockRemoved

  predicate IsStart(e: Event) {
    e.BootstrapStarted? || e.JobStarted?
  }

  predicate IsRelease(e: Event) {
    e.UnlinkFailed? || e.StatusRemoved? || e.RmdirFailed? || e.LockRemoved?
  }

  /** What is recorded of errors: the body or a step of the teardown failed, or a
      log call of the teardown raised, before the release or after it. */
  predicate IsTrouble(e: Event) {
    e.BodyFailed? || e.StepFailed? || e.CutShort? || e.LogRaised?
  }

  /** The body is not over. */
  predicate Early(trace: seq<Event>) {
    forall e :: e in trace ==> !IsRelease(e) && !IsTrouble(e)
  }

  /** The teardown has recorded no trouble and released nothing. */
  predicate Untorn(trace: seq<Event>) {
    LockFree(trace) && StepFailed !in trace && CutShort !in trace && LogRaised !in trace
  }

  lemma EarlyIsUntorn(trace: seq<Event>)
    requires Early(trace)
    ensures Untorn(trace) && BodyFailed !in trace
  {
  }

  /** Nothing has been released yet. */
  predicate LockFree(trace: seq<Event>) {
    forall e :: e in trace ==> !IsRelease(e)
  }

  lemma NothingReleased(trace: seq<Event>)
    requires LockFree(trace)
    ensures UnlinkFailed !in trace && StatusRemoved !in trace && RmdirFailed !in trace && LockRemoved !in trace
  {
  }

  predicate BootstrapEnded(e: Event) {
    e.Ended? && e.start.BootstrapStarted?
  }

  predicate NoBootstrapEnded(trace: seq<Event>) {
    forall e :: e in trace ==> !BootstrapEnded(e)
  }

  /** The quiet lock was polled just now and has never been seen; the clone stands. */
  predicate MayStart(before: seq<Event>) {
    before != [] && before[|before| - 1] == Polled && QuietSeen !in before && CloneStopped !in before
  }

  predicate IsJobFailure(e: Event) {
    e.ExportFailed? || (e.Ended? && e.start.JobStarted? && e.code != 0)
  }

  /** Something has failed: a job or its export, the body, or a step of the teardown. */
  predicate Marred(trace: seq<Event>) {
    exists e :: e in trace && (IsJobFailure(e) || e.BodyFailed? || e.StepFailed?)
  }

  /** What may happen behind a record: jobs only behind a bootstrap that succeeded,
      the one that there is; an end only of what was started, with the quiet lock
      polled just before; publication only of a stopped clone; and the last status
      says whether something has failed. */
  predicate Allowed(before: seq<Event>, e: Event) {
    match e
    case BootstrapStarted => MayStart(before) && NoBootstrapEnded(before)
    case JobStarted(_, _) => MayStart(before) && Ended(BootstrapStarted, 0) in before
    case Ended(start, _) =>
      && IsStart(start) && start in before
      && (before[|before| - 1] == Polled || before[|before| - 1] == QuietSeen)
      && (start.BootstrapStarted? ==> NoBootstrapEnded(before))
    case Published => CloneStopped in before
    case StatusWritten(failed) => failed <==> Marred(before)
    case _ => true
  }

  ghost predicate Orderly(trace: seq<Event>) {
    forall j :: 0 <= j < |trace| ==> Allowed(trace[..j], trace[j])
  }

  lemma OrderlyNext(trace: seq<Event>, e: Event)
    requires Orderly(trace) && Allowed(trace, e)
    ensures Orderly(trace + [e])
  {
    hide Allowed;
    var t := trace + [e];
    forall j | 0 <= j < |t| ensures Allowed(t[..j], t[j]) {
      if j < |trace| { assert t[..j] == trace[..j]; } else { assert t[..j] == trace; }
    }
  }

  ghost predicate NoStartAfter(trace: seq<Event>, e: Event) {
    forall i, j :: 0 <= i < j < |trace| && trace[i] == e ==> !IsStart(trace[j])
  }

  ghost predicate PublishedAfterStop(trace: seq<Event>) {
    forall j :: 0 <= j < |trace| && trace[j].Published? ==> CloneStopped in trace[..j]
  }

  /** Nothing is started once the quiet lock was seen or the clone stopped; results
      are published after the stop. */
  lemma OrderlyMeans(trace: seq<Event>)
    requires Orderly(trace)
    ensures NoStartAfter(trace, QuietSeen) && NoStartAfter(trace, CloneStopped) && PublishedAfterStop(trace)
  {
    forall i, j | 0 <= i < j < |trace| && IsStart(trace[j])
      ensures trace[i] != QuietSeen && trace[i] != CloneStopped
    {
      assert Allowed(trace[..j], trace[j]);
      assert trace[..j][i] == trace[i];
    }
    forall j | 0 <= j < |trace| && trace[j].Published? ensures CloneStopped in trace[..j] {
      assert Allowed(trace[..j], trace[j]);
    }
  }

  lemma EndedOnce(trace: seq<Event>, i: nat, k: nat)
    requires Orderly(trace) && i < k < |trace| && BootstrapEnded(trace[i])
    ensures !BootstrapEnded(trace[k])
  {
    assert Allowed(trace[..k], trace[k]);
    assert trace[..k][i] == trace[i] && trace[..k][i] in trace[..k];
  }

  lemma JobBehind(trace: seq<Event>, j: nat)
    requires Orderly(trace) && j < |trace| && trace[j].JobStarted?
    ensures Ended(BootstrapStarted, 0) in trace
  {
    assert Allowed(trace[..j], trace[j]);
    var k :| 0 <= k < j && trace[..j][k] == Ended(BootstrapStarted, 0);
    assert trace[k] == Ended(BootstrapStarted, 0);
  }

  /** The bootstrap ends once, and no job is started but behind its success. */
  lemma BootstrapDecides(trace: seq<Event>, code: nat)
    requires Orderly(trace) && Ended(BootstrapStarted, code) in trace
    ensures forall other :: Ended(BootstrapStarted, other) in trace ==> other == code
    ensures code != 0 ==> forall e :: e in trace ==> !e.JobStarted?
  {
    hide Orderly;
    var i :| 0 <= i < |trace| && trace[i] == Ended(BootstrapStarted, code);
    forall other | Ended(BootstrapStarted, other) in trace ensures other == code {
      var k :| 0 <= k < |trace| && trace[k] == Ended(BootstrapStarted, other);
      if i < k { EndedOnce(trace, i, k); }
      if k < i { EndedOnce(trace, k, i); }
    }
    forall e | e in trace && e.JobStarted? ensures code == 0 {
      var j :| 0 <= j < |trace| && trace[j] == e;
      JobBehind(trace, j);
    }
  }

  /** Both jobs of the branch were run to their end. */
  ghost predicate JobsDone(trace: seq<Event>, branch: string) {
    JobDone(trace, branch, true) && JobDone(trace, branch, false)
  }

  ghost predicate JobDone(trace: seq<Event>, branch: string, main: bool) {
    exists code :: Ended(JobStarted(branch, main), code) in trace
  }

  lemma JobsStay(trace: seq<Event>, more: seq<Event>)
    requires trace <= more
    ensures forall b, m :: JobDone(trace, b, m) ==> JobDone(more, b, m)
  {
    forall b, m | JobDone(trace, b, m) ensures JobDone(more, b, m) {
      var code :| Ended(JobStarted(b, m), code) in trace;
      assert Ended(JobStarted(b, m), code) in more;
    }
  }

  /** Failures are counted exactly when a job or its export failed. */
  ghost predicate Counted(trace: seq<Event>, failures: nat) {
    failures > 0 <==> exists e :: e in trace && IsJobFailure(e)
  }

  lemma CountedMarred(trace: seq<Event>, failures: nat, error: bool)
    requires Counted(trace, failures) && (error <==> BodyFailed in trace || StepFailed in trace)
    ensures error || failures > 0 <==> Marred(trace)
  {
  }

  lemma AlwaysAllowed(before: seq<Event>)
    ensures forall e :: !IsStart(e) && !e.Ended? && !e.Published? && !e.StatusWritten? ==> Allowed(before, e)
  {
  }

  lemma CountedStays(trace: seq<Event>, before: seq<Event>, failures: nat)
    requires Counted(before, failures) && before <= trace
    requires forall e :: e in trace && IsJobFailure(e) ==> e in before
    ensures Counted(trace, failures)
  {
  }

  lemma BootstrapTold(trace: seq<Event>)
    requires Orderly(trace)
    ensures forall n :: Ended(BootstrapStarted, n) in trace && n != 0 ==> forall e :: e in trace ==> !e.JobStarted?
  {
    hide Orderly;
    forall n | Ended(BootstrapStarted, n) in trace && n != 0 ensures forall e :: e in trace ==> !e.JobStarted? {
      BootstrapDecides(trace, n);
    }
  }

  lemma CountedJob(trace: seq<Event>, before: seq<Event>, failures: nat, start: Event, code: nat)
    requires Counted(before, failures) && before <= trace && Ended(start, code) in trace && start.JobStarted?
    requires forall e :: e in trace && IsJobFailure(e) ==> e in before || e == Ended(start, code)
    ensures Counted(trace, if code != 0 then failures + 1 else failures)
  {
    if code != 0 { assert IsJobFailure(Ended(start, code)); }
    if e :| e in before && IsJobFailure(e) { assert e in trace; }
  }

  lemma CountedExport(trace: seq<Event>, failures: nat)
    requires ExportFailed in trace && failures > 0
    ensures Counted(trace, failures)
  {
    assert IsJobFailure(ExportFailed);
  }

  lemma StillIn(before: seq<Event>, trace: seq<Event>, e: Event)
    requires before <= trace && e in before
    ensures e in trace
  {
  }

  lemma NotEnded(trace: seq<Event>, before: seq<Event>, start: Event)
    requires IsStart(start) && Allowed(before, start) && start in trace
    requires forall e :: e in trace && e.Ended? ==> e in before
    requires trace != [] && (trace[|trace| - 1] == Polled || trace[|trace| - 1] == QuietSeen)
    ensures forall code :: Allowed(trace, Ended(start, code))
  {
  }

  /** An outside call: nothing is known of its outcome. */
  method External() returns (r: Outcome) {
    r := *;
  }

  /** An outside call while signals are blocked. */
  method Blocked() returns (ok: bool) {
    ok := *;
  }

  /** How the calls of `acquire_lock` go. `made` and `gone` say whether a signal
      that left the `mkdir` or the `rmdir` came after the call had done its work. */
  datatype LockCalls = LockCalls(prepare: Outcome, busy: bool, log: Outcome, mkdir: Outcome, made: bool,
                                 status: Outcome, rmdir: Outcome, gone: bool)

  predicate Taken(c: LockCalls) {
    c.prepare.Fine? && !c.busy && c.mkdir.Fine? && c.status.Fine?
  }

  /** The lock directory was made. */
  predicate Made(c: LockCalls) {
    c.prepare.Fine? && !c.busy && (c.mkdir.Fine? || (c.mkdir.Exits? && c.made))
  }

  /** The status could not be written, and the lock was removed again. */
  predicate HandedBack(c: LockCalls) {
    c.mkdir.Fine? && c.status.Fails? && (c.rmdir.Fine? || (c.rmdir.Exits? && c.gone))
  }

  /** How the calls around the body go, and whether a signal comes between the
      lock and the `try`, between the body and the mask of the teardown, or is
      held back by that mask. */
  datatype Chances =
    Chances(checks: Outcome, lock: LockCalls, beforeTry: bool, beforeMask: bool, heldBack: bool, lastLog: Outcome)

  /** The teardown is reached. */
  predicate Reaches(c: Chances) {
    c.checks.Fine? && Taken(c.lock) && !c.beforeTry && !c.beforeMask
  }

  /** The lock is made, neither handed back nor left to a teardown. */
  predicate Abandons(c: Chances) {
    c.checks.Fine? && Made(c.lock) && !HandedBack(c.lock) && !Reaches(c)
  }

  class Run {
    // The orchestrator.
    var ownedLock: bool
    var quietStopped: bool
    var stopOk: bool
    var publishedOk: bool
    var sessionSaved: bool
    var staged: bool
    var failures: nat
    var error: bool
    // The clone's handle.
    var sessionId: bool
    var session: bool
    var startProcess: bool
    var activeTask: bool
    var supervisor: bool
    // The disk and the machine.
    ghost var lockOnDisk: bool
    ghost var cloneAlive: bool
    ghost var trace: seq<Event>

    constructor ()
      ensures Safe() && Live() && trace == [] && !lockOnDisk && !ownedLock && failures == 0
      ensures !error && !startProcess && !sessionId && !publishedOk && !cloneAlive
    {
      ownedLock, quietStopped, stopOk, publishedOk := false, false, false, false;
      sessionSaved, staged, failures, error := false, false, 0, false;
      sessionId, session, startProcess, activeTask, supervisor := false, false, false, false, false;
      lockOnDisk, cloneAlive, trace := false, false, [];
    }

    /** What holds at every moment, whatever is being thrown. */
    ghost predicate Safe()
      reads this
    {
      && Orderly(trace)
      && (cloneAlive || session ==> sessionId)
      && (stopOk ==> !sessionId && CloneStopped in trace)
      && (quietStopped ==> QuietSeen in trace)
      && (CloneStarted in trace ==> sessionId || CloneStopped in trace)
      && (sessionSaved ==> session || CloneStopped in trace)
    }

    /** No exception is under way: a quiet lock once seen is remembered, the clone is not stopped. */
    ghost predicate Live()
      reads this
    {
      (QuietSeen in trace ==> quietStopped) && CloneStopped !in trace && !stopOk
    }

    /** The fields a step of the run body leaves alone. */
    twostate predicate BodyFrame()
      reads this
    {
      && old(trace) <= trace && ownedLock == old(ownedLock) && lockOnDisk == old(lockOnDisk)
      && stopOk == old(stopOk) && publishedOk == old(publishedOk) && error == old(error)
      && (CloneStopped !in old(trace) ==> CloneStopped !in trace)
      && (Early(old(trace)) ==> Early(trace))
    }

    method Record(e: Event)
      requires Safe()
      requires Allowed(trace, e) && (e.CloneStarted? ==> sessionId)
      modifies this`trace
      ensures Safe() && trace == old(trace) + [e]
      ensures LockFree(old(trace)) && !IsRelease(e) ==> LockFree(trace)
      ensures Early(old(trace)) && !IsRelease(e) && !IsTrouble(e) ==> Early(trace)
    {
      OrderlyNext(trace, e);
      trace := trace + [e];
    }

    /** Record what may always happen. */
    method Note(e: Event)
      requires Safe() && (e.CloneStarted? ==> sessionId)
      requires !IsStart(e) && !e.Ended? && !e.Published? && !e.StatusWritten?
      modifies this`trace
      ensures Safe() && trace == old(trace) + [e]
      ensures LockFree(old(trace)) && !IsRelease(e) ==> LockFree(trace)
      ensures Early(old(trace)) && !IsRelease(e) && !IsTrouble(e) ==> Early(trace)
    {
      hide Orderly, LockFree, Early, Allowed;
      AlwaysAllowed(trace);
      Record(e);
    }

    /** Nothing was started or brought to its end. */
    twostate predicate NoRun()
      reads this
    {
      forall e :: e in trace && (IsStart(e) || e.Ended? || e.ExportFailed?) ==> e in old(trace)
    }

    // ---------------------------------------------------------------------
    // The quiet lock
    // ---------------------------------------------------------------------

    method SyncQuietLock() returns (r: Outcome, stopped: bool)
      requires Safe() && Live()
      modifies this`quietStopped, this`trace
      ensures Safe() && BodyFrame() && NoRun() && (r.Fine? ==> Live() && stopped == quietStopped)
      ensures r.Fine? && !stopped ==> MayStart(trace)
      ensures trace != [] && (trace[|trace| - 1] == Polled || trace[|trace| - 1] == QuietSeen)
      ensures CloneStarted in trace ==> CloneStarted in old(trace)
    {
      hide Orderly, LockFree, Early, Allowed, Marred;
      r, stopped := Fine, false;
      Note(Polled);
      var present: bool := *;
      if present {
        Note(QuietSeen);
        if !quietStopped {
          r := External();
          if !r.Fine? { return; }
        }
        quietStopped := true;
      }
      stopped := quietStopped;
    }

    /** A poll of the run body, which logs that it stops. */
    method PollQuietLock() returns (r: Outcome, stopped: bool)
      requires Safe() && Live()
      modifies this`quietStopped, this`trace
      ensures Safe() && BodyFrame() && NoRun() && (r.Fine? ==> Live() && stopped == quietStopped)
      ensures r.Fine? && !stopped ==> MayStart(trace)
      ensures CloneStarted in trace ==> CloneStarted in old(trace)
      ensures Counted(old(trace), failures) ==> Counted(trace, failures)
    {
      hide Orderly, LockFree, Early, Allowed, Marred;
      r, stopped := SyncQuietLock();
      if Counted(old(trace), failures) { CountedStays(trace, old(trace), failures); }
      if r.Fine? && stopped { r := External(); }
    }

    // ---------------------------------------------------------------------
    // The clone
    // ---------------------------------------------------------------------

    method TerminateStart() returns (r: Outcome, ended: bool)
      requires Safe()
      modifies this`startProcess
      ensures Safe() && (r.Fine? && ended ==> !startProcess)
    {
      r, ended := Fine, true;
      if !startProcess { return; }
      r := External();
      if !r.Fine? { return; }
      ended := *;
      if !ended { return; }
      startProcess := false;
      r := External();
    }

    /** Start the clone. Returning without a session means the quiet lock stopped the start. */
    method StartClone() returns (r: Outcome)
      requires Safe() && Live() && !sessionId && !startProcess && CloneStarted !in trace
      modifies this`quietStopped, this`trace, this`sessionId, this`session, this`startProcess, this`cloneAlive
      ensures Safe() && BodyFrame() && NoRun() && (r.Fine? ==> Live() && (!session ==> quietStopped))
    {
      hide Orderly, LockFree, Early, Allowed, Marred;
      r := External();
      if !r.Fine? { return; }
      sessionId := true;
      r := External();
      if !r.Fine? { return; }
      r := External();
      if !r.Fine? {
        sessionId := false;
        return;
      }
      startProcess, cloneAlive := true, true;
      Note(CloneStarted);
      var stopped, floor;
      r, stopped, floor := AwaitStart();
      if !r.Fine? || stopped { return; }
      startProcess := false;
      r := External();
      if !r.Fine? { return; }
      session := true;
      r := External();
      if r.Fine? && floor { r := Fails; }
    }

    /** Wait for the start to return. The quiet lock stops it; a full disk is only noted. */
    method AwaitStart() returns (r: Outcome, stopped: bool, floor: bool)
      requires Safe() && Live() && sessionId
      modifies this`quietStopped, this`trace, this`startProcess
      ensures Safe() && BodyFrame() && NoRun() && (r.Fine? ==> Live() && (stopped ==> quietStopped))
    {
      hide Orderly, LockFree, Early, Allowed, Marred;
      stopped, floor := false, false;
      var turns: int := *;
      while turns > 0
        invariant Safe() && Live() && BodyFrame() && NoRun()
      {
        turns := turns - 1;
        r, stopped := SyncQuietLock();
        if !r.Fine? { return; }
        if stopped {
          r := External();
          if !r.Fine? { return; }
          var ended;
          r, ended := TerminateStart();
          if r.Fine? && !ended { r := Fails; }
          return;
        }
        r := External();
        if r.Exits? { return; }
        if r.Fails? {
          floor := true;
          r := External();
          if !r.Fine? { return; }
        }
      }
      r := External();
    }

    method TerminateActive() returns (r: Outcome, ended: bool)
      requires Safe()
      modifies this`activeTask
      ensures Safe()
    {
      r, ended := Fine, true;
      if !session || !activeTask { return; }
      r := External();
      if !r.Fine? { return; }
      ended := *;
      if !ended {
        r := External();
        if !r.Fine? { return; }
      }
      activeTask := false;
    }

    /** Run one guest command under supervision, polling the quiet lock. Its exit
        code is recorded exactly when the command came to its end. */
    method RunSupervised(start: Event) returns (r: Outcome, code: nat)
      requires Safe() && Live() && IsStart(start) && Allowed(trace, start)
      modifies this`quietStopped, this`trace, this`activeTask
      ensures Safe() && BodyFrame() && (r.Fine? ==> Live())
      ensures r.Fine? ==> Ended(start, code) in trace
      ensures forall e :: e in trace && e.Ended? ==> e in old(trace) || (r.Fine? && e == Ended(start, code))
      ensures ExportFailed in trace ==> ExportFailed in old(trace)
    {
      hide Orderly, LockFree, Early, Allowed, Marred;
      code := 0;
      if !session || !supervisor { return Fails, code; }
      Record(start);
      ghost var begun := trace;
      assert begun[|begun| - 1] == start;
      r := External();
      if !r.Fine? { return; }
      activeTask := true;
      var diskAbort := false;
      r, diskAbort := Supervise();
      if !r.Fine? { return; }
      activeTask := false;
      if diskAbort { return Fails, code; }
      code := *;
      assert begun[|begun| - 1] in trace;
      NotEnded(trace, old(trace), start);
      Record(Ended(start, code));
    }

    /** Wait for the end of the command, polling the quiet lock at every turn. */
    method Supervise() returns (r: Outcome, diskAbort: bool)
      requires Safe() && Live()
      modifies this`quietStopped, this`trace, this`activeTask
      ensures Safe() && BodyFrame() && NoRun() && (r.Fine? ==> Live())
      ensures r.Fine? ==> trace != [] && (trace[|trace| - 1] == Polled || trace[|trace| - 1] == QuietSeen)
    {
      hide Orderly, LockFree, Early, Allowed, Marred;
      diskAbort := false;
      var turns: int := *;
      turns := if turns < 1 then 1 else turns;
      var first := turns;
      while turns > 0
        invariant turns <= first && Safe() && Live() && BodyFrame() && NoRun()
        invariant turns < first ==> trace != [] && (trace[|trace| - 1] == Polled || trace[|trace| - 1] == QuietSeen)
      {
        if !diskAbort {
          r := External();
          if r.Exits? { return; }
          if r.Fails? {
            diskAbort := true;
            r := External();
            if !r.Fine? { return; }
            var ended;
            r, ended := TerminateActive();
            if !r.Fine? { return; }
            if !ended { return Fails, diskAbort; }
          }
        }
        turns := turns - 1;
        var stopped: bool;
        r, stopped := SyncQuietLock();
        if !r.Fine? { return; }
        r := External();
        if !r.Fine? { return; }
      }
      r := External();
    }

    /** Its last log call stands before the session is given up, so a clone that
        was stopped may keep its session id. */
    method StopClone() returns (ok: bool)
      requires Safe() && !stopOk
      modifies this`sessionId, this`session, this`startProcess, this`cloneAlive, this`trace
      ensures Safe()
      ensures ok ==> !sessionId && !cloneAlive && (old(sessionId) ==> CloneStopped in trace)
      ensures !ok ==> sessionId == old(sessionId) && session == old(session)
      ensures !ok && cloneAlive != old(cloneAlive) ==> !cloneAlive && CloneStopped in trace
      ensures trace == old(trace) || trace == old(trace) + [CloneStopped]
      ensures LockFree(old(trace)) ==> LockFree(trace)
      ensures startProcess ==> old(startProcess)
    {
      if !sessionId { return true; }
      ok := Blocked();
      if !ok { return; }
      Note(CloneStopped);
      cloneAlive := false;
      ok := Blocked();
      if !ok { return; }
      session, sessionId, startProcess := false, false, false;
    }

    // ---------------------------------------------------------------------
    // The orchestrator
    // ---------------------------------------------------------------------

    /** Take the run lock. Only an exception hands a lock without a status back;
        a signal leaves it, and so does a failing `rmdir`. */
    method AcquireLock(c: LockCalls) returns (r: Outcome, taken: bool)
      requires Safe() && !ownedLock && !lockOnDisk
      modifies this`ownedLock, this`lockOnDisk
      ensures Safe()
      ensures lockOnDisk <==> Made(c) && !HandedBack(c)
      ensures taken <==> Taken(c)
      ensures taken ==> r.Fine? && ownedLock && lockOnDisk
      ensures r.Fine? ==> ownedLock == lockOnDisk == taken
    {
      taken, r := false, c.prepare;
      if !r.Fine? { return; }
      if c.busy { return c.log, false; }
      r := c.mkdir;
      if !r.Fine? {
        lockOnDisk := r.Exits? && c.made;
        return;
      }
      ownedLock, lockOnDisk := true, true;
      r := c.status;
      if r.Fails? {
        if c.rmdir.Fine? {
          ownedLock, lockOnDisk := false, false;
        } else {
          r := c.rmdir;
          lockOnDisk := !(r.Exits? && c.gone);
        }
        return;
      }
      taken := r.Fine?;
    }

    method StageInputs() returns (r: Outcome)
      requires Safe() && Live()
      modifies this`staged, this`supervisor
      ensures Safe() && Live()
    {
      if !session { return Fails; }
      staged := true;
      r := External();
      if !r.Fine? { return; }
      supervisor := true;
      r := External();
    }

    /** The bootstrap succeeds or raises. */
    method RunBootstrap() returns (r: Outcome)
      requires Safe() && Live() && MayStart(trace) && NoBootstrapEnded(trace)
      modifies this`quietStopped, this`trace, this`activeTask
      ensures Safe() && BodyFrame() && (r.Fine? ==> Live())
      ensures r.Fine? ==> Ended(BootstrapStarted, 0) in trace
      ensures forall e :: e in trace && IsJobFailure(e) ==> e in old(trace)
    {
      if !staged || !session { return Fails; }
      r := External();
      if !r.Fine? { return; }
      var code;
      r, code := RunSupervised(BootstrapStarted);
      if !r.Fine? { return; }
      if code != 0 { return Fails; }
      r := External();
    }

    /** One job; `stop` tells the loop over the jobs to end. */
    method RunJob(branch: string, main: bool) returns (r: Outcome, stop: bool)
      requires Safe() && Live() && Ended(BootstrapStarted, 0) in trace && Counted(trace, failures)
      modifies this`quietStopped, this`trace, this`activeTask, this`failures
      ensures Safe() && BodyFrame() && (r.Fine? ==> Live())
      ensures failures >= old(failures) && Counted(trace, failures)
      ensures r.Fine? ==> stop == quietStopped && (JobDone(trace, branch, main) || stop)
    {
      hide Orderly, LockFree, Early, Allowed, Marred, Counted, JobDone, IsJobFailure;
      r, stop := PollQuietLock();
      if !r.Fine? || stop { return; }
      r := External();
      if !r.Fine? { return; }
      r, stop := PollQuietLock();
      if !r.Fine? || stop { return; }
      r := StartJob(branch, main);
      if !r.Fine? { return; }
      ghost var run := trace;
      r, stop := PollQuietLock();
      JobsStay(run, trace);
    }

    /** Run the job and count it when it failed. */
    method StartJob(branch: string, main: bool) returns (r: Outcome)
      requires Safe() && Live() && MayStart(trace) && Ended(BootstrapStarted, 0) in trace && Counted(trace, failures)
      modifies this`quietStopped, this`trace, this`activeTask, this`failures
      ensures Safe() && BodyFrame() && (r.Fine? ==> Live())
      ensures failures >= old(failures) && Counted(trace, failures)
      ensures r.Fine? ==> JobDone(trace, branch, main)
    {
      assert Allowed(trace, JobStarted(branch, main));
      hide Orderly, LockFree, Early, Allowed, Marred;
      var code;
      r, code := RunSupervised(JobStarted(branch, main));
      if !r.Fine? {
        CountedStays(trace, old(trace), failures);
        return;
      }
      assert JobDone(trace, branch, main);
      ghost var run := trace;
      r := ReportJob(branch, main, code, old(trace));
      JobsStay(run, trace);
    }

    /** A job that failed, or whose results could not be exported, is a failure of the run. */
    method ReportJob(branch: string, main: bool, code: nat, ghost before: seq<Event>) returns (r: Outcome)
      requires Safe() && Live() && Ended(JobStarted(branch, main), code) in trace
      requires before <= trace && Counted(before, failures)
      requires forall e :: e in trace && IsJobFailure(e) ==> e in before || e == Ended(JobStarted(branch, main), code)
      modifies this`failures, this`trace
      ensures Safe() && BodyFrame() && Live()
      ensures failures >= old(failures) && Counted(trace, failures)
      ensures code != 0 ==> failures > old(failures)
    {
      hide Orderly, LockFree, Early, Allowed, Marred, Counted, IsJobFailure;
      CountedJob(trace, before, failures, JobStarted(branch, main), code);
      if code != 0 {
        failures := failures + 1;
        r := External();
        if !r.Fine? { return; }
      }
      r := External();
      if r.Fails? {
        failures := failures + 1;
        Note(ExportFailed);
        CountedExport(trace, failures);
        r := External();
      }
    }

    method RunBranch(branch: string) returns (r: Outcome)
      requires Safe() && Live() && Ended(BootstrapStarted, 0) in trace && Counted(trace, failures)
      modifies this`quietStopped, this`trace, this`activeTask, this`failures
      ensures Safe() && BodyFrame() && (r.Fine? ==> Live())
      ensures failures >= old(failures) && Counted(trace, failures)
      ensures r.Fine? && !quietStopped ==> JobsDone(trace, branch)
    {
      hide Orderly, LockFree, Early, Counted, JobDone;
      r := External();
      if !r.Fine? { return; }
      var stop;
      r, stop := RunJob(branch, true);
      if !r.Fine? { return; }
      if !stop {
        ghost var first := trace;
        r, stop := RunJob(branch, false);
        JobsStay(first, trace);
        if !r.Fine? { return; }
      }
      r := External();
    }

    method RunBranches(branches: seq<string>) returns (r: Outcome)
      requires Safe() && Live() && Ended(BootstrapStarted, 0) in trace && Counted(trace, failures)
      modifies this`quietStopped, this`trace, this`activeTask, this`failures
      ensures Safe() && BodyFrame() && Counted(trace, failures)
      ensures r.Fine? && !quietStopped ==> forall b :: b in branches ==> JobsDone(trace, b)
    {
      hide Orderly, LockFree, Early, Counted, JobDone;
      r := Fine;
      for i := 0 to |branches|
        invariant Safe() && Live() && BodyFrame() && Counted(trace, failures) && r.Fine?
        invariant forall k :: 0 <= k < i ==> JobsDone(trace, branches[k])
      {
        ghost var before := trace;
        var stopped: bool;
        r, stopped := PollQuietLock();
        if !r.Fine? || stopped { return; }
        r := RunBranch(branches[i]);
        JobsStay(before, trace);
        if !r.Fine? || quietStopped { return; }
      }
    }

    /** What the body leaves when it did not raise: the bootstrap succeeded or was
        never run, and without a quiet lock every job of every branch was run. */
    ghost predicate Done(branches: seq<string>)
      reads this
    {
      && (forall code :: Ended(BootstrapStarted, code) in trace ==> code == 0)
      && (QuietSeen !in trace ==> forall b :: b in branches ==> JobsDone(trace, b))
    }

    /** The `try` part of the run. */
    method Body(branches: seq<string>) returns (r: Outcome)
      requires Safe() && Live() && !sessionId && !startProcess && trace == [] && failures == 0 && !sessionSaved
      modifies this
      ensures Safe() && BodyFrame() && Counted(trace, failures)
      ensures r.Fine? ==> Done(branches)
    {
      hide Orderly, LockFree, Early, Allowed, Marred;
      var stopped: bool;
      r, stopped := PollQuietLock();
      if !r.Fine? || stopped { return; }
      r := StartClone();
      if !r.Fine? { return; }
      sessionSaved := session;
      r := External();
      if !r.Fine? { return; }
      r := InClone(branches);
    }

    /** Everything that is done in the clone. */
    method InClone(branches: seq<string>) returns (r: Outcome)
      requires Safe() && Live() && Counted(trace, failures) && forall e :: e in trace ==> !e.Ended?
      modifies this`staged, this`supervisor, this`quietStopped, this`trace, this`activeTask, this`failures
      ensures Safe() && BodyFrame() && Counted(trace, failures)
      ensures r.Fine? ==> Done(branches)
    {
      hide Orderly, LockFree, Early, Allowed, Marred;
      var stopped: bool;
      r, stopped := PollQuietLock();
      if !r.Fine? || stopped { return; }
      r := StageInputs();
      if !r.Fine? { return; }
      r, stopped := PollQuietLock();
      if !r.Fine? || stopped { return; }
      r := RunBootstrap();
      if !r.Fine? { return; }
      r := RunBranches(branches);
      BootstrapDecides(trace, 0);
    }

    /** Copy the results out; only ever called once the clone is stopped. */
    method Publish() returns (ok: bool)
      requires Safe() && stopOk
      modifies this`publishedOk, this`trace
      ensures Safe() && stopOk && (trace == old(trace) || trace == old(trace) + [Published])
      ensures ok && sessionSaved ==> Published in trace && publishedOk
      ensures LockFree(old(trace)) ==> LockFree(trace)
    {
      if !sessionSaved { return true; }
      ok := Blocked();
      if !ok { return; }
      Record(Published);
      ok := Blocked();
      if !ok { return; }
      publishedOk := true;
      var empty: bool := *;
      if empty { ok := Blocked(); }
    }

    /** Events are only added, and none says that the body failed. */
    twostate predicate Later()
      reads this
    {
      old(trace) <= trace && (BodyFailed in trace <==> BodyFailed in old(trace)) && NoRun()
    }

    /** No trouble of a teardown is added. */
    twostate predicate SameTrouble()
      reads this
    {
      && (StepFailed in trace <==> StepFailed in old(trace)) && (CutShort in trace <==> CutShort in old(trace))
      && (LogRaised in trace <==> LogRaised in old(trace))
    }

    /** Give the status file and the lock back; false when the status file stays. */
    method Release() returns (ok: bool)
      requires Safe() && LockFree(trace) && ownedLock && lockOnDisk && !sessionId
      modifies this`trace, this`lockOnDisk
      ensures Safe() && Later() && SameTrouble()
      ensures ok <==> StatusRemoved in trace
      ensures ok <==> UnlinkFailed !in trace
      ensures !lockOnDisk <==> ok && RmdirFailed !in trace
      ensures !lockOnDisk <==> LockRemoved in trace
    {
      hide Orderly, LockFree, Early, Allowed, Marred;
      NothingReleased(trace);
      ok := Blocked();
      if !ok {
        Note(UnlinkFailed);
        return;
      }
      Note(StatusRemoved);
      var removed := Blocked();
      if removed {
        Note(LockRemoved);
        lockOnDisk := false;
      } else {
        Note(RmdirFailed);
      }
    }

    /** The error to raise is that of the body or of a step of the teardown. */
    ghost predicate Told()
      reads this
    {
      error <==> BodyFailed in trace || StepFailed in trace
    }

    /** A step of the teardown failed: that is logged, and the error is kept. When
        the log raises, the teardown is left there and then. */
    method Failed() returns (ok: bool)
      requires Safe()
      modifies this`trace, this`error
      ensures Safe() && trace == old(trace) + [if ok then StepFailed else CutShort]
      ensures old(Told()) ==> Told()
      ensures LockFree(old(trace)) ==> LockFree(trace)
    {
      ok := Blocked();
      if ok { error := true; }
      Note(if ok then StepFailed else CutShort);
    }

    /** End what runs and export the results; false when a log call raised. */
    method EndWork() returns (ok: bool)
      requires Safe() && Untorn(trace) && Told()
      modifies this`startProcess, this`activeTask, this`sessionSaved, this`error, this`trace
      ensures Safe() && LockFree(trace) && LogRaised !in trace && Later()
      ensures ok <==> CutShort !in trace
      ensures ok && startProcess ==> StepFailed in trace
      ensures ok && session ==> sessionSaved && (Exported in trace || StepFailed in trace)
      ensures sessionSaved ==> old(sessionSaved) || session
      ensures Told()
    {
      hide Orderly, LockFree, Allowed, Marred, IsJobFailure;
      ok := EndStart();
      if !ok { return; }
      var r, ended := TerminateActive();
      if !r.Fine? {
        Note(CutShort);
        return false;
      }
      if session {
        var wrote;
        ok, wrote := Export();
      }
    }

    method EndStart() returns (ok: bool)
      requires Safe() && Untorn(trace) && Told()
      modifies this`startProcess, this`error, this`trace
      ensures Safe() && LockFree(trace) && LogRaised !in trace && Later() && Told()
      ensures ok <==> CutShort !in trace
      ensures ok && startProcess ==> StepFailed in trace
    {
      hide Orderly, LockFree, Allowed, Marred, IsJobFailure;
      ok := true;
      var r, ended := TerminateStart();
      if !r.Fine? {
        Note(CutShort);
        return false;
      }
      if !ended { ok := Failed(); }
    }

    method Export() returns (ok: bool, wrote: Event)
      requires Safe() && session && Told()
      modifies this`sessionSaved, this`error, this`trace
      ensures Safe() && sessionSaved && Told() && (LockFree(old(trace)) ==> LockFree(trace))
      ensures trace == old(trace) + [wrote]
      ensures if ok then wrote == Exported || wrote == StepFailed else wrote == CutShort
    {
      hide Orderly, LockFree, Allowed, Marred, IsJobFailure;
      sessionSaved := true;
      wrote := Exported;
      ok := Blocked();
      if ok {
        Note(Exported);
      } else {
        ok := Failed();
        wrote := if ok then StepFailed else CutShort;
      }
    }

    /** The steps before the release; false when a log call raised. */
    method Close() returns (ok: bool)
      requires Safe() && Untorn(trace) && !stopOk && Told()
      modifies this`startProcess, this`activeTask, this`sessionSaved, this`sessionId, this`session,
        this`cloneAlive, this`stopOk, this`publishedOk, this`error, this`trace
      ensures Safe() && LockFree(trace) && LogRaised !in trace && Later()
      ensures stopOk ==> !sessionId
      ensures ok <==> CutShort !in trace
      ensures ok && (sessionId || startProcess) ==> StepFailed in trace
      ensures ok && old(session) && StepFailed !in trace ==>
        Exported in trace && CloneStopped in trace && Published in trace && publishedOk
      ensures Told()
      ensures sessionSaved ==> old(sessionSaved) || old(session)
    {
      hide Orderly, LockFree, Allowed, Marred;
      ok := EndWork();
      if !ok { return; }
      ok := StopAndPublish();
    }

    /** Stop the clone and, when that worked, publish the results. */
    method StopAndPublish() returns (ok: bool)
      requires Safe() && LockFree(trace) && LogRaised !in trace && CutShort !in trace && !stopOk && Told()
      modifies this`sessionId, this`session, this`startProcess, this`cloneAlive, this`stopOk, this`publishedOk,
        this`error, this`trace
      ensures Safe() && LockFree(trace) && LogRaised !in trace && Later() && Told()
      ensures stopOk ==> !sessionId
      ensures ok <==> CutShort !in trace
      ensures ok && sessionId ==> StepFailed in trace
      ensures ok && old(sessionId) && StepFailed !in trace ==>
        CloneStopped in trace && (old(sessionSaved) ==> Published in trace && publishedOk)
      ensures StepFailed in old(trace) ==> StepFailed in trace
      ensures startProcess ==> old(startProcess)
    {
      hide Orderly, LockFree, Allowed, Marred, IsJobFailure;
      ok := true;
      if !sessionId { return; }
      stopOk := StopClone();
      if !stopOk {
        ok := Failed();
        return;
      }
      ok := PublishResults();
    }

    method PublishResults() returns (ok: bool)
      requires Safe() && stopOk && LockFree(trace) && LogRaised !in trace && CutShort !in trace && Told()
      modifies this`publishedOk, this`error, this`trace
      ensures Safe() && stopOk && LockFree(trace) && LogRaised !in trace && Later() && Told()
      ensures ok <==> CutShort !in trace
      ensures ok && sessionSaved && StepFailed !in trace ==> Published in trace && publishedOk
    {
      hide Orderly, LockFree, Allowed, Marred, IsJobFailure;
      ok := Publish();
      if !ok { ok := Failed(); }
    }

    /** The `finally` part, signals blocked: export, stop the clone, publish, write
        the status, release. */
    method TearDown() returns (raised: bool)
      requires Safe() && Untorn(trace) && ownedLock && lockOnDisk && !stopOk && Told() && Counted(trace, failures)
      modifies this
      ensures Safe() && Later() && failures == old(failures)
      ensures Settled() && (raised <==> Raised())
      ensures sessionId || startProcess ==> StepFailed in trace || CutShort in trace
      ensures StepFailed !in trace && !raised ==> StatusWritten(error || failures > 0) in trace
      ensures StepFailed !in trace && !raised && old(session) ==>
        Exported in trace && CloneStopped in trace && Published in trace && publishedOk
      ensures Told()
      ensures sessionSaved ==> old(sessionSaved) || old(session)
    {
      hide Orderly, LockFree, Early, Allowed, Marred, Counted;
      var whole := Close();
      if !whole {
        NothingReleased(trace);
        return true;
      }
      CountedStays(trace, old(trace), failures);
      raised := Settle();
    }

    /** Write the last status, give the lock back, clear the share. The log call of
        the status may raise, but the release comes first. */
    method Settle() returns (raised: bool)
      requires Safe() && LockFree(trace) && LogRaised !in trace && CutShort !in trace && ownedLock && lockOnDisk
      requires (stopOk ==> !sessionId) && Told() && Counted(trace, failures)
      modifies this`trace, this`error, this`lockOnDisk
      ensures Safe() && Later() && Told() && CutShort !in trace
      ensures Settled() && (raised <==> Raised())
      ensures StepFailed !in trace && !raised ==> StatusWritten(error || failures > 0) in trace
      ensures StepFailed in old(trace) ==> StepFailed in trace
    {
      hide Orderly, LockFree, Early, Allowed, Marred, Counted, IsJobFailure;
      var logged, wrote := LastStatus();
      ghost var written := trace;
      assert written[|written| - 1] == wrote;
      raised := GiveBack(logged);
      StillIn(written, trace, wrote);
    }

    /** Give the lock back when no session is left, and clear the share. */
    method GiveBack(logged: bool) returns (raised: bool)
      requires Safe() && LockFree(trace) && CutShort !in trace && ownedLock && lockOnDisk && (stopOk ==> !sessionId)
      requires logged <==> LogRaised !in trace
      modifies this`trace, this`lockOnDisk
      ensures Safe() && Later() && CutShort !in trace && (StepFailed in trace <==> StepFailed in old(trace))
      ensures Settled() && (raised <==> Raised())
    {
      hide Orderly, LockFree, Early, Allowed, Marred, Counted, IsJobFailure;
      NothingReleased(trace);
      if stopOk || !sessionId {
        var released := Release();
        if !released { return true; }
      }
      raised := !logged;
      if logged {
        var cleared := ClearShare();
        raised := !cleared;
      }
    }

    /** The last status; false when it could not be written, and that not be logged. */
    method LastStatus() returns (logged: bool, wrote: Event)
      requires Safe() && Told() && Counted(trace, failures)
      modifies this`trace, this`error
      ensures Safe() && trace == old(trace) + [wrote] && Told()
      ensures !logged ==> wrote == LogRaised
      ensures logged ==> wrote == StepFailed || (wrote == StatusWritten(error || failures > 0) && error == old(error))
      ensures LockFree(old(trace)) ==> LockFree(trace)
    {
      hide Orderly, LockFree, Early, Allowed, Marred;
      logged := true;
      var written := Blocked();
      if written {
        wrote := StatusWritten(error || failures > 0);
        CountedMarred(trace, failures, error);
      } else {
        logged := Blocked();
        if logged { error := true; }
        wrote := if logged then StepFailed else LogRaised;
      }
      Record(wrote);
    }

    /** What the guest left on the share is removed; only the log can raise. */
    method ClearShare() returns (logged: bool)
      requires Safe()
      modifies this`trace
      ensures Safe() && trace == if logged then old(trace) else old(trace) + [LogRaised]
    {
      logged := true;
      if !stopOk || !publishedOk || !sessionSaved { return; }
      var cleared := Blocked();
      if !cleared {
        logged := Blocked();
        if !logged { Note(LogRaised); }
      }
    }

    /** The teardown itself raised. */
    ghost predicate Raised()
      reads this
    {
      CutShort in trace || LogRaised in trace || UnlinkFailed in trace
    }

    /** The lock and the status file after a teardown: given back exactly when it was
        not cut short, no session is left and the file system lets them go. */
    ghost predicate Settled()
      reads this
    {
      && (StatusRemoved in trace <==> CutShort !in trace && !sessionId && UnlinkFailed !in trace)
      && (!lockOnDisk <==> CutShort !in trace && !sessionId && UnlinkFailed !in trace && RmdirFailed !in trace)
      && (LockRemoved in trace <==> !lockOnDisk)
    }

    /** One whole run. */
    method Go(branches: seq<string>, c: Chances) returns (raised: bool, code: nat)
      requires Safe() && Live() && trace == [] && !lockOnDisk && !ownedLock && failures == 0
      requires !sessionId && !startProcess && !publishedOk && !error && !sessionSaved
      modifies this
      ensures Safe()
      ensures !lockOnDisk ==> !cloneAlive && !sessionId
      // The lock stays exactly when it was abandoned, or the teardown could not let it go.
      ensures lockOnDisk <==>
        || Abandons(c)
        || (Reaches(c) && (sessionId || CutShort in trace || UnlinkFailed in trace || RmdirFailed in trace))
      ensures StatusRemoved in trace <==> Reaches(c) && CutShort !in trace && !sessionId && UnlinkFailed !in trace
      ensures Reaches(c) ==> Settled()
      ensures Abandons(c) ==> raised
      ensures !(c.checks.Fine? && Taken(c.lock)) ==> trace == [] && !cloneAlive && !sessionId
      // It raises exactly when anything failed but a job, and returns whether a job failed.
      ensures Reaches(c) ==> (raised <==>
        || c.heldBack || BodyFailed in trace || StepFailed in trace || Raised()
        || (failures > 0 && !c.lastLog.Fine?))
      ensures Reaches(c) && !raised ==>
        !sessionId && !cloneAlive && !startProcess && StatusRemoved in trace && (code == 0 <==> failures == 0)
      // A bootstrap that failed fails the run, and no job is started.
      ensures forall n :: Ended(BootstrapStarted, n) in trace && n != 0 ==>
        raised && (Reaches(c) ==> BodyFailed in trace) && forall e :: e in trace ==> !e.JobStarted?
      // Otherwise, and without a quiet lock, every job is run; the count and the status tell of failures.
      ensures Reaches(c) && BodyFailed !in trace && QuietSeen !in trace ==>
        forall b :: b in branches ==> JobsDone(trace, b)
      ensures Reaches(c) ==> Counted(trace, failures)
      ensures Reaches(c) && !raised ==> StatusWritten(code != 0) in trace
      ensures Reaches(c) && !raised && sessionSaved ==>
        Exported in trace && CloneStopped in trace && Published in trace && publishedOk
    {
      assert Early(trace);
      hide Orderly, Early, Allowed, Marred, Counted, JobsDone;
      code := 0;
      if !c.checks.Fine? { return true, code; }
      var r, taken := AcquireLock(c.lock);
      if !r.Fine? { return true, code; }
      if !taken { return false, 0; }
      if c.beforeTry { return true, code; }
      r := Body(branches);
      raised, code := Finish(branches, r, c);
    }

    /** From the end of the body on. */
    method Finish(ghost branches: seq<string>, r: Outcome, c: Chances) returns (raised: bool, code: nat)
      requires Safe() && Early(trace) && ownedLock && lockOnDisk && !stopOk && !error && Counted(trace, failures)
      requires (r.Fine? ==> Done(branches)) && CloneStopped !in trace
      modifies this
      ensures Safe() && failures == old(failures)
      ensures c.beforeMask ==> raised && lockOnDisk && LockFree(trace)
      ensures !c.beforeMask ==> Settled() && (raised <==>
        || c.heldBack || BodyFailed in trace || StepFailed in trace || Raised()
        || (failures > 0 && !c.lastLog.Fine?))
      ensures !c.beforeMask && !raised ==>
        !sessionId && !startProcess && (code == 0 <==> failures == 0) && StatusWritten(code != 0) in trace
      ensures !c.beforeMask && !raised && old(session) ==>
        Exported in trace && CloneStopped in trace && Published in trace && publishedOk
      ensures BodyFailed !in trace ==>
        r.Fine? && (QuietSeen !in trace ==> forall b :: b in branches ==> JobsDone(trace, b))
      ensures forall n :: Ended(BootstrapStarted, n) in trace && n != 0 ==>
        BodyFailed in trace && forall e :: e in trace ==> !e.JobStarted?
      ensures !c.beforeMask ==> Counted(trace, failures)
      ensures sessionSaved ==> old(session)
    {
      hide Orderly, LockFree, Early, Allowed, Marred, Counted, IsJobFailure;
      code := 0;
      EarlyIsUntorn(trace);
      ghost var body := trace;
      NoteBody(r);
      if c.beforeMask {
        raised := true;
      } else {
        raised, code := WindUp(c);
      }
      JobsStay(body, trace);
      BootstrapTold(trace);
    }

    /** The error of the body is kept. */
    method NoteBody(r: Outcome)
      requires Safe() && Untorn(trace) && !error && BodyFailed !in trace && Counted(trace, failures)
      modifies this`error, this`trace
      ensures Safe() && Untorn(trace) && Told() && Counted(trace, failures)
      ensures old(trace) <= trace && NoRun() && (BodyFailed in trace <==> !r.Fine?)
    {
      hide Orderly, LockFree, Early, Allowed, Marred, Counted;
      if !r.Fine? {
        error := true;
        Note(BodyFailed);
        CountedStays(trace, old(trace), failures);
      }
    }

    /** The teardown and what follows it: the error of the body or of a step is
        raised, and so is a signal that was held back. */
    method WindUp(c: Chances) returns (raised: bool, code: nat)
      requires Safe() && Untorn(trace) && ownedLock && lockOnDisk && !stopOk && Told() && Counted(trace, failures)
      modifies this
      ensures Safe() && Settled() && Later() && failures == old(failures) && Counted(trace, failures)
      ensures !raised ==> StatusWritten(code != 0) in trace
      ensures !raised && old(session) ==>
        Exported in trace && CloneStopped in trace && Published in trace && publishedOk
      ensures raised <==>
        || c.heldBack || BodyFailed in trace || StepFailed in trace || Raised()
        || (failures > 0 && !c.lastLog.Fine?)
      ensures !raised ==> !sessionId && !startProcess && (code == 0 <==> failures == 0)
      ensures sessionSaved ==> old(sessionSaved) || old(session)
    {
      hide Orderly, LockFree, Allowed, Marred;
      code := 0;
      raised := TearDown();
      CountedStays(trace, old(trace), failures);
      raised := raised || error || c.heldBack;
      if !raised && failures > 0 {
        raised := !c.lastLog.Fine?;
        code := 1;
      }
    }
  }

  /** A run that leaves its lock behind: a signal while the first status is
      written. No clone was ever started, and later runs find the lock taken. */
  method AbandonedRun(branches: seq<string>) returns (run: Run, raised: bool)
    ensures raised && run.lockOnDisk && !run.sessionId && !run.cloneAlive && run.trace == []
  {
    run := new Run();
    var calls := LockCalls(Fine, false, Fine, Fine, false, Exits, Fine, false);
    var code;
    raised, code := run.Go(branches, Chances(Fine, calls, false, false, false, Fine));
  }
}
