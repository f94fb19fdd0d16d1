/** Host programs driving a fresh schedule, with what they observe stated as postconditions
    and proved from the contracts of `Schedule` alone. */
module Scenarios {
  import opened Uthread

  /** A coroutine whose entry function returns without yielding: `Create` hands out slot 0,
      the schedule is finished as soon as `Create` returns, and the next `Create` reuses
      slot 0 without raising the high-water mark. */
  method ReturnWithoutYield() returns (first: CreateResult, done: int, second: CreateResult, maxIndex: int)
    ensures first == Created(0) && done == 1
    ensures second == Created(0) && maxIndex == 1
  {
    var s := new Schedule();
    first := s.Create(Fun(0), 0);
    done := s.Finished();
    second := s.Create(Fun(0), 1);
    maxIndex := s.maxIndex;
  }

  /** A coroutine that yields once and then returns: suspended and unfinished after
      `Create`, free and finished after one `Resume`. */
  method YieldOnceThenReturn()
    returns (id: int, stateAfterCreate: ThreadState, doneAfterCreate: int,
             stateAfterResume: ThreadState, doneAfterResume: int)
    ensures id == 0
    ensures stateAfterCreate == Suspend && doneAfterCreate == 0
    ensures stateAfterResume == Free && doneAfterResume == 1
  {
    var s := new Schedule();
    var r := s.Create(Fun(1), 0);
    id := r.id;
    stateAfterCreate := s.threads[id].state;
    doneAfterCreate := s.Finished();
    s.Resume(id);
    stateAfterResume := s.threads[id].state;
    doneAfterResume := s.Finished();
  }

  /** Two coroutines that each yield twice. Both are suspended after their `Create`, but a
      single `Resume` of each runs it to its end: the resumed coroutine's second yield finds
      nothing running and does nothing. A further `Resume` of a finished slot is a no-op. */
  method TwoYieldsEach()
    returns (c: int, d: int, cAfterFirstResume: ThreadState, dAfterFirstResume: ThreadState,
             doneAfterOneResumeEach: int, doneAfterMore: int)
    ensures c == 0 && d == 1
    ensures cAfterFirstResume == Free && dAfterFirstResume == Suspend
    ensures doneAfterOneResumeEach == 1 && doneAfterMore == 1
  {
    var s := new Schedule();
    var rc := s.Create(Fun(2), 10);
    var rd := s.Create(Fun(2), 20);
    c, d := rc.id, rd.id;
    s.Resume(c);
    cAfterFirstResume := s.threads[c].state;
    dAfterFirstResume := s.threads[d].state;
    s.Resume(d);
    doneAfterOneResumeEach := s.Finished();
    s.Resume(c);
    s.Resume(d);
    doneAfterMore := s.Finished();
  }

  /** Resuming ids outside `[0, maxIndex)` or a slot that is not suspended changes nothing. */
  method ResumeGuards() returns (before: seq<Coroutine>, after: seq<Coroutine>, running: int, maxIndex: int)
    ensures after == before && running == -1 && maxIndex == 1
  {
    var s := new Schedule();
    var r := s.Create(Fun(0), 0);
    before := s.threads[..];
    s.Resume(-1);
    s.Resume(1);
    s.Resume(0);
    after := s.threads[..];
    running := s.runningThread;
    maxIndex := s.maxIndex;
  }
}
