/** Scheduler bookkeeping of an asymmetric, stackful coroutine library built on ucontext.

    A `Schedule` owns a fixed table of coroutine slots, the id of the coroutine that holds
    control (`-1` while the scheduler thread has it) and a high-water mark `maxIndex`.
    The context switch itself is abstract: a slot's saved context records where the
    coroutine will go on when control is switched to it, and switching to it is modelled
    by running the coroutine's script (the number of yields its entry function makes)
    until control comes back to the scheduler thread.
 */
module Uthread {

  /** Number of coroutine slots in every schedule (MAX_UTHREAD_SIZE). */
  const MaxUthreadSize: nat := 128

  datatype ThreadState = Free | Runnable | Suspend

  /** A coroutine's entry function, abstracted as its script: how many times it calls
      `Yield` before it returns. */
  datatype Fun = Fun(yieldCount: nat)

  /** The opaque argument handed to the entry function. */
  type Arg = nat

  /** A slot's saved execution context. */
  datatype Context =
    | Unset                             // never prepared
    | Entry                             // prepared to start `Body` from its first line
    | InFunc(id: int, yieldsLeft: nat)  // parked inside `Yield`: `Body`'s local id, and the
                                        // yields the entry function still has to make

  /** One slot of the pool. */
  datatype Coroutine = Coroutine(ctx: Context, func: Fun, arg: Arg, state: ThreadState)

  /** Outcome of `Create`; `PoolExhausted` is the capacity check the original scan lacks. */
  datatype CreateResult = Created(id: int) | PoolExhausted

  /** The slot the original first-fit scan settles on: the lowest `Free` slot at or after
      `from` and below `maxIndex`, or `maxIndex` itself when there is none. */
  function ScanAsWritten(threads: seq<Coroutine>, from: nat, maxIndex: nat): (id: nat)
    requires from <= maxIndex <= |threads|
    decreases maxIndex - from
    ensures from <= id <= maxIndex
    ensures id < maxIndex ==> threads[id].state == Free
    ensures forall j :: from <= j < id ==> threads[j].state != Free
    ensures id == maxIndex <==> forall j :: from <= j < maxIndex ==> threads[j].state != Free
  {
    if from == maxIndex then maxIndex
    else if threads[from].state == Free then from
    else ScanAsWritten(threads, from + 1, maxIndex)
  }

  /** With every slot taken and the high-water mark at capacity, the original scan hands
      back an index one past the last slot, which the original then writes through. */
  lemma AsWrittenOverrunsWhenFull(threads: seq<Coroutine>)
    requires |threads| == MaxUthreadSize
    requires forall j :: 0 <= j < |threads| ==> threads[j].state != Free
    ensures ScanAsWritten(threads, 0, MaxUthreadSize) == |threads|
  {
  }

  class Schedule {
    var runningThread: int
    const threads: array<Coroutine>
    var maxIndex: int

    /** The schedule's invariant. */
    ghost predicate Valid()
      reads this, threads
    {
      threads.Length == MaxUthreadSize &&
      0 <= maxIndex <= MaxUthreadSize &&
      -1 <= runningThread < maxIndex &&
      // the running id, when set, names a slot that is `Runnable`
      (runningThread != -1 ==> threads[runningThread].state == Runnable) &&
      // slots at or above the high-water mark have never been handed out
      (forall j :: maxIndex <= j < threads.Length ==> threads[j].state == Free) &&
      // a suspended slot is parked inside its own coroutine's yield
      (forall j :: 0 <= j < threads.Length && threads[j].state == Suspend ==>
         threads[j].ctx.InFunc? && threads[j].ctx.id == j)
    }

    /** The scheduler thread holds control and no slot is mid-run: the state every
        `Create` and `Resume` returns to. */
    ghost predicate Quiescent()
      reads this, threads
    {
      runningThread == -1 && forall j :: 0 <= j < threads.Length ==> threads[j].state != Runnable
    }

    /** A new schedule: every slot `Free`, nothing running, nothing ever used. */
    constructor ()
      ensures Valid() && Quiescent() && fresh(threads)
      ensures runningThread == -1 && maxIndex == 0
      ensures forall j :: 0 <= j < threads.Length ==> threads[j].state == Free
    {
      runningThread := -1;
      maxIndex := 0;
      threads := new Coroutine[MaxUthreadSize];
      new;
      var i := 0;
      while i < MaxUthreadSize
        modifies threads
        invariant 0 <= i <= MaxUthreadSize
        invariant forall j :: 0 <= j < i ==> threads[j].state == Free
      {
        threads[i] := threads[i].(state := Free);
        i := i + 1;
      }
    }

    /** The bookkeeping half of `Create`: first-fit scan, growth of the high-water mark,
        and preparing the chosen slot, up to the point where control is switched to it. */
    method Allocate(f: Fun, a: Arg) returns (r: CreateResult)
      requires Valid()
      modifies this, threads
      ensures Valid()
      ensures r.PoolExhausted? <==>
                old(maxIndex) == MaxUthreadSize &&
                forall j :: 0 <= j < old(maxIndex) ==> old(threads[j].state) != Free
      ensures r.PoolExhausted? ==>
                threads[..] == old(threads[..]) && runningThread == old(runningThread) &&
                maxIndex == old(maxIndex)
      ensures r.Created? ==> r.id == ScanAsWritten(old(threads[..]), 0, old(maxIndex))
      ensures r.Created? ==> 0 <= r.id < maxIndex && old(threads[r.id].state) == Free
      ensures r.Created? ==>
                maxIndex == if r.id == old(maxIndex) then old(maxIndex) + 1 else old(maxIndex)
      ensures r.Created? ==>
                runningThread == r.id &&
                threads[..] == old(threads[..])[r.id := Coroutine(Entry, f, a, Runnable)]
    {
      var id := 0;
      while id < maxIndex
        invariant 0 <= id <= maxIndex
        invariant ScanAsWritten(threads[..], 0, maxIndex) == ScanAsWritten(threads[..], id, maxIndex)
      {
        if threads[id].state == Free {
          break;
        }
        id := id + 1;
      }
      if id == maxIndex {
        if maxIndex == MaxUthreadSize {
          return PoolExhausted;
        }
        maxIndex := maxIndex + 1;
      }
      threads[id] := Coroutine(Entry, f, a, Runnable);
      runningThread := id;
      r := Created(id);
    }

    /** Gives control back to the scheduler thread. `at` is where the calling coroutine
        will go on when it is resumed; it is saved only when control is actually switched. */
    method Yield(at: Context) returns (switched: bool)
      requires Valid()
      requires runningThread != -1 ==> at.InFunc? && at.id == runningThread
      modifies this, threads
      ensures Valid() && maxIndex == old(maxIndex) && runningThread == -1
      ensures switched <==> old(runningThread) != -1
      ensures !switched ==> threads[..] == old(threads[..])
      ensures switched ==>
                threads[..] == old(threads[..])[old(runningThread) :=
                                 old(threads[runningThread]).(state := Suspend, ctx := at)]
    {
      switched := false;
      if runningThread != -1 {
        var t := threads[runningThread];
        threads[runningThread] := t.(state := Suspend, ctx := at);
        runningThread := -1;
        switched := true;
      }
    }

    /** The coroutine of slot `id` running its entry function from a point where it still
        has `yieldsLeft` yields to make, followed by `Body`'s completion bookkeeping; it
        returns when control goes back to the scheduler thread. */
    method RunEntryFunc(id: int, yieldsLeft: nat)
      requires Valid() && 0 <= id < maxIndex
      requires runningThread == -1 || runningThread == id
      modifies this, threads
      ensures Valid() && maxIndex == old(maxIndex) && runningThread == -1
      ensures old(runningThread) == id && yieldsLeft > 0 ==>
                threads[..] == old(threads[..])[id :=
                                 old(threads[id]).(state := Suspend, ctx := InFunc(id, yieldsLeft - 1))]
      ensures old(runningThread) == -1 || yieldsLeft == 0 ==>
                threads[..] == old(threads[..])[id := old(threads[id]).(state := Free)]
    {
      var left := yieldsLeft;
      while left > 0
        invariant left <= yieldsLeft
        invariant old(runningThread) == id ==> left == yieldsLeft
        invariant runningThread == old(runningThread) && maxIndex == old(maxIndex)
        invariant threads[..] == old(threads[..])
      {
        left := left - 1;
        var switched := Yield(InFunc(id, left));
        if switched {
          return;
        }
      }
      threads[id] := threads[id].(state := Free);
      runningThread := -1;
    }

    /** The entry trampoline of a freshly prepared context: reads the running id once,
        runs that slot's entry function and, when it returns, frees the slot. */
    method Body()
      requires Valid()
      modifies this, threads
      ensures Valid() && maxIndex == old(maxIndex) && runningThread == -1
      ensures old(runningThread) == -1 ==> threads[..] == old(threads[..])
      ensures old(runningThread) != -1 ==>
                var id := old(runningThread);
                var t := old(threads[id]);
                threads[..] == old(threads[..])[id :=
                  if t.func.yieldCount == 0 then t.(state := Free)
                  else t.(state := Suspend, ctx := InFunc(id, t.func.yieldCount - 1))]
    {
      var id := runningThread;
      if id != -1 {
        var t := threads[id];
        RunEntryFunc(id, t.func.yieldCount);
      }
    }

    /** Creates a coroutine in the lowest free slot and runs it until it first yields or
        returns. Unlike the original, a full pool is reported instead of overrun. */
    method Create(f: Fun, a: Arg) returns (r: CreateResult)
      requires Valid()
      modifies this, threads
      ensures Valid() && (old(Quiescent()) ==> Quiescent())
      ensures r.PoolExhausted? <==>
                old(maxIndex) == MaxUthreadSize &&
                forall j :: 0 <= j < old(maxIndex) ==> old(threads[j].state) != Free
      ensures r.PoolExhausted? ==>
                threads[..] == old(threads[..]) && runningThread == old(runningThread) &&
                maxIndex == old(maxIndex)
      ensures r.Created? ==> r.id == ScanAsWritten(old(threads[..]), 0, old(maxIndex))
      ensures r.Created? ==> 0 <= r.id < maxIndex && old(threads[r.id].state) == Free
      ensures r.Created? ==>
                maxIndex == if r.id == old(maxIndex) then old(maxIndex) + 1 else old(maxIndex)
      ensures r.Created? ==>
                runningThread == -1 &&
                threads[..] == old(threads[..])[r.id :=
                  if f.yieldCount == 0 then Coroutine(Entry, f, a, Free)
                  else Coroutine(InFunc(r.id, f.yieldCount - 1), f, a, Suspend)]
    {
      r := Allocate(f, a);
      if r.Created? {
        // switch from the scheduler thread to the fresh context, which starts `Body`
        Body();
      }
    }

    /** Switches to slot `id` if, and only if, it is a suspended slot below the high-water
        mark. The running id and the slot's state are left as they are before the switch,
        so every yield the resumed coroutine makes finds nothing running and does nothing,
        and the coroutine runs on until its entry function returns. */
    method Resume(id: int)
      requires Valid()
      requires 0 <= id < maxIndex && threads[id].state == Suspend ==> runningThread == -1
      modifies this, threads
      ensures Valid() && maxIndex == old(maxIndex) && (old(Quiescent()) ==> Quiescent())
      ensures !(0 <= id < old(maxIndex) && old(threads[id].state) == Suspend) ==>
                threads[..] == old(threads[..]) && runningThread == old(runningThread)
      ensures 0 <= id < old(maxIndex) && old(threads[id].state) == Suspend ==>
                runningThread == -1 &&
                threads[..] == old(threads[..])[id := old(threads[id]).(state := Free)]
    {
      if id < 0 || id >= maxIndex {
        return;
      }
      var t := threads[id];
      if t.state == Suspend {
        // switch from the scheduler thread into the slot's saved context
        RunEntryFunc(t.ctx.id, t.ctx.yieldsLeft);
      }
    }

    /** 1 when nothing is running and every slot below the high-water mark is `Free`,
        0 otherwise. */
    method Finished() returns (r: int)
      requires Valid()
      ensures r == 0 || r == 1
      ensures r == 1 <==>
                runningThread == -1 && forall j :: 0 <= j < maxIndex ==> threads[j].state == Free
    {
      if runningThread != -1 {
        return 0;
      }
      var i := 0;
      while i < maxIndex
        invariant 0 <= i <= maxIndex
        invariant forall j :: 0 <= j < i ==> threads[j].state == Free
      {
        if threads[i].state != Free {
          return 0;
        }
        i := i + 1;
      }
      return 1;
    }
  }
}
