# uthread scheduler bookkeeping, in Dafny

This project models the scheduler of a small asymmetric, stackful coroutine library for C++
built on `ucontext` (`uthread.h`). A `schedule_t` owns a fixed pool of `MAX_UTHREAD_SIZE`
(128) coroutine slots. Each slot is `FREE`, `RUNNABLE` or `SUSPEND`. The schedule also holds
`running_thread`, which is `-1` while the scheduler thread has control, and `max_index`, a
high-water mark of the slots ever handed out. The operations are `uthread_create`,
`uthread_resume`, `uthread_yield`, the entry trampoline `uthread_body` and the query
`schedule_finished`.

`uthread.dfy` (module `Uthread`) models the schedule as a class `Schedule`:

- `threads` is an `array<Coroutine>`.
- `runningThread` and `maxIndex` are fields.
- Every operation is a method with a `modifies` frame, except `Finished`, which only reads.

`Valid()` is the invariant every operation keeps:

- the pool has 128 slots;
- `0 <= maxIndex <= 128`;
- `runningThread` is `-1` or names a `Runnable` slot below `maxIndex`;
- every slot at or above `maxIndex` is `Free`;
- every `Suspend` slot is parked inside its own coroutine's yield.

`Quiescent()` is the state that `Create` and `Resume` return to: nothing running, no slot
`Runnable`.

The context switch is abstract. A slot's `ctx` is a `Context`, one of three values:

- `Unset`: never prepared.
- `Entry`: prepared by `makecontext` to start `uthread_body`.
- `InFunc(id, yieldsLeft)`: parked inside `uthread_yield`. `id` is the local that
  `uthread_body` read on entry; `yieldsLeft` is what the entry function still has to do.

An entry function is a script, `Fun(yieldCount)`: the number of times it calls
`uthread_yield` before it returns. Switching into a context is modelled by running that
script:

- `Create` calls `Body` (the `Entry` case).
- `Resume` calls `RunEntryFunc` from the saved `InFunc` point.

Either runs until a yield actually switches or the function returns.

Points where the code behaves differently from what its comments and API suggest, modelled as the code does it:

- `uthread_resume` sets neither `running_thread` nor the slot's state before it switches
  (uthread.h:69-72). A resumed coroutine's next yield therefore finds `running_thread == -1`
  and does nothing (uthread.h:78). The coroutine runs on to the end of its entry function.
  `uthread_body` then frees the slot through the id it read on entry (uthread.h:91, 99-101).
  So one `Resume` of a suspended slot always ends with that slot `Free`. Two coroutines that
  each yield twice do not advance in lock-step under alternating resumes;
  `Scenarios.TwoYieldsEach` shows what happens instead.
- An out-of-range `uthread_resume` returns silently (uthread.h:64-65); it reports no error.
- `schedule_finished` returns the integers 1 and 0, not a boolean.
- The one place where the model deliberately departs from the code is the capacity check
  in `Create`; see "## Findings".

`scenarios.dfy` (module `Scenarios`) drives fresh schedules. Each scenario states its
observations as postconditions, proved from the `Schedule` contracts alone.

## Model

| member | source | states |
|---|---|---|
| `Uthread.ScanAsWritten` | uthread.h:108-121 | The first-fit scan's choice is the lowest `FREE` slot below `max_index`, and nothing `FREE` lies before it. It equals `max_index` exactly when no slot below `max_index` is `FREE`. |
| `Uthread.AsWrittenOverrunsWhenFull` | uthread.h:118-123 | With 128 slots, none `FREE`, and `max_index` at 128, the unchecked scan picks index 128, one past the last slot. |
| `Uthread.Schedule.constructor` | uthread.h:46-53 | A new schedule has every slot `FREE`, `running_thread == -1` and `max_index == 0`. It satisfies the invariant and is quiescent. |
| `Uthread.Schedule.Allocate` | uthread.h:106-137 | The bookkeeping of `uthread_create`, before the switch. The chosen id is the scan's result, and that slot was `FREE`. `max_index` grows by exactly one only when the id equals the old `max_index`; otherwise it is unchanged. The chosen slot becomes `RUNNABLE` with `func`, `arg` and a fresh entry context. `running_thread` becomes the id. No other slot changes. On a full pool the result is `PoolExhausted` and nothing changes. |
| `Uthread.Schedule.Yield` | uthread.h:76-86 | With `running_thread == -1` it changes nothing and does not switch. Otherwise exactly the running slot becomes `SUSPEND`, with its resume point saved. `running_thread` becomes `-1` and control switches. No other slot and not `max_index` changes. |
| `Uthread.Schedule.RunEntryFunc` | uthread.h:97-101 | The entry function runs from a resume point, then the completion bookkeeping follows. If the slot was running and has a yield left, the slot ends `SUSPEND` at the next point. If nothing was running, or no yield is left, the slot ends `FREE`. Either way `running_thread` ends `-1` and no other slot changes. |
| `Uthread.Schedule.Body` | uthread.h:89-103 | With `running_thread == -1` on entry it changes nothing. Otherwise the running slot ends `FREE` if its function does not yield, or `SUSPEND` after its first yield if it does. `running_thread` ends `-1` and no other slot changes. |
| `Uthread.Schedule.Create` | uthread.h:106-141 | The same slot choice and `max_index` growth as `Allocate`, with the returned id in `[0, max_index)` and previously `FREE`. After the coroutine's first run, the slot is `FREE` (no yield) or `SUSPEND` at its first yield. `running_thread` is `-1`, other slots are unchanged, and quiescence is kept. A full pool gives `PoolExhausted` and no change. |
| `Uthread.Schedule.Resume` | uthread.h:62-73 | With `id` outside `[0, max_index)`, or a slot that is not `SUSPEND`, nothing changes. A `SUSPEND` slot is run to the end of its entry function and ends `FREE`, with `running_thread` at `-1`. Other slots and `max_index` are unchanged, and quiescence is kept. |
| `Uthread.Schedule.Finished` | uthread.h:144-162 | Returns 0 or 1. It returns 1 iff `running_thread == -1` and every slot below `max_index` is `FREE`. It reads only. |
| `Scenarios.ReturnWithoutYield` | uthread.h:106-141 | A function that returns without yielding gets slot 0. The schedule is finished right after `Create`. The next `Create` reuses slot 0 and leaves `max_index` at 1. |
| `Scenarios.YieldOnceThenReturn` | uthread.h:62-103 | A function that yields once is `SUSPEND` and unfinished after `Create`. It is `FREE` and finished after one `Resume`. |
| `Scenarios.TwoYieldsEach` | uthread.h:62-86 | Two functions that each yield twice get slots 0 and 1. One `Resume` of slot 0 frees it while slot 1 stays `SUSPEND`. One `Resume` of each finishes the schedule, and later resumes change nothing. |
| `Scenarios.ResumeGuards` | uthread.h:62-73 | Resuming ids -1 and 1 (out of range), and slot 0 (`FREE`), leaves the pool, `running_thread` and `max_index` as they were. |

## Findings

| source | as written | input that shows it | evidently intended | confidence | as-written member | corrected member |
|---|---|---|---|---|---|---|
| uthread.h:118-123 | When no slot below `max_index` is `FREE`, `max_index` is incremented and the slot at the old `max_index` is written. The code never compares against `MAX_UTHREAD_SIZE` (uthread.h:17). | A schedule with `max_index == 128` and all 128 slots `RUNNABLE` or `SUSPEND`: the scan yields 128 and `threads[128]` is written. | Report that the pool is exhausted and leave the schedule unchanged. | high; not executed | `Uthread.AsWrittenOverrunsWhenFull` | `Uthread.Schedule.Create` |

## Left out

- `getcontext`, `makecontext`, `swapcontext` and the `ucontext_t` fields, including `uc_link` back to the main context. They are foreign OS primitives. A switch is modelled as running the target coroutine's script until control returns to the scheduler thread.
- The per-slot `stack` buffer and `DEFAULT_STACK_SZIE` are raw memory for the context primitive and carry no logic.
- Entry functions are abstracted as a yield count. A function that calls `uthread_create` or `uthread_resume` itself, loops forever, or does anything besides yielding is not modelled. `arg` is an opaque number that is stored and never read.
- The destructor `~schedule_t` only releases memory.
- Real control-flow interleaving ("exactly one context executes") is a property of the context primitive, not of the bookkeeping, and is not stated.
- `Uthread.Schedule.Yield`: takes the caller's resume point as a parameter; this stands for the context that `swapcontext` saves. When a coroutine is running, that point must name the running slot.
- `Uthread.Schedule.Resume`: requires `running_thread == -1` when the call actually switches, i.e. that resume is called from the scheduler thread. A resume issued from inside a running coroutine would swap out of the wrong context and is not modelled.
- `Uthread.Schedule.Create`: adds the `PoolExhausted` result that the original lacks; see "## Findings".
