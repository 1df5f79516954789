# Keypad driver model

A Dafny model of a small library that drives a 4x4 matrix keypad on mbed OS. It has two layers.

- **`Keypad`** is a debounce and gesture state machine shared by the whole keypad. Its states are
  RELEASED, PRESS_BOUNCING, PRESSED, RELEASE_BOUNCING and LONG_PRESSED.
  - A falling edge on a column starts a press.
  - When a row-scan timeout expires, the rows are swept to find the pressed button, whose
    position is latched.
  - When a release-confirm timeout expires after a rising edge, the release is confirmed.
  - When a long-press timeout expires, the press turns into a long press.
  - Press, release and long-press calls are posted on an event queue whenever the listener of
    that kind is enabled. A dispatch thread runs them. `initialize` creates and starts that
    thread, and `finalize` drops it.
- **`KeypadBlocking`** registers three listeners on an inner `Keypad`. They push the
  coordinates of each press, release and long-press onto three ring buffers of 16 entries
  each. A push on a full buffer overwrites the oldest entry. The application polls the buffers
  with `*_available`, `peek_*` and `pop_*`.

Files:

- `keypad_config.dfy`: the grid size (4 rows, 4 columns) and the buffer length (16).
- `keypad_spec.dfy` (module `KeypadSpec`):
  - the keypad's whole state as a value `Machine`;
  - one pure transition per handler, plus the lifecycle and registration;
  - the invariant `Inv`;
  - traces of edges and timer expiries (`Step`, `Run`, `Feasible`);
  - lemmas about single transitions and whole traces, including the alternation of presses
    and releases.
- `keypad.dfy` (module `KeypadDriver`): the class `Keypad`. Its fields are updated in place by
  its handlers. Each method is proved to change `Model()` exactly as the matching transition
  of `KeypadSpec` does, and to keep `Inv`. The row outputs are an array.
- `event_buffer.dfy` (module `EventBuffer`):
  - the bounded first-in first-out sequence as a function `Pushed`, with its round-trip and
    overwrite lemmas;
  - the class `Ring`, an array with a head and a count, proved to refine that sequence.
- `keypad_blocking.dfy` (module `KeypadPoll`): the class `KeypadBlocking`. It holds one keypad
  and three rings. It also has pure functions for delivering posted calls to the buffers, and
  the lemma that each buffer ends up with exactly the newest 16 coordinates of its kind.

How the environment is modelled:

- **Edges and expiries.** A column edge or a timer expiry is a call of its handler.
- **Pin reads.** The value a pin read returns is a parameter of the handler.
  - `rowReads[i]` is what the swept column reads while row `i` alone is driven high.
  - `colHigh` is what the latched column reads when the release is re-checked.
- **Timers.** An armed flag per timer; the row-scan timer also remembers the column its handler
  was armed for, which stands in for the handler's template column.
  - A handler may be called at any time. It disarms its own timer, and then does what the
    source does.
  - `Inv` shows that the row-scan timer is armed exactly in PRESS_BOUNCING and the
    release-confirm timer exactly in RELEASE_BOUNCING.
  - Trace lemmas use `Feasible`, which lets a timer expire only while it is armed.
- **Listeners.** Only the identity of a listener is kept (`Callback`).
- **Event queue.** The queue is the append-only sequence of every call posted, in order.
  - `KeypadBlocking.DispatchNext` runs the oldest call that has not run yet, while the thread
    exists. A counter `dispatched` records how many calls have run.
- **Thread creation.** `initialize` takes whether allocating the thread and starting it succeed
  as the parameters `allocOk` and `startOk`.
- **Peek results.** `peek_*` writes through pointers only when an entry exists. This is modelled
  as returning the caller's previous values unchanged when the buffer is empty.

Where the code behaves differently from its comments or from a description of the library, the
model follows the code:

- `rise_handler` never reads its column: a rise on any column starts release bouncing
  (keypad.cpp:168-180).
- The latched position is not cleared on release. A sweep that finds no active row keeps the
  old latch (keypad.cpp:214-215).
- A fall while bouncing does not re-arm the row-scan timer. The debounce delay is therefore
  measured from the first fall (keypad.cpp:159-165).
- The header describes `pop_*` as returning the earliest entry through `rptr`/`cptr`. The code
  takes no parameters and returns only whether an entry was removed
  (keypadBlocking.h:141-153, keypadBlocking.cpp:64-78).
- A noisy release returns to PRESSED, never to LONG_PRESSED, and the long-press timer is left
  as it is (keypad.cpp:228-232).
- A long-press expiry during RELEASE_BOUNCING is lost (keypad.cpp:253-255).
- `remove_*` only clears the enabled flag and keeps the stored callback (keypad.cpp:110-112).
- The enabled flag is checked when a call is posted, not when it runs (keypad.cpp:207-209).

## Model

| member | source | states |
|---|---|---|
| KeypadSpec.InitialInv | keypad.h:74-87 | A new keypad is RELEASED, holds no button and satisfies the invariant. |
| KeypadSpec.Fall | keypad.cpp:157-166 | Only a RELEASED keypad reacts to a falling edge: it goes to PRESS_BOUNCING and arms the row-scan timer for that column. In any other state nothing changes. |
| KeypadSpec.Rise | keypad.cpp:169-180 | Only PRESSED or LONG_PRESSED react to a rising edge: they go to RELEASE_BOUNCING and arm the release-confirm timer. Other states are unchanged. |
| KeypadSpec.RiseIgnoresColumn | keypad.cpp:168-180 | A rise has the same effect whichever column it comes from. |
| KeypadSpec.FirstActive | keypad.cpp:190-198 | The sweep's result is the lowest row that reads active, or 4 when none does; no earlier row is active. |
| KeypadSpec.RowScan | keypad.cpp:184-216 | Outside PRESS_BOUNCING only the timer is disarmed. With an active row it latches (lowest active row, remembered column), goes to PRESSED, arms the long-press timer and posts a press only if enabled. With no active row it returns to RELEASED, posts nothing and keeps the latch. |
| KeypadSpec.ButtonScan | keypad.cpp:219-248 | Outside RELEASE_BOUNCING only the timer is disarmed. A low read goes back to PRESSED with no event. A high read goes to RELEASED, keeps the latch, cancels the long-press timer and posts a release at the latch only if enabled. |
| KeypadSpec.LongPress | keypad.cpp:251-266 | Only PRESSED reacts: it goes to LONG_PRESSED, keeps the latch and the other timers, and posts a long-press at the latch only if enabled. In any other state the expiry only disarms the timer. |
| KeypadSpec.StartDispatch | keypad.cpp:44-71 | initialize succeeds exactly when there is no thread and allocating and starting one succeed. On failure nothing changes; on success only the thread handle changes. |
| KeypadSpec.StopDispatch | keypad.cpp:74-91 | finalize succeeds exactly when a thread exists, and afterwards there is none. Nothing else changes. |
| KeypadSpec.Register | keypad.cpp:103-107 | Registering stores the new callback, replacing any earlier one, and enables it. The other kinds and all other state are unchanged. |
| KeypadSpec.Remove | keypad.cpp:110-112 | Removing disables the kind but keeps the stored callback. Other kinds are unchanged, and removing when nothing is enabled has no effect. |
| KeypadSpec.ConfigurationKeepsGesture | keypad.cpp:44-112 | Registration, removal, initialize and finalize all preserve the invariant. |
| KeypadSpec.LifecycleRoundTrip | keypad.h:108-137 | initialize then finalize gives back the same keypad, listeners and posted calls included. A second initialize in a row, or a finalize without a thread, fails and changes nothing. |
| KeypadSpec.StepPreservesInv | keypad.cpp:184-216 | Every edge and expiry keeps the invariant: the latch and the remembered column are on the grid, each debounce timer is armed exactly in the state that waits for it, and every posted position is on the grid. |
| KeypadSpec.RunPreservesInv | keypad.h:84-87 | The invariant holds after any trace of edges and expiries. |
| KeypadSpec.StepAppendsOnly | keypad.cpp:207-209 | One transition posts at most one call, at the back of the queue. It never changes the listeners or the thread. |
| KeypadSpec.RunAppendsOnly | keypad.cpp:241-247 | Over a whole trace the queue only grows at its end, and the listeners and the thread stay as they were. |
| KeypadSpec.StepTracks | keypad.cpp:184-266 | With the press and release listeners both enabled, no transition posts a press while a button is held, or a release or long-press while none is held. |
| KeypadSpec.RunTracks | keypad.cpp:184-266 | With the press and release listeners both enabled, over a whole trace the calls posted are consistent with whether a button is held. |
| KeypadSpec.PressesSeparated | keypad.h:28-29 | In a consistent call sequence, any two presses have a release between them. |
| KeypadSpec.NoPressWithoutRelease | keypad.h:28-29 | From a RELEASED keypad with nothing posted and both press and release enabled: on every trace, two presses always have a release between them, and no release or long-press is posted without an outstanding press. |
| KeypadSpec.EdgesIgnoredWhileBouncing | keypad.cpp:159-161 | Any run of edges during PRESS_BOUNCING leaves the keypad exactly as it was. |
| KeypadSpec.EarliestPressWins | keypad.cpp:157-212 | A fall on column c, then any edges on any columns, then the row scan: latches the lowest active row with column c and posts exactly that one press (if enabled). With no active row it posts nothing and is RELEASED again. The trace is feasible. |
| KeypadSpec.LongPressThenRelease | keypad.cpp:251-266 | Holding past the long-press timeout and then releasing posts one long-press and then one release at the latch (each if enabled), and leaves no long-press timer armed. |
| KeypadSpec.ReleaseBeforeThreshold | keypad.cpp:235-247 | Releasing before the long-press timeout posts a release at the latch (if enabled) and cancels the long-press timer. |
| KeypadSpec.NoLongPressWithoutTimer | keypad.cpp:237-239 | Once the long-press timer is not armed, no long-press is posted again until the next row scan. |
| KeypadSpec.LongPressLostDuringReleaseBounce | keypad.cpp:253-255 | A long-press expiry during RELEASE_BOUNCING followed by a noisy release leaves the keypad PRESSED. No long-press timer is left and nothing is posted. |
| KeypadSpec.NoisyReleaseForgetsLongPress | keypad.cpp:228-232 | A noisy release of a long-pressed button returns to PRESSED, not LONG_PRESSED, and posts nothing. |
| KeypadDriver.Keypad.constructor | keypad.cpp:24-26 | Every row output is driven low. The state is the initial machine: RELEASED, nothing latched, armed, registered or posted, and no thread. |
| KeypadDriver.Keypad.Initialize | keypad.cpp:44-71 | The object moves as StartDispatch says, and on success holds a freshly made thread. |
| KeypadDriver.Keypad.Finalize | keypad.cpp:74-91 | The object moves as StopDispatch says. |
| KeypadDriver.Keypad.IsInitialized | keypad.cpp:94-100 | Returns whether a dispatch thread exists. |
| KeypadDriver.Keypad.RegisterOnpress | keypad.cpp:103-107 | The object moves as Register says for presses. |
| KeypadDriver.Keypad.RemoveOnpress | keypad.cpp:110-112 | The object moves as Remove says for presses. |
| KeypadDriver.Keypad.IsOnpressRegistered | keypad.cpp:115-117 | Returns whether presses are enabled. |
| KeypadDriver.Keypad.RegisterOnrelease | keypad.cpp:120-124 | The object moves as Register says for releases. |
| KeypadDriver.Keypad.RemoveOnrelease | keypad.cpp:127-129 | The object moves as Remove says for releases. |
| KeypadDriver.Keypad.IsOnreleaseRegistered | keypad.cpp:132-134 | Returns whether releases are enabled. |
| KeypadDriver.Keypad.RegisterOnlongpress | keypad.cpp:137-141 | The object moves as Register says for long-presses. |
| KeypadDriver.Keypad.RemoveOnlongpress | keypad.cpp:144-146 | The object moves as Remove says for long-presses. |
| KeypadDriver.Keypad.IsOnlongpressRegistered | keypad.cpp:149-151 | Returns whether long-presses are enabled. |
| KeypadDriver.Keypad.FallHandler | keypad.cpp:155-166 | The object moves as Fall says and keeps the invariant. |
| KeypadDriver.Keypad.RiseHandler | keypad.cpp:168-180 | The object moves as Rise says and keeps the invariant. |
| KeypadDriver.Keypad.SweepRows | keypad.cpp:190-198 | Returns `FirstActive(rowReads)`, the first row that reads active. Every row is low again afterwards. |
| KeypadDriver.Keypad.RowScanHandler | keypad.cpp:182-216 | The object moves as RowScan says, keeps the invariant, and leaves every row low. |
| KeypadDriver.Keypad.ButtonScanHandler | keypad.cpp:218-248 | The object moves as ButtonScan says and keeps the invariant. |
| KeypadDriver.Keypad.LongPressHandler | keypad.cpp:250-266 | The object moves as LongPress says and keeps the invariant. |
| EventBuffer.Pushed | keypad.h:18-19 | A push gives at most 16 entries, one more while there is room, with the pushed entry last. |
| EventBuffer.PushedAllKeepsNewest | keypad.h:18-19 | A run of pushes keeps exactly the newest 16 entries of everything pushed, in push order. |
| EventBuffer.PushedAllUnderCapacity | keypadBlocking.cpp:147-158 | Up to 16 pushes onto an empty buffer keep them all, in order. |
| EventBuffer.PushedAllOverflowByOne | keypadBlocking.cpp:147-158 | 17 pushes onto an empty buffer lose exactly the first. |
| EventBuffer.DrainedIsPrefix | keypadBlocking.cpp:49-78 | k rounds of peek then pop see the first k entries, oldest first. |
| EventBuffer.PushThenDrain | keypadBlocking.cpp:147-158 | Pushing K ≤ 16 entries and then doing K rounds of peek and pop yields them in push order. |
| EventBuffer.PushThenDrainOverflow | keypadBlocking.cpp:147-158 | Pushing 17 entries and draining yields all but the first. |
| EventBuffer.Ring.constructor | keypadBlocking.h:30-34 | A new buffer has room for 16 entries and is empty. |
| EventBuffer.Ring.Size | keypadBlocking.cpp:35 | Returns the number of entries held. |
| EventBuffer.Ring.Peek | keypadBlocking.cpp:55 | Finds an entry exactly when the buffer is non-empty, and that entry is the oldest. |
| EventBuffer.Ring.Pop | keypadBlocking.cpp:71 | On a non-empty buffer, removes and returns the oldest entry. On an empty one it returns false and changes nothing. |
| EventBuffer.Ring.Push | keypadBlocking.cpp:148 | The array ring's contents become Pushed of the old contents. |
| KeypadPoll.Deliver | keypadBlocking.cpp:11-13 | Running a posted call pushes its coordinates onto the buffer of its kind. The other two buffers are left alone. |
| KeypadPoll.DeliverAllSplits | keypadBlocking.cpp:147-158 | After any run of posted calls, each kind's buffer holds what pushing only that kind's coordinates would leave. |
| KeypadPoll.BuffersKeepNewest | keypadBlocking.h:29-34 | From empty buffers, each buffer holds exactly the newest 16 coordinates of its kind, in posting order. |
| KeypadPoll.KeypadBlocking.constructor | keypadBlocking.cpp:5-14 | Builds a fresh keypad with the three pushing listeners registered and enabled, and three freshly allocated, empty buffers that the object owns. |
| KeypadPoll.KeypadBlocking.Initialize | keypadBlocking.cpp:18-21 | Returns exactly what the inner keypad's initialize returns, and leaves the buffers unchanged. |
| KeypadPoll.KeypadBlocking.Finalize | keypadBlocking.cpp:23-26 | Returns exactly what the inner keypad's finalize returns. Unconsumed entries in all buffers are preserved. |
| KeypadPoll.KeypadBlocking.IsInitialized | keypadBlocking.cpp:28-31 | Returns whether the inner keypad has a dispatch thread. |
| KeypadPoll.KeypadBlocking.PressAvailable | keypadBlocking.cpp:33-36 | Returns the number of presses not yet popped, which is at most 16. |
| KeypadPoll.KeypadBlocking.ReleaseAvailable | keypadBlocking.cpp:38-41 | Returns the number of releases not yet popped, which is at most 16. |
| KeypadPoll.KeypadBlocking.LongpressAvailable | keypadBlocking.cpp:43-46 | Returns the number of long-presses not yet popped, which is at most 16. |
| KeypadPoll.KeypadBlocking.PeekPress | keypadBlocking.cpp:48-62 | Returns true with the oldest press exactly when there is one. Otherwise it returns false and leaves the caller's row and column as they were. |
| KeypadPoll.KeypadBlocking.PeekRelease | keypadBlocking.cpp:80-94 | As PeekPress, for releases. |
| KeypadPoll.KeypadBlocking.PeekLongpress | keypadBlocking.cpp:112-126 | As PeekPress, for long-presses. |
| KeypadPoll.KeypadBlocking.PopPress | keypadBlocking.cpp:64-78 | Returns true exactly when there is a press, and removes only the oldest press. The other buffers are untouched; with no press, nothing changes. |
| KeypadPoll.KeypadBlocking.PopRelease | keypadBlocking.cpp:96-110 | As PopPress, for releases. |
| KeypadPoll.KeypadBlocking.PopLongpress | keypadBlocking.cpp:128-142 | As PopPress, for long-presses. |
| KeypadPoll.KeypadBlocking.PushPress | keypadBlocking.cpp:146-149 | The press buffer becomes Pushed of (r, c). The other buffers are untouched. |
| KeypadPoll.KeypadBlocking.PushRelease | keypadBlocking.cpp:151-154 | The release buffer becomes Pushed of (r, c). The other buffers are untouched. |
| KeypadPoll.KeypadBlocking.PushLongpress | keypadBlocking.cpp:156-159 | The long-press buffer becomes Pushed of (r, c). The other buffers are untouched. |
| KeypadPoll.KeypadBlocking.DispatchNext | keypadBlocking.cpp:11-13 | While the thread exists and a posted call is pending, the oldest pending call runs and the buffers move as Deliver says. Otherwise nothing changes. |

## Left out

- The dispatch thread and the event queue's own mechanics are not modelled: `dispatch_events`,
  `dispatch_forever`, `break_dispatch` and `join` (keypad.cpp:60, 85-86, 268-272). They are
  concurrency. The thread is only a nullable handle, and running one posted call is
  `KeypadBlocking.DispatchNext`.
- Pin I/O is not modelled: the `DigitalOut`/`InterruptIn` objects, `mode(PullUp)` and attaching
  the edge handlers to the column pins (keypad.cpp:20-38). Edges are handler calls, and reads
  are parameters.
- Timer durations are not modelled: the 60 ms and 300 ms thresholds, and `remaining_time()`
  (keypad.cpp:4-7, 237). A timer is an armed flag, and "time remains" is "still armed".
  Relative timing between timers appears only as the order of inputs in a trace.
- The mutexes are not modelled. They are declared and never used (keypadBlocking.h:36-38).
- The source of `CircularBuffer` is not part of this model. `Ring` is an array ring with the
  overwrite-on-full behaviour described at keypad.h:18.
- What a listener does when it runs is not modelled. Callbacks are identities, and the
  polling keypad routes each call to the push of its kind.
- Widths: rows, columns and counts are unbounded naturals, not `uint32_t`. Every value that
  arises stays below 17, so the width never matters.
- Posting is modelled as always succeeding. The source ignores the result of `queue.call`
  (keypad.cpp:208, 242-246, 264), so a post that fails is silently lost. The model's
  append-only queue never loses a call.
- Interrupt preemption is not modelled. Each handler runs atomically with respect to the
  application's calls (`register_*`, `peek_*`, `pop_*` and the rest), so an interrupt that
  arrives in the middle of one of them is not captured.
- KeypadDriver.Keypad.RowScanHandler: the row sweep is the separate method `SweepRows`, and
  the handler then acts on the row it returns. The source does both in one loop with an early
  `return`. The effect on the state is the same, and that is what the handler's contract states.
