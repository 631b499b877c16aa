# STM32F4 stepper firmware: a Dafny model of its sequencer, supervisor and shell commands

The firmware drives a four-winding stepper motor from four PWM channels of
timer 3. Alongside, it offers a diagnostic shell over a USB virtual serial
port. Three pieces of `src/main.c` are modelled here:

- **Stepper sequencer** (`stepper.dfy`, module `Stepper`). The stepper thread
  first writes duty 0 to all four channels. It then loops forever over nine
  single-channel writes of 0 or `PWM_MAX` (128), with a 1 ms sleep between
  each pair except one. The thread is a sequence of `Write(channel, duty)`
  and `Sleep` markers applied to a four-channel duty state. `Trace(n)` is
  the initial writes followed by `n` loop iterations. `Samples` collects
  the duty state at every sleep, which is where the outputs hold still.
  Channels are blue=0, pink=1, yellow=2, orange=3.
- **Session supervisor** (`supervisor.dfy`, module `Supervisor`). This is
  one pass of the main thread's 500 ms loop, as a pure function `Poll`. It
  takes the held shell handle and three observations: whether the USB
  device is active, what `shellCreate` returns, and whether the held thread
  has terminated. It returns the new handle, whether creation was attempted,
  and the handle released, if any. `States` and `MainLoop` run it over a
  finite sequence of polls.
- **Shell command guards** (`commands.dfy`, module `Commands`). This covers
  the control flow of `mem`, `threads` and `test`. Kernel answers are
  inputs: heap figures, registry entries and the self-test creation result.
  Each command returns its output lines as structured values, plus the
  kernel services it used, in order (a registry walk and the self-test
  spawn each count as one service).

`kernel.dfy` (module `Kernel`) holds the shared `Option` and the opaque
thread `Handle`.

Behaviour of the code worth noting:

- A loop iteration ends with "blue off" (line 116). The next one starts with
  "orange on" (line 100) with no sleep in between. So two writes can happen
  without a delay. After the first iteration the orange write changes
  nothing, since orange is already on (`Stepper.WrapAround`).
- "One or two windings energized" holds at every sleep. It does not hold at
  every instant: all four channels are off from the initial writes until
  the first loop write.
- `mem` prints core free memory, then the fragment count, then heap free
  bytes.
- While a handle is held, the supervisor never looks at the USB state. A
  disconnect alone never clears the handle; only the shell thread's own
  termination does (`Supervisor.HeldUntilTerminated`).

## Model

| member | source | states |
|---|---|---|
| `Stepper.PhaseOf` | src/main.c:85-88 | each channel index 0..3 names the winding whose channel it is (blue 0, pink 1, yellow 2, orange 3) |
| `Stepper.TraceWritesOnOff` | src/main.c:93-116 | every write of the thread, initial or in any iteration, has duty 0 or `PWM_MAX` (the configured period, so fully off or fully on); channel indices are 0..3 by type |
| `Stepper.InitAllOff` | src/main.c:93-96 | whatever the channels held before, the initial writes leave all four at 0, with no sleep in between |
| `Stepper.OneIteration` | src/main.c:99-117 | one iteration, started with blue, pink and yellow off, shows the eight half-step states at its sleeps in order and ends with only orange on |
| `Stepper.SteadyState` | src/main.c:91-119 | for any start state and any number `n` of iterations, the states at the sleeps are the eight-state table repeated `n` times, and the thread ends with all off (n = 0) or only orange on |
| `Stepper.Period` | src/main.c:99-117 | one iteration maps "only orange on" to itself, and its eight sleep states are pairwise distinct, so the period is exactly eight sleeps |
| `Stepper.HalfStepTableIsCycle` | src/main.c:100-116 | the eight sleep states are on/off states energizing orange; orange+yellow; yellow; yellow+pink; pink; pink+blue; blue; blue+orange |
| `Stepper.HalfStepTableOneOrTwo` | src/main.c:100-116 | each of the eight sleep states energizes one or two windings |
| `Stepper.HalfStepTableOneChange` | src/main.c:99-117 | consecutive sleep states, cyclically, differ in exactly one winding; across the wrap that winding is blue |
| `Stepper.OneOrTwoEnergized` | src/main.c:99-117 | at every sleep of the thread each channel is 0 or `PWM_MAX` and one or two windings are energized, never 0, 3 or 4 |
| `Stepper.SleepPointPhases` | src/main.c:99-117 | the energized sets at successive sleeps are the half-step cycle, once per iteration |
| `Stepper.OneChangePerSleep` | src/main.c:99-117 | between any two consecutive sleeps exactly one winding's duty changes, also across iterations; the first sleep differs from all-off only in orange |
| `Stepper.WrapAround` | src/main.c:99-117 | the loop ends with blue off (line 116) and restarts with orange on (line 100), back to back; from the last sleep state the blue write leaves only orange on, so the orange write that follows changes nothing and the pair leads to the first sleep state; that write changes something only on the first pass from all-off |
| `Supervisor.Poll` | src/main.c:166-176 | creation is attempted iff no handle is held and USB is active, and its result (NULL included) becomes the state; a held handle is released iff seen terminated, and is cleared in that poll; otherwise it is kept whatever the USB state |
| `Supervisor.States` | src/main.c:164-178 | the handle before each poll: starts at the initial value, and each next one is what the poll leaves |
| `Supervisor.HeldSinceCreation` | src/main.c:164-170 | a handle held at some poll was returned by an earlier creation attempt and held without a break since |
| `Supervisor.ReleaseFollowsCreation` | src/main.c:171-176 | a handle is released only in a poll that sees it terminated, is cleared in that poll, and was created earlier and held continuously until then |
| `Supervisor.ReleasedAtMostOnce` | src/main.c:171-176 | when creation never returns the same handle twice, no handle is released in two different polls |
| `Supervisor.ReleasedAgainOnlyAfterRecreation` | src/main.c:166-176 | with no assumption on what creation returns, two releases of the same handle value have a successful creation of that value strictly between them, so each creation is released at most once |
| `Supervisor.ReleasedBeforeFacts` | src/main.c:164-178 | over any prefix of a run, every released handle was released by an earlier poll that saw it terminated, and with fresh creation results the list of releases has no repeats |
| `Supervisor.HeldUntilTerminated` | src/main.c:166-176 | while the held shell has not terminated, no USB state change (disconnect included) and no creation result clears it, and no creation is attempted |
| `Supervisor.Reconnect` | src/main.c:164-176 | a NULL creation leaves no handle, to retry next poll; a terminated shell is released; afterwards an active USB and a successful creation give a new session |
| `Supervisor.MainLoop` | src/main.c:164-178 | the main thread's loop over a finite run of polls, starting with no shell, ends holding what `States` predicts and releases, in order, exactly the handles the successive polls release; every released handle was seen terminated in the poll that released it; with fresh creation results no handle is released twice |
| `Commands.MemCommand` | src/main.c:18-30 | with arguments: only the usage line and no kernel call; without: the heap and core queries, then core free, fragment count and heap free lines |
| `Commands.ThreadsCommand` | src/main.c:32-50 | with arguments: only the usage line and no registry walk; without: the header, then one row per registry entry in order |
| `Commands.ShownRefs` | src/main.c:44-47 | the refs column is the reference count minus one as a 32-bit unsigned value; a count of 0 would show as 4294967295 |
| `Commands.TestCommand` | src/main.c:52-67 | with arguments: only the usage line, and no spawn or wait; without: spawn first; "out of memory" and no wait iff creation gave NULL; otherwise wait on the created thread |

## Left out

- USB bring-up, bus disconnect and connect, and serial driver setup (src/main.c:126-138). These are hardware plumbing through opaque driver calls.
- PWM peripheral start and pin alternate functions (src/main.c:141-160). Only the period (equal to `PWM_MAX`) is kept, as a constant; the 20 kHz carrier plays no part in the sequencing.
- Timing and scheduling: the 1 ms and 500 ms sleeps, thread priorities, and preemption between the stepper and supervisor threads. A sleep is a marker in the stepper model and one poll in the supervisor model.
- The stepper thread runs forever. The model covers every sleep of the endless run, through the initial writes plus `n` iterations, for any `n`; it does not stop the run in the middle of an iteration.
- `chprintf` formatting, the heap and registry contents, the `states[]` name lookup, the self-test thread's internals, and shell parsing and dispatch (the command table, src/main.c:69-79). These are kernel and library code not visible here. Output lines are structured values, not text.
- Supervisor.ReleasedAtMostOnce: requires that creation never returns the same handle twice. A `Handle` stands for one creation. Real memory could hand the same `thread_t` address to a later shell after release. `Supervisor.ReleasedAgainOnlyAfterRecreation` states the same fact without that assumption: a second release of a value needs a new creation of it in between.
- Kernel calls are merged where the command makes them as one step: `RegistryWalk` covers `chRegFirstThread` and every `chRegNextThread` (src/main.c:42-48), and `SpawnTest` covers the `chThdGetPriorityX()` query made for the spawn (src/main.c:60) as well as the creation.
