# nucleo-stopwatch in Dafny

A model of the two tick-driven modules of a countdown stopwatch for an STM32
Nucleo board, with proofs of their timing and display properties.

- **Stopwatch controller** (`stopwatch.dfy`, module `Stopwatch`). The
  controller counts down from 100.0 s in tenths. It goes through the states
  IDLE_PAUSED, RUNNING, PAUSED and DONE. Every 1 ms tick runs four steps in a
  fixed order:
  1. the one-shot buzzer countdown;
  2. the button poll, which classifies a press as short (toggle) or long
     (reset to 100.0);
  3. the pause blinker, which chooses what the display shows;
  4. the timekeeping, which takes a tenth off every 100 ms and enters DONE
     with a single 1 s beep guarded by a latch.

  A separate edge call arms the press tracker. The module state is a class,
  `Controller`, with one field per module global. Each method is proved to
  follow a pure function on a value of the whole state (`Snapshot`):
  `BuzzerTicked`, `Buttoned`, `Blinked`, `Timekept`, and `Ticked` for the whole
  tick. The invariant `Inv` holds for every state reached through the
  constructor, `Tick` and `ButtonEdgePress`; the other methods model the
  module's `static` helpers and are only called from those.
- **Multi-tick properties** (`stopwatch_lemmas.dfy`, module `StopwatchLemmas`):
  - one action per press;
  - a tenth every 100 ticks, and DONE after exactly 100·t ticks;
  - a beep of exactly 1000 ticks;
  - a blink flip every 500 ticks.
- **Seven-segment driver** (`sevenseg4.dfy`, module `SevenSeg4`). The driver
  holds:
  - the digit table, with its distinct OFF entry;
  - the stored value, clamped to 1000 or BLANK (`0xFFFF`);
  - a four-entry frame buffer, an `array`, rebuilt only when the scan
    cursor is 0;
  - the scan cursor, which advances mod 4;
  - abstract outputs: four digit enables and an 8-bit segment pattern.

  A ghost trace records each output write, so the anti-ghosting order can be
  stated. The class `Display` is proved against the pure value model `Panel`.
  Beside it sits an independent decoder, `ReadFrame`, which reads a frame the
  way a person reads "HSS.s". It is used to prove that every rebuilt frame
  reads back as the stored value.

Some members have no contract of their own and are used by the members in
the table:

- `SevenSeg4.SegLut` is the table `seg_lut` (`Core/Src/sevenseg4.c:9-21`).
- `SevenSeg4.Image` is the buffer `update_display_from_tenths` writes
  (`Core/Src/sevenseg4.c:98-115`).
- `SevenSeg4.Rebuilt` is the rebuild at the cycle boundary
  (`Core/Src/sevenseg4.c:148-161`): all OFF for BLANK, `Image` otherwise.
- `Stopwatch.Ticked` is `Stopwatch_Tick1ms` (`Core/Src/stopwatch.c:134-227`): the four step
  functions in order.

The controller reaches the display only through `Display.SetTenths`. The
value the display holds is part of `Snapshot` (`displayed`).

### Following the code where the design prose differs

- A long press runs `reset_to_startup`, which does not clear the tracker
  (`Core/Src/stopwatch.c:82-101`). After a long press the tracker stays armed
  with the long-press flag set. The release then clears tracking and toggles
  nothing. `Reset` keeps `button` unchanged, and `PressOnce` states the
  release.
- A short press does not clear the millisecond accumulator. The accumulator
  is already 0 outside RUNNING, because every non-RUNNING tick clears it. This
  is part of `Inv`.
- The hold and blink counters saturate at `0xFFFF`. The millisecond
  accumulator's increment has no saturation in the code, so `Timekept`
  writes it as a 16-bit wrap-around. `Inv` keeps the accumulator below 100,
  so the wrap is never reached.

## Model

| member | source | states |
|---|---|---|
| SevenSeg4.Stored | Core/Src/sevenseg4.c:132-142 | BLANK is stored unchanged, values up to 1000 are stored as given, larger ones become 1000; the result is always in [0,1000] or BLANK |
| SevenSeg4.Digits | Core/Src/sevenseg4.c:106-109 | the split gives four digits, each in 0..9 (so every table index used is in 1..10) |
| SevenSeg4.DigitsValue | Core/Src/sevenseg4.c:100-109 | for every value up to 9999 the four digits recombine, 1000·h + 100·t + 10·o + s, to the value |
| SevenSeg4.LutEntry | Core/Src/sevenseg4.c:9-21 | no table entry has bit 7 set; forcing the point on an entry sets bit 7 and masking it off gives the entry back; an entry is OFF exactly when it is entry 0 |
| SevenSeg4.LutShape | Core/Src/sevenseg4.c:9-21 | the table has 11 entries, entry 0 is OFF and differs from digit 0's pattern |
| SevenSeg4.LutDistinct | Core/Src/sevenseg4.c:9-21 | the eleven table entries are pairwise distinct |
| SevenSeg4.FrameShape | Core/Src/sevenseg4.c:111-114 | in a frame of digits the decimal point is lit on the third position and on no other, and no position is OFF |
| SevenSeg4.FindDigit | Core/Src/sevenseg4.c:9-21 | the table inverted: the result is a digit whose pattern is the argument, or -1 and then no remaining digit has that pattern |
| SevenSeg4.DigitShown | Core/Src/sevenseg4.c:9-21 | a digit 0..9 whose table pattern is the argument, or -1 exactly when no digit's table pattern is the argument |
| SevenSeg4.ReadFrame | Core/Src/sevenseg4.c:100-104 | reading a frame in the HSS.s format: Dark exactly for the all-OFF frame, a number in 0..9999 otherwise unless garbled |
| SevenSeg4.FindDigitOfLut | Core/Src/sevenseg4.c:9-21 | the search for digit d's pattern finds d |
| SevenSeg4.ShowsDigit | Core/Src/sevenseg4.c:9-21 | digit d's pattern reads as d, with and without the forced decimal point |
| SevenSeg4.GlyphReads | Core/Src/sevenseg4.c:111-114 | a digit's pattern reads as that digit with the point dark, and with the point forced on it reads as the digit with the point lit |
| SevenSeg4.ReadPatterns | Core/Src/sevenseg4.c:111-114 | four patterns that read as digits, with the point on the third only, read as the number those digits make |
| SevenSeg4.ReadDigits | Core/Src/sevenseg4.c:111-114 | the frame written for any four digits reads back as the number they make |
| SevenSeg4.ReadRebuilt | Core/Src/sevenseg4.c:148-161 | round trip: for every value the driver can store, the rebuilt frame reads as Dark for BLANK and as that very number otherwise |
| SevenSeg4.WorkedExamples | Core/Src/sevenseg4.c:100-104 | 1000, 999, 42 and 0 split into 1 0 0 0, 0 9 9 9, 0 0 4 2, 0 0 0 0, with the frames "100.0", "099.9", "004.2", "000.0" |
| SevenSeg4.OneHot | Core/Src/sevenseg4.c:43-54 | exactly digit c's enable is on |
| SevenSeg4.NoGhosting | Core/Src/sevenseg4.c:80-94 | after each of the four writes of a scan step no digit is lit with a pattern other than the cursor's; the step ends with exactly the cursor's digit enabled, carrying its pattern |
| SevenSeg4.PanelSet | Core/Src/sevenseg4.c:132-142 | setting a value changes only the stored value, to the clamped argument; frame, cursor and outputs are untouched |
| SevenSeg4.PanelTick | Core/Src/sevenseg4.c:145-165 | a tick keeps the stored value, advances the cursor by one mod 4, rebuilds the frame from the stored value when the cursor was 0 and leaves it unchanged otherwise |
| SevenSeg4.TickWrites | Core/Src/sevenseg4.c:80-94 | the outputs a tick leaves are those of its four scan writes applied in order, and none of those writes ghosts |
| SevenSeg4.SetAndTick | Core/Src/sevenseg4.c:132-165 | a set followed by a tick rebuilds from the clamped value only at the boundary, and lights exactly the old cursor's digit with its frame entry |
| SevenSeg4.MidCycle | Core/Src/sevenseg4.c:148-161 | after the boundary, the rest of the cycle lights the remaining digits from the same frame whatever values are set, and returns to the boundary with that frame |
| SevenSeg4.TearFreeCycle | Core/Src/sevenseg4.c:147-164 | over one scan cycle from the boundary the four steps light digits 0, 1, 2, 3 in turn from the frame of the value set before the first step, whatever is set before the others |
| SevenSeg4.DrivenAppend | Core/Src/sevenseg4.c:145-165 | driving two runs of set-and-tick one after the other is driving their concatenation |
| SevenSeg4.BlankThenNumber | Core/Src/sevenseg4.c:150-160 | a cycle with BLANK set darkens the whole frame; a numeric value set at the next boundary is shown from that rebuild on |
| SevenSeg4.Display.constructor | Core/Src/sevenseg4.c:119-130 | after init the cursor is 0, the value 1000, the outputs dark, the buffer the frame of 1000, and the writes were digits off, then segments off |
| SevenSeg4.Display.DigitsAllOff | Core/Src/sevenseg4.c:34-41 | every digit enable off, the segments unchanged, the write recorded |
| SevenSeg4.Display.SegmentsAllOff | Core/Src/sevenseg4.c:56-63 | the segment lines all dark, the enables unchanged, the write recorded |
| SevenSeg4.Display.SegmentsFromPattern | Core/Src/sevenseg4.c:65-78 | the segment lines carry the pattern, the enables unchanged, the write recorded |
| SevenSeg4.Display.DigitOnAt | Core/Src/sevenseg4.c:43-54 | digit i's enable on for i in 0..3, nothing otherwise, the write recorded |
| SevenSeg4.Display.ScanStep | Core/Src/sevenseg4.c:80-94 | the four writes happen in the anti-ghosting order; afterwards exactly the old cursor's digit is enabled, showing its buffer entry, and the cursor has advanced by one mod 4 |
| SevenSeg4.Display.UpdateFromTenths | Core/Src/sevenseg4.c:98-115 | the buffer in place becomes the frame of t: the table entries of its four digits, with the point forced on the third |
| SevenSeg4.Display.SetTenths | Core/Src/sevenseg4.c:132-142 | the stored value becomes the clamped argument and nothing else of the driver changes |
| SevenSeg4.Display.Tick | Core/Src/sevenseg4.c:145-165 | the driver's new state is PanelTick of the old one; off the boundary the buffer is unchanged; the writes are the scan step's for the old cursor |
| Stopwatch.BeepStarted | Core/Src/stopwatch.c:62-69 | a zero duration changes nothing; otherwise the buzzer is on with the duration remaining; nothing but the buzzer changes |
| Stopwatch.BuzzerTicked | Core/Src/stopwatch.c:71-80 | at zero remaining nothing changes; otherwise one tick less remains, and the output goes off exactly when that reaches zero; nothing but the buzzer changes |
| Stopwatch.Reset | Core/Src/stopwatch.c:82-101 | the start-up values (IDLE_PAUSED, 1000, accumulator 0, blink 0, shown, latch clear, buzzer off with 0 left, display 1000) with the press tracker left as it was |
| Stopwatch.Toggled | Core/Src/stopwatch.c:103-113 | RUNNING becomes PAUSED, IDLE_PAUSED and PAUSED become RUNNING, DONE stays; nothing but the state changes |
| Stopwatch.Edge | Core/Src/stopwatch.c:125-132 | the tracker is armed: tracking, long press not fired, hold 0; nothing else changes |
| Stopwatch.Poll | Core/Src/stopwatch.c:140-166 | an idle tracker does nothing; tracking continues exactly while pressed; the hold count grows by one per pressed tick and saturates at 0xFFFF; a long press fires exactly when pressed, not yet fired and the count reaches 1500; a short press exactly on a release before one fired |
| Stopwatch.Buttoned | Core/Src/stopwatch.c:139-167 | after the poll step the tracker is the one the poll computed |
| Stopwatch.Blinked | Core/Src/stopwatch.c:169-191 | the display gets BLANK when paused and hidden and the tenths otherwise; outside PAUSED the blink counter is 0 and the value shown; only blink counter, flag and display change |
| Stopwatch.Timekept | Core/Src/stopwatch.c:194-226 | outside RUNNING only the accumulator is cleared; tenths stay or, in RUNNING, fall by one; tracker and blink are untouched |
| Stopwatch.Controller.constructor | Core/Src/stopwatch.c:118-123 | after the static initial values and init, the state is the start-up state and the invariant holds |
| Stopwatch.Controller.BeepStart | Core/Src/stopwatch.c:62-69 | the fields change as BeepStarted says |
| Stopwatch.Controller.BuzzerTick | Core/Src/stopwatch.c:71-80 | the fields change as BuzzerTicked says |
| Stopwatch.Controller.ResetToStartup | Core/Src/stopwatch.c:82-101 | the fields and the display value change as Reset says |
| Stopwatch.Controller.ShortPressToggle | Core/Src/stopwatch.c:103-113 | the state changes as Toggled says |
| Stopwatch.Controller.ButtonEdgePress | Core/Src/stopwatch.c:125-132 | the tracker is armed as Edge says, and the invariant is kept |
| Stopwatch.Controller.PollButton | Core/Src/stopwatch.c:139-167 | the fields change as Buttoned says |
| Stopwatch.Controller.UpdateBlink | Core/Src/stopwatch.c:169-191 | the fields and the display value change as Blinked says |
| Stopwatch.Controller.KeepTime | Core/Src/stopwatch.c:194-226 | the fields and the display value change as Timekept says |
| Stopwatch.Controller.Tick | Core/Src/stopwatch.c:134-227 | the whole tick is Ticked (buzzer, button, blink, timekeeping, in that order); the invariant is kept; the display holds BLANK exactly when paused and hidden, and the tenths otherwise |
| Stopwatch.Controller.GetState | Core/Src/stopwatch.c:229-232 | returns the current state |
| Stopwatch.Controller.GetTenths | Core/Src/stopwatch.c:234-237 | returns the current tenths, which are at most 1000 |
| Stopwatch.StartupInv | Core/Src/stopwatch.c:82-101 | the start-up state and the reset of any state satisfy the invariant |
| Stopwatch.EdgeKeepsInv | Core/Src/stopwatch.c:125-132 | a press edge keeps the invariant |
| Stopwatch.TickKeepsInv | Core/Src/stopwatch.c:134-227 | every tick keeps the invariant: tenths in [0,1000], accumulator below 100 and 0 outside RUNNING, blink counter 0 and value shown outside PAUSED, DONE exactly at 0 tenths with the latch set, the buzzer on exactly while time remains and only in DONE, the display holding the value the state calls for |
| StopwatchLemmas.IdleAppend | Core/Src/stopwatch.c:134-227 | m idle ticks followed by n idle ticks are m + n idle ticks |
| StopwatchLemmas.TrackAppend | Core/Src/stopwatch.c:140-166 | polling over two stretches of button levels is polling over their concatenation, the actions concatenated |
| StopwatchLemmas.HoldFired | Core/Src/stopwatch.c:147-155 | once the long press has fired, holding on raises the count by one per tick up to 0xFFFF and takes no action |
| StopwatchLemmas.HoldArmed | Core/Src/stopwatch.c:144-155 | holding from a count below 1500 takes no action until the count reaches 1500, fires the long press on that tick only, and no action after it |
| StopwatchLemmas.PressOnce | Core/Src/stopwatch.c:125-166 | a press held n ticks and released: before 1500 one short press on the release tick; from 1500 one long press on the 1500th tick and nothing on release; the tracker ends idle |
| StopwatchLemmas.TickButton | Core/Src/stopwatch.c:134-167 | only the poll changes the tracker during a tick |
| StopwatchLemmas.RunAction | Core/Src/stopwatch.c:140-166 | over a run of ticks, the action the controller takes at tick i is the i-th action of the poll sequence alone |
| StopwatchLemmas.PressTakesOneAction | Core/Src/stopwatch.c:125-166 | for the whole controller, a press after an edge takes exactly the actions of PressOnce, one per tick |
| StopwatchLemmas.LongPressTick | Core/Src/stopwatch.c:150-154 | the tick a long press fires on leaves the start-up state, whatever state it began in, with the tracker from the poll |
| StopwatchLemmas.ShortPressTick | Core/Src/stopwatch.c:161-165 | the tick of a short press toggles the state as ToggledState says and keeps the tenths |
| StopwatchLemmas.QuietTick | Core/Src/stopwatch.c:134-227 | a tick with no button action keeps the state, except that RUNNING may reach DONE |
| StopwatchLemmas.ToggleTwice | Core/Src/stopwatch.c:103-113 | two short presses from RUNNING or PAUSED come back to the same state |
| StopwatchLemmas.TenthsMonotone | Core/Src/stopwatch.c:195-226 | without a long press, tenths never grow, and they fall by exactly one only on a RUNNING tick without button action |
| StopwatchLemmas.UntrackedTick | Core/Src/stopwatch.c:139-167 | with no press tracked, the button level plays no part in a tick |
| StopwatchLemmas.RunningTick | Core/Src/stopwatch.c:194-221 | an idle RUNNING tick counts one more millisecond; the 100th one takes a tenth off, or enters DONE from the last tenth |
| StopwatchLemmas.PausedTick | Core/Src/stopwatch.c:169-184 | an idle PAUSED tick advances the blink counter; the 500th one clears it, flips the flag and swaps the display between the value and BLANK |
| StopwatchLemmas.DoneTick | Core/Src/stopwatch.c:134-227 | an idle DONE tick only runs the buzzer down |
| StopwatchLemmas.CountWithin | Core/Src/stopwatch.c:199-201 | within a tenth, idle RUNNING ticks only advance the accumulator |
| StopwatchLemmas.LastMillisecond | Core/Src/stopwatch.c:201-218 | the 100th millisecond of a tenth takes the tenth off, or enters DONE |
| StopwatchLemmas.RestOfTenth | Core/Src/stopwatch.c:195-221 | from any accumulator value, the remaining ticks of the tenth take exactly that tenth off, or enter DONE from the last one |
| StopwatchLemmas.TenthElapses | Core/Src/stopwatch.c:195-221 | with more than one tenth left, every 100 idle RUNNING ticks take exactly one tenth off, and the accumulator comes back to its value |
| StopwatchLemmas.LastTenthElapses | Core/Src/stopwatch.c:195-226 | with one tenth left and accumulator a, 100 idle ticks enter DONE after 100 - a of them and spend the other a in DONE with the accumulator cleared, so the beep has a ticks less to run |
| StopwatchLemmas.HundredTicks | Core/Src/stopwatch.c:195-226 | from RUNNING with any time left, every 100 idle ticks take exactly one tenth off, ending RUNNING, or DONE if it was the last |
| StopwatchLemmas.FinalTenth | Core/Src/stopwatch.c:204-218 | the last tenth ends in DONE with the latch set and the beep started |
| StopwatchLemmas.Countdown | Core/Src/stopwatch.c:195-221 | a run started at t tenths with an empty accumulator is still RUNNING after every k < 100·t idle ticks, and is in DONE, with the beep just started, after exactly 100·t |
| StopwatchLemmas.RunningBefore | Core/Src/stopwatch.c:195-221 | while fewer ticks have passed than the time left (100 per tenth, less the accumulator), idle ticks keep the controller RUNNING with time left |
| StopwatchLemmas.CountdownStep | Core/Src/stopwatch.c:195-221 | one tenth followed by a countdown of t - 1 tenths is a countdown of t tenths |
| StopwatchLemmas.DoneEntry | Core/Src/stopwatch.c:209-218 | the tick that reaches DONE finds the latch clear, sets it and starts the 1000 ms beep |
| StopwatchLemmas.DoneStays | Core/Src/stopwatch.c:209-218 | without a long press DONE stays DONE at 0 tenths with the latch set, and the buzzer only counts down: no beep restarts |
| StopwatchLemmas.DoneIdle | Core/Src/stopwatch.c:71-80 | k idle DONE ticks take k off the buzzer's remaining time, down to 0, with the output on exactly while time remains |
| StopwatchLemmas.BeepLength | Core/Src/stopwatch.c:134-227 | the DONE beep is on for exactly the 1000 ticks after the one that reached zero, and the state stays DONE |
| StopwatchLemmas.BlinkWithin | Core/Src/stopwatch.c:170-179 | within a blink period, idle PAUSED ticks only advance the blink counter |
| StopwatchLemmas.BlinkFlips | Core/Src/stopwatch.c:170-184 | at the end of the blink period the flag flips and the display switches between the value and BLANK |
| StopwatchLemmas.HalfPeriod | Core/Src/stopwatch.c:170-184 | 500 idle PAUSED ticks from a fresh counter flip the flag and the displayed value |
| StopwatchLemmas.BlinkPeriod | Core/Src/stopwatch.c:170-184 | in PAUSED the display flips every 500 ticks, and after 1000 everything is as it was |

## Left out

- HAL GPIO calls, ports, pins and the active-low wiring
  (`Core/Src/sevenseg4.c:34-78`, `Core/Src/stopwatch.c:52-60`). They are
  foreign hardware calls. The model has abstract outputs instead: digit
  enables true when on, a segment pattern with a set bit when lit, and
  `buzzerOn`.
- The raw button read (`Core/Src/stopwatch.c:142`) is the `pressed`
  argument of the tick.
- `volatile` and the EXTI/TIM2 interrupt contexts. The edge call and the
  tick are sequential methods of one object, with no interleaving inside a
  tick.
- Debounce, tick calibration and jitter. The code implements none of them.
- The glue that calls `Stopwatch_Tick1ms` and `SevenSeg4_Tick1ms` is not
  part of this model, so neither is the order of those two calls. The two
  modules are modelled separately.
- The headers `Core/Inc/stopwatch.h` and `Core/Inc/sevenseg4.h` are not
  part of this model. The state enum and the BLANK constant are restated
  in the Dafny modules.
- SevenSeg4.Display.ScanStep: the cursor update `(scan_idx + 1) & 0x03` is
  written as `(scan + 1) % 4`. The two are equal for every cursor in 0..3,
  which `Valid` keeps.
- SevenSeg4.Display.trace: a ghost record of the output writes. It is there
  only to state the anti-ghosting order.
- Stopwatch.Controller.GetTenths: its bound of 1000 needs `Valid()`. The
  constructor, `Tick` and `ButtonEdgePress` keep `Valid()`, and the getters
  change nothing. The other methods model the module's `static` helpers; they
  are not promised to keep `Valid()` when called on their own.
- Stopwatch.Timekept: the millisecond accumulator's 16-bit wrap-around is
  modelled, but `Inv` shows it never happens.
- The multi-tick lemmas are proved for ticks with the button up and no
  press tracked (`Idle`). Runs with presses are covered per press, by
  `PressOnce` and `PressTakesOneAction`, and per tick, by `LongPressTick`,
  `ShortPressTick`, `QuietTick` and `TenthsMonotone`.
