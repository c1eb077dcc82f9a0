/** Properties of the stopwatch controller over one tick and over runs of
    ticks: one action per press, the countdown rate, the one-shot beep and
    the pause blink. */
module StopwatchLemmas {
  import opened SevenSeg4
  import opened Stopwatch

  // ---------------------------------------------------------------------
  // Runs of ticks.
  // ---------------------------------------------------------------------

  /** The controller after one tick per entry of ps, ps[i] being the button level at tick i. */
  function Run(w: Snapshot, ps: seq<bool>): Snapshot
    decreases |ps|
  {
    if ps == [] then w else Run(Ticked(w, ps[0]), ps[1..])
  }

  /** The controller after n ticks with no press edge and the button up. */
  function Idle(w: Snapshot, n: nat): Snapshot
    decreases n, 1
  {
    if n == 0 then w else IdleAfter(w, n)
  }

  /** n > 0 idle ticks: the first one, then the other n - 1. Kept apart from
      Idle so that the verifier only expands a tick when a proof needs it. */
  function IdleAfter(w: Snapshot, n: nat): Snapshot
    requires n > 0
    decreases n, 0
  {
    Idle(Ticked(w, false), n - 1)
  }

  /** m idle ticks and then n more are m + n idle ticks. */
  lemma {:induction false} IdleAppend(w: Snapshot, m: nat, n: nat)
    ensures Idle(w, m + n) == Idle(Idle(w, m), n)
    decreases m
  {
    if m > 0 {
      IdleAppend(Ticked(w, false), m - 1, n);
    }
  }

  /** One idle tick. */
  lemma IdleOne(w: Snapshot)
    ensures Idle(w, 1) == Ticked(w, false)
  {
    assert IdleAfter(w, 1) == Idle(Ticked(w, false), 0);
  }

  /** Two stretches of idle ticks, one after the other. */
  lemma IdleChain(w: Snapshot, m: nat, x: Snapshot, n: nat, y: Snapshot)
    requires Idle(w, m) == x && Idle(x, n) == y
    ensures Idle(w, m + n) == y
  {
    IdleAppend(w, m, n);
  }

  // ---------------------------------------------------------------------
  // Press classification.
  // ---------------------------------------------------------------------

  /** n ticks with the button held down. */
  function Held(n: nat): (ps: seq<bool>)
    ensures |ps| == n
  {
    if n == 0 then [] else [true] + Held(n - 1)
  }

  /** n polls that take no action. */
  function Quiet(n: nat): (acts: seq<Action>)
    ensures |acts| == n
  {
    if n == 0 then [] else [NoAction] + Quiet(n - 1)
  }

  /** x saturated at the uint16 ceiling. */
  function Sat(x: nat): u16 {
    if x < Saturated then x else Saturated
  }

  /** The tracker after polling it once per entry of ps, and the actions taken. */
  function Track(b: Button, ps: seq<bool>): (r: (Button, seq<Action>))
    ensures |r.1| == |ps|
    decreases |ps|
  {
    if ps == [] then (b, [])
    else
      var (b1, a) := Poll(b, ps[0]);
      var (b2, acts) := Track(b1, ps[1..]);
      (b2, [a] + acts)
  }

  /** Polling over xs and then ys is polling over xs + ys. */
  lemma {:induction false} TrackAppend(b: Button, xs: seq<bool>, ys: seq<bool>)
    ensures var (bx, ax) := Track(b, xs);
      Track(b, xs + ys) == (Track(bx, ys).0, ax + Track(bx, ys).1)
    decreases |xs|
  {
    if xs == [] {
      assert xs + ys == ys;
      assert Track(b, xs) == (b, []);
      assert [] + Track(b, ys).1 == Track(b, ys).1;
    } else {
      assert (xs + ys)[0] == xs[0] && (xs + ys)[1..] == xs[1..] + ys;
      var (b1, a) := Poll(b, xs[0]);
      TrackAppend(b1, xs[1..], ys);
      var (bx, ax) := Track(b1, xs[1..]);
      assert Track(b, xs) == (bx, [a] + ax);
      assert Track(b, xs + ys) == (Track(bx, ys).0, [a] + (ax + Track(bx, ys).1));
      assert [a] + (ax + Track(bx, ys).1) == ([a] + ax) + Track(bx, ys).1;
    }
  }

  /** One more held tick: the first poll, then the rest. */
  lemma TrackHeld(b: Button, n: nat)
    requires n > 0
    ensures Track(b, Held(n)) ==
      (Track(Poll(b, true).0, Held(n - 1)).0, [Poll(b, true).1] + Track(Poll(b, true).0, Held(n - 1)).1)
  {
    var ps := Held(n);
    assert ps[0] == true && ps[1..] == Held(n - 1);
  }

  /** Holding the button after the long press fired: the counter climbs by one
      per tick and saturates at 0xFFFF, and no further action is taken. */
  lemma {:induction false} HoldFired(h: u16, n: nat)
    ensures Track(Button(true, true, h), Held(n)) == (Button(true, true, Sat(h + n)), Quiet(n))
    decreases n
  {
    if n > 0 {
      TrackHeld(Button(true, true, h), n);
      HoldFired(Sat(h + 1), n - 1);
      assert Sat(Sat(h + 1) + (n - 1)) == Sat(h + n);
    }
  }

  /** Holding the button before the long press fired: the long press fires
      exactly once, on the tick the count reaches 1500. */
  lemma {:induction false} HoldArmed(h: u16, n: nat)
    requires h < LongPressMs
    ensures Track(Button(true, false, h), Held(n)) ==
      if h + n >= LongPressMs as int then
        (Button(true, true, Sat(h + n)), Quiet(LongPressMs - 1 - h) + [LongPress] + Quiet(h + n - LongPressMs))
      else (Button(true, false, h + n), Quiet(n))
    decreases n
  {
    if n > 0 {
      TrackHeld(Button(true, false, h), n);
      if h + 1 == LongPressMs as int {
        HoldFired(LongPressMs, n - 1);
        assert Quiet(0) == [];
        assert Quiet(LongPressMs - 1 - h) + [LongPress] + Quiet(h + n - LongPressMs) == [LongPress] + Quiet(n - 1);
      } else {
        HoldArmed(h + 1, n - 1);
        if h + n >= LongPressMs as int {
          var q := Quiet(LongPressMs - 1 - (h + 1));
          var rest := [LongPress] + Quiet(h + n - LongPressMs);
          assert Quiet(LongPressMs - 1 - h) == [NoAction] + q;
          assert q + [LongPress] + Quiet(h + n - LongPressMs) == q + rest;
          assert Quiet(LongPressMs - 1 - h) + [LongPress] + Quiet(h + n - LongPressMs) == [NoAction] + (q + rest);
        }
      }
    }
  }

  /** The actions of one press held for n ticks and then released. */
  function PressActions(n: nat): (acts: seq<Action>)
    ensures |acts| == n + 1
  {
    if n < LongPressMs as int then Quiet(n) + [ShortPress]
    else Quiet(LongPressMs - 1) + [LongPress] + Quiet(n - LongPressMs) + [NoAction]
  }

  /** One press, one action: a press released before 1500 held ticks ends in
      exactly one short press, on the release tick; a press held 1500 ticks or
      more fires the long press exactly once, on the 1500th tick, and its
      release does nothing. Either way the tracker is idle afterwards. */
  lemma PressOnce(n: nat)
    ensures Track(Armed, Held(n) + [false]) ==
      (Button(false, n >= LongPressMs as int, Sat(n)), PressActions(n))
  {
    HoldArmed(0, n);
    TrackAppend(Armed, Held(n), [false]);
    var bh := Track(Armed, Held(n)).0;
    assert bh.tracking;
    var ps := [false];
    assert ps[0] == false && ps[1..] == [];
    assert Track(bh, ps) == (Poll(bh, false).0, [Poll(bh, false).1] + Track(Poll(bh, false).0, []).1);
    assert Track(Poll(bh, false).0, []).1 == [];
    assert [Poll(bh, false).1] + [] == [Poll(bh, false).1];
    assert Poll(bh, false) == (bh.(tracking := false), if bh.longFired then NoAction else ShortPress);
    assert Track(bh, ps) == (bh.(tracking := false), [if bh.longFired then NoAction else ShortPress]);
    if n >= LongPressMs as int {
      assert Quiet(LongPressMs - 1 - 0) + [LongPress] + Quiet(0 + n - LongPressMs) + [NoAction] == PressActions(n);
    }
  }

  /** Only the poll touches the tracker during a tick. */
  lemma TickButton(w: Snapshot, pressed: bool)
    ensures Ticked(w, pressed).button == Poll(w.button, pressed).0
  {
    var w1 := BuzzerTicked(w);
    assert w1.button == w.button;
    var w3 := Blinked(Buttoned(w1, pressed));
    assert w3.button == Poll(w.button, pressed).0;
  }

  /** Over a run of ticks the tracker evolves as the polls alone say, and
      the action the controller takes at tick i is the i-th action of Track. */
  lemma {:induction false} RunAction(w: Snapshot, ps: seq<bool>, i: nat)
    requires i < |ps|
    ensures ActionOf(Run(w, ps[..i]), ps[i]) == Track(w.button, ps).1[i]
    decreases i
  {
    if i > 0 {
      var w1 := Ticked(w, ps[0]);
      TickButton(w, ps[0]);
      assert ps[..i][0] == ps[0] && ps[..i][1..] == ps[1..][..i - 1];
      assert Run(w, ps[..i]) == Run(w1, ps[1..][..i - 1]);
      RunAction(w1, ps[1..], i - 1);
      assert ps[1..][i - 1] == ps[i];
    }
  }

  /** For the whole controller: after a press edge, a press held n ticks and
      released takes exactly the actions PressActions(n), one per tick. */
  lemma PressTakesOneAction(w: Snapshot, n: nat)
    requires w.button == Armed
    ensures forall i :: 0 <= i <= n ==> ActionOf(Run(w, (Held(n) + [false])[..i]), (Held(n) + [false])[i]) == PressActions(n)[i]
  {
    PressOnce(n);
    forall i | 0 <= i <= n
      ensures ActionOf(Run(w, (Held(n) + [false])[..i]), (Held(n) + [false])[i]) == PressActions(n)[i]
    {
      RunAction(w, Held(n) + [false], i);
    }
  }

  // ---------------------------------------------------------------------
  // What each action does to the whole controller.
  // ---------------------------------------------------------------------

  /** The tick on which a long press fires takes the controller back to its
      start-up values (except the tracker), whatever state it was in. */
  lemma LongPressTick(w: Snapshot, pressed: bool)
    requires ActionOf(w, pressed) == LongPress
    ensures Ticked(w, pressed) == Startup.(button := Poll(w.button, pressed).0)
  {
  }

  /** The tick of a short press toggles RUNNING to PAUSED, IDLE_PAUSED and
      PAUSED to RUNNING, leaves DONE alone, and keeps the time. */
  lemma ShortPressTick(w: Snapshot, pressed: bool)
    requires Inv(w) && ActionOf(w, pressed) == ShortPress
    ensures Ticked(w, pressed).state == ToggledState(w.state)
    ensures Ticked(w, pressed).tenths == w.tenths
  {
  }

  /** A tick with no action keeps the state, except that RUNNING may reach DONE. */
  lemma QuietTick(w: Snapshot, pressed: bool)
    requires Inv(w) && ActionOf(w, pressed) == NoAction
    ensures var r := Ticked(w, pressed); r.state == w.state || (w.state == Running && r.state == Done)
  {
  }

  /** Short presses alternate RUNNING and PAUSED. */
  lemma ToggleTwice(w: Snapshot)
    requires w.state in {Running, Paused}
    ensures Toggled(Toggled(w)) == w
  {
  }

  // ---------------------------------------------------------------------
  // Timekeeping.
  // ---------------------------------------------------------------------

  /** Without a long press, tenths never grow; they fall by at most one, and
      only on a tick that starts in RUNNING with no button action. */
  lemma TenthsMonotone(w: Snapshot, pressed: bool)
    requires Inv(w) && ActionOf(w, pressed) != LongPress
    ensures var r := Ticked(w, pressed);
      r.tenths <= w.tenths &&
      (r.tenths < w.tenths ==> r.tenths == w.tenths - 1 && w.state == Running && ActionOf(w, pressed) == NoAction)
  {
  }

  /** With no press being tracked the button level plays no part in a tick. */
  lemma UntrackedTick(w: Snapshot, pressed: bool)
    requires !w.button.tracking
    ensures Ticked(w, pressed) == Timekept(Blinked(BuzzerTicked(w)))
  {
    assert Buttoned(BuzzerTicked(w), pressed) == BuzzerTicked(w);
  }

  /** One idle tick in RUNNING: a millisecond counted, and every hundredth one a tenth off. */
  lemma RunningTick(w: Snapshot)
    requires Inv(w) && w.state == Running && !w.button.tracking
    ensures Ticked(w, false) ==
      if w.msAccum + 1 < TenthStepMs as int then w.(msAccum := w.msAccum + 1)
      else if w.tenths > 1 then w.(msAccum := 0, tenths := w.tenths - 1, displayed := w.tenths - 1)
      else DoneEntered(w.button)
  {
    UntrackedTick(w, false);
    assert BuzzerTicked(w) == w;
    assert Blinked(w) == w;
  }

  /** One idle tick in PAUSED: the blink counter runs, and at 500 the flag flips. */
  lemma PausedTick(w: Snapshot)
    requires Inv(w) && w.state == Paused && !w.button.tracking
    ensures Ticked(w, false) ==
      if w.blinkMs + 1 < PauseBlinkMs as int then w.(blinkMs := w.blinkMs + 1)
      else w.(blinkMs := 0, show := !w.show, displayed := if w.show then Blank else w.tenths)
  {
    UntrackedTick(w, false);
    assert BuzzerTicked(w) == w;
    assert Timekept(Blinked(w)) == Blinked(w);
  }

  /** One idle tick in DONE: only the buzzer runs down. */
  lemma DoneTick(w: Snapshot)
    requires Inv(w) && w.state == Done && !w.button.tracking
    ensures Ticked(w, false) == BuzzerTicked(w)
  {
    UntrackedTick(w, false);
    var w1 := BuzzerTicked(w);
    assert Blinked(w1) == w1;
    assert Timekept(w1) == w1;
  }

  /** Within one tenth, idle ticks in RUNNING only advance the accumulator. */
  lemma {:induction false} CountWithin(w: Snapshot, j: nat)
    requires Inv(w) && w.state == Running && !w.button.tracking && w.tenths > 0
    requires w.msAccum + j < TenthStepMs as int
    ensures Idle(w, j) == w.(msAccum := w.msAccum + j)
    decreases j
  {
    if j > 0 {
      RunningTick(w);
      CountWithin(Ticked(w, false), j - 1);
    }
  }

  /** The hundredth millisecond of a tenth. */
  lemma LastMillisecond(w: Snapshot)
    requires Inv(w) && w.state == Running && !w.button.tracking && w.msAccum == TenthStepMs - 1
    ensures Idle(w, 1) ==
      if w.tenths > 1 then w.(msAccum := 0, tenths := w.tenths - 1, displayed := w.tenths - 1)
      else DoneEntered(w.button)
  {
    RunningTick(w);
  }

  /** The state entered when the countdown reaches zero: DONE at 000.0, latch
      set, beep started for 1000 ms. */
  function DoneEntered(b: Button): Snapshot {
    Snapshot(Done, 0, 0, b, true, DoneBeepMs, true, 0, true, 0)
  }

  /** The rest of the current tenth: once the accumulator wraps, one tenth is
      gone, or DONE is entered if it was the last. */
  lemma {:induction false} RestOfTenth(w: Snapshot)
    requires Inv(w) && w.state == Running && !w.button.tracking && w.tenths > 0
    ensures Idle(w, TenthStepMs - w.msAccum) ==
      if w.tenths > 1 then w.(msAccum := 0, tenths := w.tenths - 1, displayed := w.tenths - 1)
      else DoneEntered(w.button)
    decreases TenthStepMs - w.msAccum
  {
    if w.msAccum == TenthStepMs - 1 {
      LastMillisecond(w);
    } else {
      RunningTick(w);
      RestOfTenth(w.(msAccum := w.msAccum + 1));
    }
  }

  /** Every 100 idle ticks in RUNNING take exactly one tenth off, and the
      accumulator comes back to where it was: no fraction is gained or lost. */
  lemma TenthElapses(w: Snapshot)
    requires Inv(w) && w.state == Running && !w.button.tracking && w.tenths > 1
    ensures Idle(w, TenthStepMs) == w.(tenths := w.tenths - 1, displayed := w.tenths - 1)
  {
    var a := w.msAccum;
    var w2 := w.(msAccum := 0, tenths := w.tenths - 1, displayed := w.tenths - 1);
    RestOfTenth(w);
    CountWithin(w2, a as int);
    IdleChain(w, TenthStepMs - a, w2, a as int, w2.(msAccum := a));
  }

  /** The last tenth: 100 idle ticks from tenths 1 enter DONE after the
      100 - a ticks that finish the tenth (a being the accumulator), and the
      remaining a ticks in DONE, with the accumulator cleared, only run the
      beep down by a. */
  lemma LastTenthElapses(w: Snapshot)
    requires Inv(w) && w.state == Running && !w.button.tracking && w.tenths == 1
    ensures Idle(w, TenthStepMs) == DoneEntered(w.button).(buzRemainMs := DoneBeepMs - w.msAccum)
  {
    var a := w.msAccum;
    var d := DoneEntered(w.button);
    FinalTenth(w);
    DoneIdle(d, a as int);
    IdleChain(w, TenthStepMs - a, d, a as int, d.(buzRemainMs := DoneBeepMs - a));
  }

  /** Every 100 idle ticks in RUNNING with time left take exactly one tenth off. */
  lemma HundredTicks(w: Snapshot)
    requires Inv(w) && w.state == Running && !w.button.tracking && w.tenths > 0
    ensures Idle(w, TenthStepMs).tenths == w.tenths - 1
    ensures Idle(w, TenthStepMs).state == if w.tenths > 1 then Running else Done
  {
    if w.tenths > 1 {
      TenthElapses(w);
    } else {
      LastTenthElapses(w);
    }
  }

  /** The last tenth: after the remaining ticks of it the controller enters DONE with the beep on. */
  lemma FinalTenth(w: Snapshot)
    requires Inv(w) && w.state == Running && !w.button.tracking && w.tenths == 1
    ensures Idle(w, TenthStepMs - w.msAccum) == DoneEntered(w.button)
  {
    RestOfTenth(w);
  }

  /** A countdown started at tenths t with an empty accumulator is still
      RUNNING after every k < 100 * t idle ticks, and reaches DONE, with the
      beep just started, after exactly 100 * t idle ticks. */
  lemma {:induction false} Countdown(w: Snapshot, t: nat)
    requires Inv(w) && w.state == Running && !w.button.tracking && w.msAccum == 0
    requires 1 <= t && w.tenths == t
    ensures forall k :: 0 <= k < 100 * t ==> Idle(w, k).state == Running
    ensures Idle(w, 100 * t) == DoneEntered(w.button)
    decreases t
  {
    if t == 1 {
      FinalTenth(w);
    } else {
      Countdown(w.(tenths := t - 1, displayed := t - 1), t - 1);
      CountdownStep(w, t);
    }
    forall k | 0 <= k < 100 * t
      ensures Idle(w, k).state == Running
    {
      RunningBefore(w, k);
    }
  }

  /** Before the time left runs out, idle ticks keep the controller RUNNING
      with time left. */
  lemma {:induction false} RunningBefore(w: Snapshot, k: nat)
    requires Inv(w) && w.state == Running && !w.button.tracking && w.tenths > 0
    requires k + w.msAccum < 100 * w.tenths
    ensures Idle(w, k).state == Running && Idle(w, k).tenths > 0 && !Idle(w, k).button.tracking
    decreases k
  {
    if k > 0 {
      RunningTick(w);
      var w1 := Ticked(w, false);
      assert Idle(w, k) == Idle(w1, k - 1);
      TickKeepsInv(w, false);
      RunningBefore(w1, k - 1);
    }
  }

  /** The inductive step of Countdown: one tenth, then the remaining t - 1. */
  lemma CountdownStep(w: Snapshot, t: nat)
    requires Inv(w) && w.state == Running && !w.button.tracking && w.msAccum == 0
    requires 2 <= t && w.tenths == t
    requires Idle(w.(tenths := t - 1, displayed := t - 1), 100 * (t - 1)) == DoneEntered(w.button)
    ensures Idle(w, 100 * t) == DoneEntered(w.button)
  {
    var w1 := w.(tenths := t - 1, displayed := t - 1);
    TenthElapses(w);
    IdleChain(w, 100, w1, 100 * (t - 1), DoneEntered(w.button));
  }

  // ---------------------------------------------------------------------
  // DONE and the one-shot beep.
  // ---------------------------------------------------------------------

  /** The tick that reaches DONE sets the latch and starts the 1000 ms beep;
      the latch was clear before, so the beep always starts. */
  lemma DoneEntry(w: Snapshot, pressed: bool)
    requires Inv(w) && w.state != Done && Ticked(w, pressed).state == Done
    ensures !w.doneLatched
    ensures Ticked(w, pressed) == DoneEntered(Poll(w.button, pressed).0)
  {
    var w2 := Buttoned(BuzzerTicked(w), pressed);
    assert w2.state == Running && w2.tenths == 1 && w2.msAccum == TenthStepMs - 1;
    assert Blinked(w2) == w2;
  }

  /** While in DONE no beep restarts: without a long press the state stays
      DONE with the latch set and the buzzer only counts down. */
  lemma DoneStays(w: Snapshot, pressed: bool)
    requires Inv(w) && w.state == Done && ActionOf(w, pressed) != LongPress
    ensures var r := Ticked(w, pressed);
      r.state == Done && r.doneLatched && r.tenths == 0 &&
      r.buzRemainMs == (if w.buzRemainMs > 0 then w.buzRemainMs - 1 else 0)
  {
  }

  /** Idle ticks in DONE only run the buzzer down. */
  lemma {:induction false} DoneIdle(w: Snapshot, k: nat)
    requires Inv(w) && w.state == Done && !w.button.tracking
    ensures var left := if k < w.buzRemainMs as int then w.buzRemainMs - k else 0;
      Idle(w, k) == w.(buzRemainMs := left, buzzerOn := left > 0)
    decreases k
  {
    if k > 0 {
      DoneTick(w);
      DoneIdle(Ticked(w, false), k - 1);
    }
  }

  /** Because the buzzer is ticked before timekeeping, the DONE beep is on for
      exactly the 1000 ticks that follow the one that reached zero. */
  lemma BeepLength(b: Button, k: nat)
    requires !b.tracking
    ensures Idle(DoneEntered(b), k).buzzerOn <==> k < DoneBeepMs as int
    ensures Idle(DoneEntered(b), k).state == Done
  {
    DoneIdle(DoneEntered(b), k);
  }

  // ---------------------------------------------------------------------
  // Pause blinking.
  // ---------------------------------------------------------------------

  /** Within one blink period, idle ticks in PAUSED only advance the blink counter. */
  lemma {:induction false} BlinkWithin(w: Snapshot, j: nat)
    requires Inv(w) && w.state == Paused && !w.button.tracking
    requires w.blinkMs + j < PauseBlinkMs as int
    ensures Idle(w, j) == w.(blinkMs := w.blinkMs + j)
    decreases j
  {
    if j > 0 {
      PausedTick(w);
      BlinkWithin(Ticked(w, false), j - 1);
    }
  }

  /** At the end of the blink period the show flag flips and the display switches between the value and BLANK. */
  lemma {:induction false} BlinkFlips(w: Snapshot)
    requires Inv(w) && w.state == Paused && !w.button.tracking
    ensures Idle(w, PauseBlinkMs - w.blinkMs) ==
      w.(blinkMs := 0, show := !w.show, displayed := if w.show then Blank else w.tenths)
    decreases PauseBlinkMs - w.blinkMs
  {
    PausedTick(w);
    if w.blinkMs < PauseBlinkMs - 1 {
      BlinkFlips(w.(blinkMs := w.blinkMs + 1));
    } else {
      IdleOne(w);
    }
  }

  /** In PAUSED the display alternates every 500 ticks: after 500 idle ticks the
      flag is flipped, after 1000 everything is as it was. */
  lemma BlinkPeriod(w: Snapshot)
    requires Inv(w) && w.state == Paused && !w.button.tracking && w.blinkMs == 0
    ensures Idle(w, PauseBlinkMs).show == !w.show
    ensures Idle(w, PauseBlinkMs).displayed == (if w.show then Blank else w.tenths)
    ensures Idle(w, 2 * PauseBlinkMs) == w
  {
    var w1 := w.(show := !w.show, displayed := if w.show then Blank else w.tenths);
    HalfPeriod(w);
    HalfPeriod(w1);
    assert w1.(show := !w1.show, displayed := if w1.show then Blank else w1.tenths) == w;
    IdleChain(w, PauseBlinkMs, w1, PauseBlinkMs, w);
  }

  /** A whole blink period from a fresh counter. */
  lemma HalfPeriod(w: Snapshot)
    requires Inv(w) && w.state == Paused && !w.button.tracking && w.blinkMs == 0
    ensures Idle(w, PauseBlinkMs) == w.(show := !w.show, displayed := if w.show then Blank else w.tenths)
  {
    BlinkFlips(w);
  }
}
