/** Model of the countdown stopwatch controller (Core/Src/stopwatch.c).

    One 1 ms tick runs, in this order: the buzzer countdown, the button poll
    (long-press reset or short-press toggle), the pause blinker that chooses
    what the display shows, and the timekeeping that counts tenths down.  A
    separate edge call arms the button tracker.

    The controller is first described as a value (Snapshot) with one pure
    function per step of the tick; the class Controller holds the module
    state as fields and its methods are proved to follow those functions.
    The raw button level is the `pressed` argument of the tick and the buzzer
    pin is the `buzzerOn` field. */
module Stopwatch {
  import opened SevenSeg4

  /** LONGPRESS_MS */
  const LongPressMs: u16 := 1500
  /** DONE_BEEP_MS */
  const DoneBeepMs: u16 := 1000
  /** TENTH_STEP_MS */
  const TenthStepMs: u16 := 100
  /** PAUSE_BLINK_MS */
  const PauseBlinkMs: u16 := 500
  /** The ceiling of the saturating uint16 counters. */
  const Saturated: u16 := 0xFFFF
  /** The start-up value, "100.0". */
  const StartTenths: u16 := 1000

  /** StopwatchState */
  datatype State = IdlePaused | Running | Paused | Done

  /** The press tracker: g_btn_tracking, g_long_fired, g_hold_ms. */
  datatype Button = Button(tracking: bool, longFired: bool, holdMs: u16)

  /** What one poll of the tracker decides. */
  datatype Action = NoAction | ShortPress | LongPress

  /** The module state, with `displayed` the value the display driver holds. */
  datatype Snapshot = Snapshot(
    state: State,
    tenths: u16,
    msAccum: u16,
    button: Button,
    doneLatched: bool,
    buzRemainMs: u16,
    buzzerOn: bool,
    blinkMs: u16,
    show: bool,
    displayed: u16)

  /** The tracker right after a press edge. */
  const Armed: Button := Button(true, false, 0)

  /** The state after power-up and Stopwatch_Init. */
  const Startup: Snapshot := Snapshot(IdlePaused, StartTenths, 0, Button(false, false, 0), false, 0, false, 0, true, StartTenths)

  /** What the display must hold for a given state: BLANK while paused and hidden, the tenths otherwise. */
  function ShownValue(w: Snapshot): u16 {
    if w.state == Paused && !w.show then Blank else w.tenths
  }

  /** The invariant every reachable state keeps. */
  predicate Inv(w: Snapshot) {
    && w.tenths <= StartTenths
    && w.msAccum < TenthStepMs
    && w.blinkMs < PauseBlinkMs
    && w.buzRemainMs <= DoneBeepMs
    && (w.buzzerOn <==> w.buzRemainMs > 0)
    && (w.state != Running ==> w.msAccum == 0)
    && (w.state != Paused ==> w.blinkMs == 0 && w.show)
    && (w.state == Done <==> w.tenths == 0)
    && (w.doneLatched <==> w.state == Done)
    && (w.buzRemainMs > 0 ==> w.state == Done)
    && w.displayed == ShownValue(w)
  }

  // ---------------------------------------------------------------------
  // The steps of the tick as functions.
  // ---------------------------------------------------------------------

  /** buzzer_beep_start: a zero duration does nothing; otherwise the buzzer
      sounds for `duration` ticks. Nothing but the buzzer changes. */
  function BeepStarted(w: Snapshot, duration: u16): (r: Snapshot)
    ensures r.(buzRemainMs := w.buzRemainMs, buzzerOn := w.buzzerOn) == w
    ensures duration == 0 ==> r == w
    ensures duration != 0 ==> r.buzRemainMs == duration && r.buzzerOn
  {
    if duration == 0 then w else w.(buzRemainMs := duration, buzzerOn := true)
  }

  /** buzzer_tick_1ms: at rest nothing changes; otherwise one tick less, and the
      output switches off exactly when the count reaches zero. */
  function BuzzerTicked(w: Snapshot): (r: Snapshot)
    ensures r.(buzRemainMs := w.buzRemainMs, buzzerOn := w.buzzerOn) == w
    ensures w.buzRemainMs == 0 ==> r == w
    ensures w.buzRemainMs > 0 ==> r.buzRemainMs == w.buzRemainMs - 1
    ensures w.buzRemainMs > 0 ==> (r.buzzerOn <==> w.buzzerOn && r.buzRemainMs != 0)
  {
    if w.buzRemainMs == 0 then w
    else
      var left := w.buzRemainMs - 1;
      if left == 0 then w.(buzRemainMs := left, buzzerOn := false) else w.(buzRemainMs := left)
  }

  /** reset_to_startup: the start-up values everywhere except the press tracker,
      which is left as it was. */
  function Reset(w: Snapshot): (r: Snapshot)
    ensures r == Startup.(button := w.button)
  {
    w.(state := IdlePaused, tenths := StartTenths, msAccum := 0, blinkMs := 0, show := true,
       doneLatched := false, buzRemainMs := 0, buzzerOn := false, displayed := Stored(StartTenths))
  }

  /** The state a short press leads to. */
  function ToggledState(s: State): State {
    match s
    case Running => Paused
    case IdlePaused => Running
    case Paused => Running
    case Done => Done
  }

  /** short_press_toggle: only the state changes, as ToggledState says. */
  function Toggled(w: Snapshot): (r: Snapshot)
    ensures r == w.(state := ToggledState(w.state))
    ensures w.state == Running ==> r.state == Paused
    ensures w.state in {IdlePaused, Paused} ==> r.state == Running
    ensures w.state == Done ==> r == w
  {
    if w.state == Done then w
    else if w.state == Running then w.(state := Paused)
    else w.(state := Running)
  }

  /** Stopwatch_ButtonEdgePress: start tracking a new press. */
  function Edge(w: Snapshot): (r: Snapshot)
    ensures r == w.(button := Armed)
  {
    w.(button := Button(true, false, 0))
  }

  /** One poll of the press tracker with the current button level. */
  function Poll(b: Button, pressed: bool): (r: (Button, Action))
    ensures !b.tracking ==> r == (b, NoAction)
    ensures r.0.tracking == (b.tracking && pressed)
    ensures r.0.holdMs == if b.tracking && pressed && b.holdMs < Saturated then b.holdMs + 1 else b.holdMs
    ensures r.0.longFired == (b.longFired || r.1 == LongPress)
    ensures r.1 == LongPress <==> b.tracking && pressed && !b.longFired && r.0.holdMs >= LongPressMs
    ensures r.1 == ShortPress <==> b.tracking && !pressed && !b.longFired
  {
    if !b.tracking then (b, NoAction)
    else if pressed then
      var held := if b.holdMs < Saturated then b.holdMs + 1 else b.holdMs;
      if !b.longFired && held >= LongPressMs then (Button(true, true, held), LongPress)
      else (b.(holdMs := held), NoAction)
    else
      (b.(tracking := false), if b.longFired then NoAction else ShortPress)
  }

  /** The action a poll takes. */
  function ActionOf(w: Snapshot, pressed: bool): Action {
    Poll(w.button, pressed).1
  }

  /** Step 1 of the tick: poll the tracker and carry out its action. */
  function Buttoned(w: Snapshot, pressed: bool): (r: Snapshot)
    ensures r.button == Poll(w.button, pressed).0
  {
    var (b, a) := Poll(w.button, pressed);
    var v := w.(button := b);
    match a
    case LongPress => Reset(v)
    case ShortPress => Toggled(v)
    case NoAction => v
  }

  /** The blink step: in PAUSED the counter runs and every 500 ticks the
      show flag flips; elsewhere the counter is cleared and the value shown.
      Either way the display gets the value for the resulting flag. */
  function Blinked(w: Snapshot): (r: Snapshot)
    ensures r.displayed == Stored(ShownValue(r))
    ensures r.(blinkMs := w.blinkMs, show := w.show, displayed := w.displayed) == w
    ensures w.state != Paused ==> r.blinkMs == 0 && r.show
  {
    if w.state == Paused then
      var n := if w.blinkMs < Saturated then w.blinkMs + 1 else w.blinkMs;
      var (n', show') := if n >= PauseBlinkMs then (0, !w.show) else (n, w.show);
      w.(blinkMs := n', show := show', displayed := Stored(if show' then w.tenths else Blank))
    else
      w.(blinkMs := 0, show := true, displayed := Stored(w.tenths))
  }

  /** Step 2 of the tick: timekeeping. In RUNNING with time left one more
      millisecond is counted and every hundredth one takes a tenth off; at zero
      the state becomes DONE and, unless the latch is set, the beep starts and
      the latch is set. Outside RUNNING the partial count is dropped.
      g_ms_accum is a uint16, so its increment wraps. */
  function Timekept(w: Snapshot): (r: Snapshot)
    ensures w.state != Running ==> r == w.(msAccum := 0)
    ensures r.button == w.button && r.blinkMs == w.blinkMs && r.show == w.show
    ensures r.tenths == w.tenths || (w.state == Running && r.tenths == w.tenths - 1)
  {
    if w.state == Running then
      if w.tenths > 0 then
        var acc := (w.msAccum + 1) % 0x1_0000;
        if acc >= TenthStepMs then
          var t := w.tenths - 1;
          var v := w.(msAccum := 0, tenths := t, displayed := Stored(t));
          if t == 0 then
            var d := v.(state := Done);
            if !d.doneLatched then BeepStarted(d.(doneLatched := true), DoneBeepMs) else d
          else v
        else w.(msAccum := acc)
      else w
    else w.(msAccum := 0)
  }

  /** Stopwatch_Tick1ms: buzzer, then button, then blink, then timekeeping. */
  function Ticked(w: Snapshot, pressed: bool): Snapshot {
    Timekept(Blinked(Buttoned(BuzzerTicked(w), pressed)))
  }

  // ---------------------------------------------------------------------
  // The controller object.
  // ---------------------------------------------------------------------

  class Controller {
    var state: State
    var tenths: u16
    var msAccum: u16
    var btnTracking: bool
    var longFired: bool
    var holdMs: u16
    var doneLatched: bool
    var buzRemainMs: u16
    /** The buzzer output pin. */
    var buzzerOn: bool
    var pauseBlinkMs: u16
    var pauseShow: bool
    /** The display driver the controller forwards its value to. */
    const display: Display

    /** The module state as a value. */
    function Abs(): Snapshot
      reads this, display
    {
      Snapshot(state, tenths, msAccum, Button(btnTracking, longFired, holdMs), doneLatched,
               buzRemainMs, buzzerOn, pauseBlinkMs, pauseShow, display.value)
    }

    ghost predicate Valid()
      reads this, display
    {
      display.Valid() && Inv(Abs())
    }

    /** The static initial values followed by Stopwatch_Init (buzzer off, then reset). */
    constructor (d: Display)
      requires d.Valid()
      modifies d`value
      ensures display == d && Valid()
      ensures Abs() == Startup
    {
      display := d;
      state := IdlePaused;
      tenths := StartTenths;
      msAccum := 0;
      btnTracking := false;
      longFired := false;
      holdMs := 0;
      doneLatched := false;
      buzRemainMs := 0;
      buzzerOn := false;
      pauseBlinkMs := 0;
      pauseShow := true;
      new;
      buzzerOn := false;
      ResetToStartup();
    }

    /** buzzer_beep_start */
    method BeepStart(duration: u16)
      modifies this`buzRemainMs, this`buzzerOn
      ensures Abs() == BeepStarted(old(Abs()), duration)
    {
      if duration == 0 {
        return;
      }
      buzRemainMs := duration;
      buzzerOn := true;
    }

    /** buzzer_tick_1ms */
    method BuzzerTick()
      modifies this`buzRemainMs, this`buzzerOn
      ensures Abs() == BuzzerTicked(old(Abs()))
    {
      if buzRemainMs == 0 {
        return;
      }
      buzRemainMs := buzRemainMs - 1;
      if buzRemainMs == 0 {
        buzzerOn := false;
      }
    }

    /** reset_to_startup */
    method ResetToStartup()
      requires display.Valid()
      modifies this, display`value
      ensures display.Valid()
      ensures Abs() == Reset(old(Abs()))
    {
      state := IdlePaused;
      tenths := StartTenths;
      msAccum := 0;
      pauseBlinkMs := 0;
      pauseShow := true;
      doneLatched := false;
      buzRemainMs := 0;
      buzzerOn := false;
      display.SetTenths(tenths);
    }

    /** short_press_toggle */
    method ShortPressToggle()
      modifies this`state
      ensures Abs() == Toggled(old(Abs()))
    {
      if state == Done {
        return;
      }
      if state == Running {
        state := Paused;
      } else {
        state := Running;
      }
    }

    /** Stopwatch_ButtonEdgePress: arm the tracker for a new press. */
    method ButtonEdgePress()
      requires Valid()
      modifies this`btnTracking, this`longFired, this`holdMs
      ensures Valid()
      ensures Abs() == Edge(old(Abs()))
    {
      btnTracking := true;
      longFired := false;
      holdMs := 0;
    }

    /** Stopwatch_Tick1ms, with `pressed` the button level read in step 1. */
    method Tick(pressed: bool)
      requires Valid()
      modifies this, display`value
      ensures Valid()
      ensures Abs() == Ticked(old(Abs()), pressed)
      ensures display.value == if state == Paused && !pauseShow then Blank else tenths
    {
      ghost var w0 := Abs();
      BuzzerTick();
      PollButton(pressed);
      UpdateBlink();
      KeepTime();
      TickKeepsInv(w0, pressed);
    }

    /** Step 1 of Stopwatch_Tick1ms: long-press detection while tracking. */
    method PollButton(pressed: bool)
      requires display.Valid()
      modifies this, display`value
      ensures display.Valid()
      ensures Abs() == Buttoned(old(Abs()), pressed)
    {
      if btnTracking {
        if pressed {
          if holdMs < Saturated {
            holdMs := holdMs + 1;
          }
          if !longFired && holdMs >= LongPressMs {
            longFired := true;
            ResetToStartup();
          }
        } else {
          btnTracking := false;
          if !longFired {
            ShortPressToggle();
          }
        }
      }
    }

    /** The pause-blink section of Stopwatch_Tick1ms, which also forwards the value to the display. */
    method UpdateBlink()
      requires display.Valid()
      modifies this`pauseBlinkMs, this`pauseShow, display`value
      ensures display.Valid()
      ensures Abs() == Blinked(old(Abs()))
    {
      if state == Paused {
        if pauseBlinkMs < Saturated {
          pauseBlinkMs := pauseBlinkMs + 1;
        }
        if pauseBlinkMs >= PauseBlinkMs {
          pauseBlinkMs := 0;
          pauseShow := !pauseShow;
        }
        if pauseShow {
          display.SetTenths(tenths);
        } else {
          display.SetTenths(Blank);
        }
      } else {
        pauseBlinkMs := 0;
        pauseShow := true;
        display.SetTenths(tenths);
      }
    }

    /** Step 2 of Stopwatch_Tick1ms: timekeeping, only while running. */
    method KeepTime()
      requires display.Valid()
      modifies this`msAccum, this`tenths, this`state, this`doneLatched, this`buzRemainMs, this`buzzerOn, display`value
      ensures display.Valid()
      ensures Abs() == Timekept(old(Abs()))
    {
      if state == Running {
        if tenths > 0 {
          msAccum := (msAccum + 1) % 0x1_0000;
          if msAccum >= TenthStepMs {
            msAccum := 0;
            tenths := tenths - 1;
            display.SetTenths(tenths);
            if tenths == 0 {
              state := Done;
              if !doneLatched {
                doneLatched := true;
                BeepStart(DoneBeepMs);
              }
            }
          }
        }
      } else {
        msAccum := 0;
      }
    }

    /** Stopwatch_GetState */
    method GetState() returns (s: State)
      ensures s == state
    {
      s := state;
    }

    /** Stopwatch_GetTenths */
    method GetTenths() returns (t: u16)
      requires Valid()
      ensures t == tenths && t <= StartTenths
    {
      t := tenths;
    }
  }

  // ---------------------------------------------------------------------
  // The invariant.
  // ---------------------------------------------------------------------

  /** The start-up state satisfies the invariant, and so does a reset of any state. */
  lemma StartupInv(w: Snapshot)
    ensures Inv(Startup) && Inv(Reset(w))
  {
  }

  /** A press edge keeps the invariant. */
  lemma EdgeKeepsInv(w: Snapshot)
    requires Inv(w)
    ensures Inv(Edge(w))
  {
  }

  /** Every tick keeps the invariant: tenths in [0,1000], accumulator below 100
      and zero outside RUNNING, no blinking outside PAUSED, DONE exactly at
      zero with the latch set, the buzzer only in DONE, and the display
      holding the value the state calls for. */
  lemma TickKeepsInv(w: Snapshot, pressed: bool)
    requires Inv(w)
    ensures Inv(Ticked(w, pressed))
  {
    var w1 := BuzzerTicked(w);
    var w2 := Buttoned(w1, pressed);
    var w3 := Blinked(w2);
    assert w2.tenths <= StartTenths && w2.msAccum < TenthStepMs && w2.blinkMs < PauseBlinkMs;
    assert w2.state == Done <==> w2.tenths == 0;
    assert w2.doneLatched <==> w2.state == Done;
    assert w2.buzRemainMs > 0 ==> w2.state == Done;
    assert w3.blinkMs < PauseBlinkMs;
  }
}
