/** The main loop's state and its two ticks that carry logic: the scan tick
    (every 1 ms) and the keyboard tick (every 10 ms). USB, the LED, the
    press-counter telegram and the timers are left to the caller; what they
    need from a tick is returned. */
module Controller {
  import opened Debounce
  import opened KeyTable
  import opened Scan
  import opened Mouse
  import opened Mode

  /// The mouse is read only once the firmware has run this many scan ticks
  /// (500 ms at one tick per millisecond): the joystick origin is garbage
  /// shortly after boot.
  const MouseStartTicks: nat := 500

  /** The loop-carried state of `main`: the scan clock, the press counter,
      mouseness, the debounce states, the scan buffers and the mouse tracker. */
  class Firmware {
    var scanClock: nat
    var pressCounter: nat
    var mouseness: nat
    const states: array2<Latch>
    const buffers: ScanBuffers
    const tracker: MouseTracker

    predicate Valid()
      reads this
    {
      states.Length0 == KeyRows && states.Length1 == KeyColumns
    }

    /// The state at the top of `main`'s loop.
    constructor ()
      ensures Valid() && fresh(states) && fresh(buffers) && fresh(tracker)
      ensures scanClock == 0 && pressCounter == 0 && mouseness == 0
      ensures forall r, c :: 0 <= r < KeyRows && 0 <= c < KeyColumns ==> states[r, c] == Released
      ensures buffers.Value() == Cleared && tracker.Value() == Uncalibrated
    {
      scanClock, pressCounter, mouseness := 0, 0, 0;
      states := new Latch[KeyRows, KeyColumns]((_, _) => Released);
      buffers := new ScanBuffers();
      tracker := new MouseTracker();
    }

    /** The scan tick: advances the clock, scans the matrix in the mode
        mouseness selects, and adds one to the press counter per press
        callback. `completed` is false where the scan panics. */
    method ScanTick(raw: seq<seq<bool>>) returns (completed: bool)
      requires Valid() && IsMatrix(raw)
      modifies this, states, buffers
      ensures Valid() && scanClock == old(scanClock) + 1 && mouseness == old(mouseness)
      ensures var before := old(Latches(states));
        var p := Pressed(before, raw, scanClock);
        && ResolveRows(AsKeyFunctions(KeyMapping), p, MouseMode(mouseness), 0, Cleared) ==
             (if completed then Filled(buffers.Value()) else CapacityExceeded)
        && (completed ==> Latches(states) == StepAll(before, raw, scanClock))
        && (completed ==> pressCounter == old(pressCounter) + TablePresses(before, raw, scanClock, |before|))
    {
      MappingIsMatrix();
      scanClock := scanClock + 1;
      var presses;
      completed, presses := ScanKeys(states, buffers, AsKeyFunctions(KeyMapping), raw, MouseMode(mouseness), scanClock);
      pressCounter := pressCounter + presses;
    }

    /** The keyboard tick. After the start-up delay the mouse is read (`read`
        is the I2C outcome); the pointer report is populated and the held
        mouse buttons OR-ed in; mouseness is updated and selects the LED; the
        report is accounted for when the USB write succeeded
        (`reportWritten`). `ok` is false where the tick panics: where the
        decode panics, or where the populated report has x or y at -128, whose
        `abs()` overflows. Where it does not panic the mouseness update agrees
        with `MousenessStep`.
        The keyboard report is `buffers.keyCodes`, unchanged here. */
    method KeyboardTick(read: I2cRead, modifiers: set<Keyboard>, reportWritten: bool)
      returns (ok: bool, report: MouseReport, ledOn: bool)
      requires Valid() && (read.Bytes? ==> |read.buffer| == 5)
      modifies this, tracker
      ensures Valid() && scanClock == old(scanClock) && pressCounter == old(pressCounter)
      ensures ok <==> !Polled(old(scanClock), read).ReadPanic? &&
                      var r := Report(Updated(old(tracker.Value()), Polled(old(scanClock), read)));
                      r.x != -128 && r.y != -128
      ensures ok ==> report == WithButtons(Report(Updated(old(tracker.Value()), Polled(old(scanClock), read))), buffers.mouseButtons)
      ensures ok ==> mouseness == MousenessStep(old(mouseness), report, buffers.Value(), modifiers)
      ensures ok ==> ledOn == MouseMode(mouseness)
      ensures ok ==> tracker.Value() ==
                       var t := Updated(old(tracker.Value()), Polled(old(scanClock), read));
                       if reportWritten then Account(t, report) else t
    {
      ok, report, ledOn := true, MouseReport(0, 0, 0), false;
      if scanClock >= MouseStartTicks {
        ok := tracker.Update(read);
        if !ok {
          return;
        }
      }
      report := tracker.PopulateReport();
      report := ApplyButtons(report, buffers.mouseButtons);
      match MousenessStepAsWritten(mouseness, report, buffers.Value(), modifiers)
      case AbsPanic =>
        ok := false;
        return;
      case Arbitrated(m) =>
        AsWrittenAgreesAwayFromMinimum(mouseness, report, buffers.Value(), modifiers);
        mouseness := m;
      ledOn := MouseMode(mouseness);
      if reportWritten {
        tracker.AccountReport(report);
      }
    }
  }

  /// What the keyboard tick reads from the mouse: nothing before the start-up delay.
  function Polled(scanClock: nat, read: I2cRead): (r: RawRead)
    requires read.Bytes? ==> |read.buffer| == 5
    ensures scanClock < MouseStartTicks ==> r == NoReading
  {
    if scanClock >= MouseStartTicks then ReadMouseRaw(read) else NoReading
  }
}
