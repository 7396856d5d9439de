/** The keyboard tick's arbitration between keyboard and mouse mode:
    "mouseness" accumulates the pointer movement reported while nothing but
    modifier keys is held, and once it reaches MOUSENESS_THRESHOLD the next
    scan resolves `Dual` positions to their mouse buttons. The pressed mouse
    buttons are OR-ed into the pointer report. */
module Mode {
  import opened KeyTable
  import opened Mouse
  import opened Scan

  /// `MOUSENESS_THRESHOLD`: distance the pointer must move before `Dual`
  /// positions become mouse buttons.
  const MousenessThreshold: nat := 5

  /// The `mouseish` flag the next scan receives.
  predicate MouseMode(mouseness: nat)
  {
    mouseness >= MousenessThreshold
  }

  // ---------------------------------------------------------------------
  // Button bitmask

  /// The bit of the report's button mask each button sets.
  function ButtonBit(b: MouseButton): bv8
  {
    match b
    case Left => 0x1
    case Right => 0x2
  }

  /// The bits the held buttons contribute: bit 0 for `Left`, bit 1 for `Right`.
  function ButtonBits(buttons: seq<MouseButton>): (m: bv8)
    ensures m & 0x1 != 0 <==> Left in buttons
    ensures m & 0x2 != 0 <==> Right in buttons
    ensures m & 0xFC == 0
  {
    (if Left in buttons then 0x1 else 0x0) | (if Right in buttons then 0x2 else 0x0)
  }

  /// The report with the held buttons' bits OR-ed into its mask.
  function WithButtons(report: MouseReport, buttons: seq<MouseButton>): (r: MouseReport)
    ensures r.x == report.x && r.y == report.y
    ensures r.buttons & 0x1 != 0 <==> report.buttons & 0x1 != 0 || Left in buttons
    ensures r.buttons & 0x2 != 0 <==> report.buttons & 0x2 != 0 || Right in buttons
    ensures r.buttons & 0xFC == report.buttons & 0xFC
  {
    report.(buttons := report.buttons | ButtonBits(buttons))
  }

  /** The `for_each` over `buffers.mouse_buttons` that ORs each button's bit
      into the report. The report's motion is left as it was. */
  method ApplyButtons(report: MouseReport, buttons: seq<MouseButton>) returns (r: MouseReport)
    ensures r == WithButtons(report, buttons)
  {
    r := report;
    var i := 0;
    while i < |buttons|
      invariant 0 <= i <= |buttons|
      invariant r == WithButtons(report, buttons[..i])
    {
      assert buttons[..i + 1] == buttons[..i] + [buttons[i]];
      assert ButtonBits(buttons[..i + 1]) == ButtonBits(buttons[..i]) | ButtonBit(buttons[i]);
      r := r.(buttons := r.buttons | ButtonBit(buttons[i]));
      i := i + 1;
    }
    assert buttons[..i] == buttons;
  }

  // ---------------------------------------------------------------------
  // Mouseness

  /** Whether the held keys let mouse mode continue: no consumer code, and
      every keyboard code is one of the mouse modifier keys. The set
      `MOUSE_MODIFIER_KEYS` is a parameter. */
  predicate OnlyModifiersHeld(b: Buffers, modifiers: set<Keyboard>)
  {
    b.consumerCodes == [] && forall i :: 0 <= i < |b.keyCodes| ==> b.keyCodes[i] in modifiers
  }

  function Abs(v: int): nat
  {
    if v < 0 then -v else v
  }

  /** The keyboard tick's mouseness update with `unsigned_abs`: the reported
      movement is added while only modifiers are held, and mouseness drops to
      zero as soon as anything else is. */
  function MousenessStep(mouseness: nat, report: MouseReport, b: Buffers, modifiers: set<Keyboard>): (r: nat)
    ensures OnlyModifiersHeld(b, modifiers) ==> r == mouseness + Abs(report.x) + Abs(report.y)
    ensures !OnlyModifiersHeld(b, modifiers) ==> r == 0
  {
    var n := mouseness + Abs(report.x) + Abs(report.y);
    if n != 0 && !OnlyModifiersHeld(b, modifiers) then 0 else n
  }

  /** Mouse mode after the tick: it is entered or kept exactly when only
      modifiers are held and the movement so far reaches the threshold; it
      never decays while the pointer rests. */
  lemma MouseModeAfterStep(mouseness: nat, report: MouseReport, b: Buffers, modifiers: set<Keyboard>)
    ensures MouseMode(MousenessStep(mouseness, report, b, modifiers)) <==>
              OnlyModifiersHeld(b, modifiers) && mouseness + Abs(report.x) + Abs(report.y) >= MousenessThreshold
    ensures OnlyModifiersHeld(b, modifiers) && MouseMode(mouseness) ==>
              MouseMode(MousenessStep(mouseness, report, b, modifiers))
  {
  }

  /// The outcome of the mouseness update as written: a value, or a panic.
  datatype Arbitrated = Arbitrated(mouseness: nat) | AbsPanic

  /** `u64::try_from(v.abs()).unwrap()` on an i8: `abs` of -128 overflows
      (and, wrapped, stays negative, so `try_from` fails). */
  function AbsAsWritten(v: int): (r: Option<nat>)
    requires IsI8(v)
    ensures r.None? <==> v == -128
    ensures r.Some? ==> r.value == Abs(v)
  {
    if v == -128 then None else Some(Abs(v))
  }

  /** The mouseness update as main.rs writes it, with `abs()` and
      `try_from(..).unwrap()`. */
  function MousenessStepAsWritten(mouseness: nat, report: MouseReport, b: Buffers, modifiers: set<Keyboard>): (r: Arbitrated)
    requires IsI8(report.x) && IsI8(report.y)
    ensures r.AbsPanic? <==> report.x == -128 || report.y == -128
  {
    match AbsAsWritten(report.x)
    case None => AbsPanic
    case Some(ax) =>
      match AbsAsWritten(report.y)
      case None => AbsPanic
      case Some(ay) =>
        var n := mouseness + ax + ay;
        Arbitrated(if n != 0 && !OnlyModifiersHeld(b, modifiers) then 0 else n)
  }

  /// Away from -128 the code as written and the corrected step agree.
  lemma AsWrittenAgreesAwayFromMinimum(mouseness: nat, report: MouseReport, b: Buffers, modifiers: set<Keyboard>)
    requires IsI8(report.x) && IsI8(report.y) && report.x != -128 && report.y != -128
    ensures MousenessStepAsWritten(mouseness, report, b, modifiers) ==
              Arbitrated(MousenessStep(mouseness, report, b, modifiers))
  {
  }

  /** `populate_report` does produce -128: a tracker holding 128 units of
      leftward movement reports x = -128, and the tick as written then panics. */
  lemma MinimumReportPanics()
    ensures var t := Tracker(Point(-128 * MouseReportScale, 0), false, Some(Point(0, 0)));
      && Report(t).x == -128
      && MousenessStepAsWritten(0, Report(t), Cleared, {}) == AbsPanic
  {
  }
}
