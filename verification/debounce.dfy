/** Per-switch debounce: a latch that accepts a change of the raw input at once,
    but only once a cooldown of COOLDOWN_TICKS scan ticks has passed since the
    previous accepted change. A rising edge of the latched state fires the
    press callback. */
module Debounce {

  /// Scan ticks that must pass after an accepted change before the next one
  /// (about 10 ms at a 1 ms scan period).
  const CooldownTicks: nat := 50

  /** The value of a `DebounceState`: the latched switch state and the
      earliest scan clock at which it may change again. */
  datatype Latch = Latch(state: bool, earliestNextChangeClock: nat)

  /// The `Default` latch: released, and free to change at any clock.
  const Released: Latch := Latch(false, 0)

  /** One call of `update`: the latch afterwards, and whether `press_action`
      was invoked during the call. */
  datatype Stepped = Stepped(latch: Latch, pressAction: bool)

  /// Whether `update` with this input at this clock accepts a change.
  predicate Accepts(l: Latch, signalInput: bool, clock: nat)
  {
    signalInput != l.state && clock >= l.earliestNextChangeClock
  }

  /** The specification of `DebounceState::update`: a change is accepted
      exactly when the input differs from the latched state and the cooldown
      has expired; the callback fires when the accepted change is a press. */
  function Step(l: Latch, signalInput: bool, clock: nat): Stepped
  {
    if Accepts(l, signalInput, clock) then
      Stepped(Latch(signalInput, clock + CooldownTicks), signalInput)
    else
      Stepped(l, false)
  }

  /** What one `update` does. */
  lemma StepBehaviour(l: Latch, signalInput: bool, clock: nat)
    ensures var r := Step(l, signalInput, clock);
      // an input equal to the latched state is a no-op
      && (signalInput == l.state ==> r == Stepped(l, false))
      // the state changes exactly when the input differs and the cooldown expired
      && (r.latch.state != l.state <==> signalInput != l.state && clock >= l.earliestNextChangeClock)
      // when it changes, it takes the input and restarts the cooldown at this clock
      && (r.latch.state != l.state ==>
            r.latch.state == signalInput && r.latch.earliestNextChangeClock == clock + CooldownTicks)
      // when it does not change, nothing changes
      && (r.latch.state == l.state ==> r.latch == l)
      // the callback fires exactly on a false -> true flip
      && (r.pressAction <==> !l.state && r.latch.state)
  {
  }

  /** One switch's debounce state, updated in place once per scan tick. */
  class DebounceState {
    var state: bool
    var earliestNextChangeClock: nat

    /// The value this object currently holds.
    function Current(): (l: Latch)
      reads this
      ensures l.state == state && l.earliestNextChangeClock == earliestNextChangeClock
    {
      Latch(state, earliestNextChangeClock)
    }

    /// `Default::default()`: released, deadline 0.
    constructor ()
      ensures Current() == Released
    {
      state := false;
      earliestNextChangeClock := 0;
    }

    /** `update(signal_input, clock, press_action)`. The callback is modelled
        by the returned flag `pressAction`: true iff the callback was invoked
        (at most once per call). The result `isDepressed` is the state after
        the call. */
    method Update(signalInput: bool, clock: nat) returns (isDepressed: bool, pressAction: bool)
      modifies this
      ensures Stepped(Current(), pressAction) == Step(old(Current()), signalInput, clock)
      ensures isDepressed == state
    {
      pressAction := false;
      if signalInput != state && clock >= earliestNextChangeClock {
        state := signalInput;
        earliestNextChangeClock := clock + CooldownTicks;
        if state {
          pressAction := true;
        }
      }
      isDepressed := state;
    }
  }

  // ---------------------------------------------------------------------
  // Runs of samples fed to one latch

  /// One raw sample: the column reading and the scan clock it was taken at.
  datatype Sample = Sample(signalInput: bool, clock: nat)

  /// The latch after feeding it `samples` in order.
  function Run(l: Latch, samples: seq<Sample>): Latch
    decreases |samples|
  {
    if samples == [] then l
    else Run(Step(l, samples[0].signalInput, samples[0].clock).latch, samples[1..])
  }

  /// The clocks at which `samples` made the latch change, in order.
  function AcceptedClocks(l: Latch, samples: seq<Sample>): seq<nat>
    decreases |samples|
  {
    if samples == [] then []
    else
      var s := Step(l, samples[0].signalInput, samples[0].clock);
      (if s.latch.state != l.state then [samples[0].clock] else [])
        + AcceptedClocks(s.latch, samples[1..])
  }

  /// How many times `samples` made the latch invoke the press callback.
  function Presses(l: Latch, samples: seq<Sample>): nat
    decreases |samples|
  {
    if samples == [] then 0
    else
      var s := Step(l, samples[0].signalInput, samples[0].clock);
      (if s.pressAction then 1 else 0) + Presses(s.latch, samples[1..])
  }

  /// The scan clock never goes backwards (it is incremented once per tick).
  predicate NonDecreasingClocks(samples: seq<Sample>)
  {
    forall i, j :: 0 <= i < j < |samples| ==> samples[i].clock <= samples[j].clock
  }

  /** With non-decreasing clocks, no change is accepted before the latch's
      deadline, and any two consecutive accepted changes are at least
      CooldownTicks apart. */
  lemma {:induction false} CooldownSeparation(l: Latch, samples: seq<Sample>)
    requires NonDecreasingClocks(samples)
    ensures var a := AcceptedClocks(l, samples);
      (|a| > 0 ==> a[0] >= l.earliestNextChangeClock) &&
      forall i :: 0 <= i < |a| - 1 ==> a[i] + CooldownTicks <= a[i + 1]
    decreases |samples|
  {
    if samples != [] {
      var s := Step(l, samples[0].signalInput, samples[0].clock);
      var rest := AcceptedClocks(s.latch, samples[1..]);
      assert NonDecreasingClocks(samples[1..]) by {
        forall i, j | 0 <= i < j < |samples[1..]|
          ensures samples[1..][i].clock <= samples[1..][j].clock
        {
          assert samples[1..][i] == samples[i + 1] && samples[1..][j] == samples[j + 1];
        }
      }
      CooldownSeparation(s.latch, samples[1..]);
      if |rest| > 0 && s.latch.state == l.state {
        assert rest[0] >= l.earliestNextChangeClock;
      }
    }
  }

  /** Changes alternate, starting with the direction away from the initial
      state: the final state is the initial one flipped once per accepted
      change, and the callback fires once per false -> true change. */
  lemma {:induction false} PressesCountRisingChanges(l: Latch, samples: seq<Sample>)
    ensures var n := |AcceptedClocks(l, samples)|;
      && Run(l, samples).state == (if n % 2 == 0 then l.state else !l.state)
      && Presses(l, samples) == (if l.state then n / 2 else (n + 1) / 2)
    decreases |samples|
  {
    if samples != [] {
      var s := Step(l, samples[0].signalInput, samples[0].clock);
      PressesCountRisingChanges(s.latch, samples[1..]);
    }
  }

  /** While every sample falls inside the cooldown window, nothing the raw
      input does reaches the latched state. */
  lemma {:induction false} CooldownIgnoresBounce(l: Latch, samples: seq<Sample>)
    requires forall i :: 0 <= i < |samples| ==> samples[i].clock < l.earliestNextChangeClock
    ensures Run(l, samples) == l && Presses(l, samples) == 0 && AcceptedClocks(l, samples) == []
    decreases |samples|
  {
    if samples != [] {
      assert !Accepts(l, samples[0].signalInput, samples[0].clock);
      CooldownIgnoresBounce(l, samples[1..]);
    }
  }

  /** This is a cooldown latch, not a hysteresis counter: a single contrary
      sample that arrives once the cooldown has expired flips the state. */
  lemma SingleGlitchFlips(l: Latch, clock: nat)
    requires clock >= l.earliestNextChangeClock
    ensures Run(l, [Sample(!l.state, clock)]).state == !l.state
  {
  }

  /** From the default latch, the first differing input is accepted at any
      clock, and it is a press. */
  lemma ReleasedAcceptsFirstPress(clock: nat)
    ensures Step(Released, true, clock) == Stepped(Latch(true, clock + CooldownTicks), true)
  {
  }
}
