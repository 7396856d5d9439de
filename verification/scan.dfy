/** The matrix scan: every position's debounce state is updated once, in
    row-major order, and each pressed position is resolved through its
    `KeyFunction` into three bounded buffers. */
module Scan {
  import opened KeyTable
  import opened Debounce

  const KeyCodesCapacity: nat := 32
  const ConsumerCodesCapacity: nat := 10
  const MouseButtonsCapacity: nat := 2

  // ---------------------------------------------------------------------
  // Buffer values

  /** The value of `ScanBuffers`: keyboard codes, consumer codes and mouse
      buttons, each in push order. */
  datatype Buffers = Buffers(keyCodes: seq<Keyboard>, consumerCodes: seq<Consumer>, mouseButtons: seq<MouseButton>)

  const Cleared: Buffers := Buffers([], [], [])

  /// What a `heapless::Vec` of the declared capacity can hold.
  predicate WithinCapacity(b: Buffers)
  {
    |b.keyCodes| <= KeyCodesCapacity && |b.consumerCodes| <= ConsumerCodesCapacity &&
    |b.mouseButtons| <= MouseButtonsCapacity
  }

  predicate NoDuplicates<T(==)>(s: seq<T>)
  {
    forall i, j :: 0 <= i < j < |s| ==> s[i] != s[j]
  }

  function Elems<T>(s: seq<T>): set<T>
  {
    set x | x in s
  }

  /// The invariant the buffers keep throughout a scan.
  predicate Consistent(b: Buffers)
  {
    WithinCapacity(b) && NoDuplicates(b.keyCodes)
  }

  /// `after` is `before` with (possibly) more pushed onto each buffer.
  predicate Extends(before: Buffers, after: Buffers)
  {
    before.keyCodes <= after.keyCodes && before.consumerCodes <= after.consumerCodes &&
    before.mouseButtons <= after.mouseButtons
  }

  /** Resolving a position either fills the buffers or panics because a push
      found its buffer full (`push(..).unwrap()`). */
  datatype Scanned = Filled(buffers: Buffers) | CapacityExceeded

  // ---------------------------------------------------------------------
  // Resolution, position by position

  /// `if !key_codes.contains(k) { key_codes.push(k).unwrap() }`
  function AddKeyCode(b: Buffers, k: Keyboard): (r: Scanned)
    ensures r.Filled? ==>
              Extends(b, r.buffers) && k in r.buffers.keyCodes &&
              r.buffers.consumerCodes == b.consumerCodes && r.buffers.mouseButtons == b.mouseButtons
    ensures r.CapacityExceeded? ==> k !in b.keyCodes && |b.keyCodes| >= KeyCodesCapacity
    // a code already held changes nothing; a new one is appended
    ensures k in b.keyCodes ==> r == Filled(b)
    ensures k !in b.keyCodes && r.Filled? ==> r.buffers.keyCodes == b.keyCodes + [k]
  {
    if k in b.keyCodes then Filled(b)
    else if |b.keyCodes| < KeyCodesCapacity then Filled(b.(keyCodes := b.keyCodes + [k]))
    else CapacityExceeded
  }

  /// `MultiKey`: adds `ks[i..]` in turn, stopping at the first panic.
  function AddKeyCodes(b: Buffers, ks: seq<Keyboard>, i: nat): (r: Scanned)
    requires i <= |ks|
    ensures r.Filled? ==>
              Extends(b, r.buffers) && (forall j :: i <= j < |ks| ==> ks[j] in r.buffers.keyCodes) &&
              r.buffers.consumerCodes == b.consumerCodes && r.buffers.mouseButtons == b.mouseButtons
    decreases |ks| - i
  {
    if i == |ks| then Filled(b)
    else
      match AddKeyCode(b, ks[i])
      case CapacityExceeded => CapacityExceeded
      case Filled(b') => AddKeyCodes(b', ks, i + 1)
  }

  /// `consumer_codes.push(c).unwrap()`
  function PushConsumerCode(b: Buffers, c: Consumer): (r: Scanned)
    ensures r.Filled? <==> |b.consumerCodes| < ConsumerCodesCapacity
    ensures r.Filled? ==> r.buffers == b.(consumerCodes := b.consumerCodes + [c])
  {
    if |b.consumerCodes| < ConsumerCodesCapacity then Filled(b.(consumerCodes := b.consumerCodes + [c]))
    else CapacityExceeded
  }

  /// `mouse_buttons.push(button).unwrap()`
  function PushMouseButton(b: Buffers, button: MouseButton): (r: Scanned)
    ensures r.Filled? <==> |b.mouseButtons| < MouseButtonsCapacity
    ensures r.Filled? ==> r.buffers == b.(mouseButtons := b.mouseButtons + [button])
  {
    if |b.mouseButtons| < MouseButtonsCapacity then Filled(b.(mouseButtons := b.mouseButtons + [button]))
    else CapacityExceeded
  }

  /** The `match (function, is_depressed)` of `scan_keys` for one position. */
  function ResolveKey(f: KeyFunction, isDepressed: bool, mouseish: bool, b: Buffers): (r: Scanned)
    ensures r.Filled? ==> Extends(b, r.buffers)
    // released, unwired and no-event positions add nothing
    ensures !isDepressed || f.Nothing? || f == Key(NoEventIndicated) ==> r == Filled(b)
  {
    if !isDepressed then Filled(b)
    else
      match f
      case Nothing => Filled(b)
      case Key(k) => if k == NoEventIndicated then Filled(b) else AddKeyCode(b, k)
      case Media(c) => PushConsumerCode(b, c)
      case MultiKey(ks) => AddKeyCodes(b, ks, 0)
      case Dual(k, button) => if mouseish then PushMouseButton(b, button) else AddKeyCode(b, k)
  }

  /// Positions `c..` of one row, left to right.
  function ResolveRow(fs: seq<KeyFunction>, ps: seq<bool>, mouseish: bool, c: nat, b: Buffers): (r: Scanned)
    requires |fs| == |ps| && c <= |fs|
    ensures r.Filled? ==> Extends(b, r.buffers)
    decreases |fs| - c
  {
    if c == |fs| then Filled(b)
    else
      match ResolveKey(fs[c], ps[c], mouseish, b)
      case CapacityExceeded => CapacityExceeded
      case Filled(b') => ResolveRow(fs, ps, mouseish, c + 1, b')
  }

  predicate SameShape<T, U>(t: seq<seq<T>>, p: seq<seq<U>>)
  {
    |t| == |p| && forall r :: 0 <= r < |t| ==> |t[r]| == |p[r]|
  }

  /// Rows `r..`, top to bottom.
  function ResolveRows(t: seq<seq<KeyFunction>>, p: seq<seq<bool>>, mouseish: bool, r: nat, b: Buffers): (res: Scanned)
    requires SameShape(t, p) && r <= |t|
    ensures res.Filled? ==> Extends(b, res.buffers)
    decreases |t| - r
  {
    if r == |t| then Filled(b)
    else
      match ResolveRow(t[r], p[r], mouseish, 0, b)
      case CapacityExceeded => CapacityExceeded
      case Filled(b') => ResolveRows(t, p, mouseish, r + 1, b')
  }

  // ---------------------------------------------------------------------
  // What the scan should produce, independently of push order

  /** What a set of pressed positions contributes: the keyboard codes as a
      set, the consumer codes and mouse buttons as sequences in scan order. */
  datatype Contribution = Contribution(keys: set<Keyboard>, media: seq<Consumer>, buttons: seq<MouseButton>)

  const NoContribution: Contribution := Contribution({}, [], [])

  function Plus(a: Contribution, c: Contribution): Contribution
  {
    Contribution(a.keys + c.keys, a.media + c.media, a.buttons + c.buttons)
  }

  /// What the buffers already hold.
  function Present(b: Buffers): Contribution
  {
    Contribution(Elems(b.keyCodes), b.consumerCodes, b.mouseButtons)
  }

  /// Whether a contribution fits the buffers' capacities.
  predicate Fits(c: Contribution)
  {
    |c.keys| <= KeyCodesCapacity && |c.media| <= ConsumerCodesCapacity && |c.buttons| <= MouseButtonsCapacity
  }

  /// The codes `ks[i..]`, as a set.
  function KeysFrom(ks: seq<Keyboard>, i: nat): set<Keyboard>
  {
    set j | i <= j < |ks| :: ks[j]
  }

  /// What one position contributes, independently of push order.
  function CellContribution(f: KeyFunction, isDepressed: bool, mouseish: bool): Contribution
  {
    if !isDepressed then NoContribution
    else
      match f
      case Nothing => NoContribution
      case Key(k) => if k == NoEventIndicated then NoContribution else Contribution({k}, [], [])
      case Media(c) => Contribution({}, [c], [])
      case MultiKey(ks) => Contribution(Elems(ks), [], [])
      case Dual(k, button) => if mouseish then Contribution({}, [], [button]) else Contribution({k}, [], [])
  }

  /// What positions `c..` of a row contribute.
  function RowContribution(fs: seq<KeyFunction>, ps: seq<bool>, mouseish: bool, c: nat): Contribution
    requires |fs| == |ps| && c <= |fs|
    decreases |fs| - c
  {
    if c == |fs| then NoContribution
    else Plus(CellContribution(fs[c], ps[c], mouseish), RowContribution(fs, ps, mouseish, c + 1))
  }

  /// What rows `r..` contribute.
  function TableContribution(t: seq<seq<KeyFunction>>, p: seq<seq<bool>>, mouseish: bool, r: nat): Contribution
    requires SameShape(t, p) && r <= |t|
    decreases |t| - r
  {
    if r == |t| then NoContribution
    else Plus(RowContribution(t[r], p[r], mouseish, 0), TableContribution(t, p, mouseish, r + 1))
  }

  /** `r` is the outcome a scan must have when `total` is everything the
      buffers end up holding: it panics exactly when `total` does not fit,
      and otherwise the buffers hold exactly `total`, without duplicate
      keyboard codes. */
  predicate Realizes(r: Scanned, total: Contribution)
  {
    (r.Filled? <==> Fits(total)) &&
    (r.Filled? ==> Consistent(r.buffers) && Present(r.buffers) == total)
  }

  // ---------------------------------------------------------------------
  // Lemmas

  lemma {:induction false} DistinctCardinality<T>(s: seq<T>)
    requires NoDuplicates(s)
    ensures |Elems(s)| == |s|
    decreases |s|
  {
    if s != [] {
      DistinctCardinality(s[1..]);
      assert Elems(s) == {s[0]} + Elems(s[1..]);
      assert s[0] !in Elems(s[1..]);
    }
  }

  lemma SubsetCardinality<T>(a: set<T>, b: set<T>)
    requires a <= b
    ensures |a| <= |b|
  {
    assert b == a + (b - a);
  }

  lemma PlusAssociative(a: Contribution, c: Contribution, d: Contribution)
    ensures Plus(Plus(a, c), d) == Plus(a, Plus(c, d))
  {
    assert (a.media + c.media) + d.media == a.media + (c.media + d.media);
    assert (a.buttons + c.buttons) + d.buttons == a.buttons + (c.buttons + d.buttons);
  }

  /// A contribution that does not fit still does not fit once more is added.
  lemma OverflowPersists(a: Contribution, c: Contribution)
    requires !Fits(a)
    ensures !Fits(Plus(a, c))
  {
    SubsetCardinality(a.keys, a.keys + c.keys);
  }

  /// Buffers with nothing added realize what they hold.
  lemma ConsistentRealizesItself(b: Buffers)
    requires Consistent(b)
    ensures Realizes(Filled(b), Present(b))
  {
    DistinctCardinality(b.keyCodes);
  }

  lemma AddKeyCodeRealizes(b: Buffers, k: Keyboard)
    requires Consistent(b)
    ensures Realizes(AddKeyCode(b, k), Plus(Present(b), Contribution({k}, [], [])))
  {
    DistinctCardinality(b.keyCodes);
    assert Plus(Present(b), Contribution({k}, [], [])).media == b.consumerCodes;
    assert Plus(Present(b), Contribution({k}, [], [])).buttons == b.mouseButtons;
    if k !in b.keyCodes && |b.keyCodes| < KeyCodesCapacity {
      assert Elems(b.keyCodes + [k]) == Elems(b.keyCodes) + {k};
    }
  }

  /** Realizing is compositional: if a first step realizes `first` on top of
      what the buffers held, and, when it did not panic, the rest realizes
      `rest` on top of that, the whole realizes `first` then `rest`. */
  lemma ChainRealizes(b: Buffers, first: Contribution, rest: Contribution, head: Scanned, whole: Scanned)
    requires Realizes(head, Plus(Present(b), first))
    requires head.CapacityExceeded? ==> whole == CapacityExceeded
    requires head.Filled? ==> Realizes(whole, Plus(Present(head.buffers), rest))
    ensures Realizes(whole, Plus(Present(b), Plus(first, rest)))
  {
    PlusAssociative(Present(b), first, rest);
    if head.CapacityExceeded? {
      OverflowPersists(Plus(Present(b), first), rest);
    }
  }

  lemma {:induction false} AddKeyCodesRealizes(b: Buffers, ks: seq<Keyboard>, i: nat)
    requires Consistent(b) && i <= |ks|
    ensures Realizes(AddKeyCodes(b, ks, i), Plus(Present(b), Contribution(KeysFrom(ks, i), [], [])))
    decreases |ks| - i
  {
    if i == |ks| {
      ConsistentRealizesItself(b);
      assert Plus(Present(b), Contribution(KeysFrom(ks, i), [], [])) == Present(b);
    } else {
      var first := Contribution({ks[i]}, [], []);
      var rest := Contribution(KeysFrom(ks, i + 1), [], []);
      assert KeysFrom(ks, i) == {ks[i]} + KeysFrom(ks, i + 1);
      assert Plus(first, rest) == Contribution(KeysFrom(ks, i), [], []);
      var head := AddKeyCode(b, ks[i]);
      AddKeyCodeRealizes(b, ks[i]);
      if head.Filled? {
        AddKeyCodesRealizes(head.buffers, ks, i + 1);
      }
      ChainRealizes(b, first, rest, head, AddKeyCodes(b, ks, i));
    }
  }

  lemma ResolveKeyRealizes(f: KeyFunction, isDepressed: bool, mouseish: bool, b: Buffers)
    requires Consistent(b)
    ensures Realizes(ResolveKey(f, isDepressed, mouseish, b), Plus(Present(b), CellContribution(f, isDepressed, mouseish)))
  {
    var c := CellContribution(f, isDepressed, mouseish);
    if !isDepressed || f.Nothing? || f == Key(NoEventIndicated) {
      ConsistentRealizesItself(b);
      assert Plus(Present(b), c) == Present(b);
    } else {
      match f
      case Key(k) => AddKeyCodeRealizes(b, k);
      case Media(m) =>
        DistinctCardinality(b.keyCodes);
        assert Plus(Present(b), c).keys == Elems(b.keyCodes);
      case MultiKey(ks) =>
        assert KeysFrom(ks, 0) == Elems(ks) by {
          forall k | k in Elems(ks) ensures k in KeysFrom(ks, 0) {
            var j :| 0 <= j < |ks| && ks[j] == k;
          }
        }
        AddKeyCodesRealizes(b, ks, 0);
      case Dual(k, button) =>
        if mouseish {
          DistinctCardinality(b.keyCodes);
          assert Plus(Present(b), c).keys == Elems(b.keyCodes);
        } else {
          AddKeyCodeRealizes(b, k);
        }
    }
  }

  /// Past the last position of a row nothing is added.
  lemma ResolveRowRealizesBase(fs: seq<KeyFunction>, ps: seq<bool>, mouseish: bool, b: Buffers)
    requires |fs| == |ps| && Consistent(b)
    ensures Realizes(ResolveRow(fs, ps, mouseish, |fs|, b), Plus(Present(b), RowContribution(fs, ps, mouseish, |fs|)))
  {
    ConsistentRealizesItself(b);
    assert Plus(Present(b), NoContribution) == Present(b);
  }

  /** Positions `c..` of a row panic exactly when what they contribute does
      not fit on top of the buffers; otherwise the buffers end up holding
      exactly their old contents plus that contribution. */
  lemma {:induction false} ResolveRowRealizes(fs: seq<KeyFunction>, ps: seq<bool>, mouseish: bool, c: nat, b: Buffers)
    requires |fs| == |ps| && c <= |fs| && Consistent(b)
    ensures Realizes(ResolveRow(fs, ps, mouseish, c, b), Plus(Present(b), RowContribution(fs, ps, mouseish, c)))
    ensures ResolveRow(fs, ps, mouseish, c, b).Filled? ==> Consistent(ResolveRow(fs, ps, mouseish, c, b).buffers)
    decreases |fs| - c, 1
  {
    if c == |fs| {
      ResolveRowRealizesBase(fs, ps, mouseish, b);
    } else {
      ResolveRowRealizesStep(fs, ps, mouseish, c, b);
    }
  }

  /// Position `c` followed by the rest of the row.
  lemma {:induction false} ResolveRowRealizesStep(fs: seq<KeyFunction>, ps: seq<bool>, mouseish: bool, c: nat, b: Buffers)
    requires |fs| == |ps| && c < |fs| && Consistent(b)
    ensures Realizes(ResolveRow(fs, ps, mouseish, c, b), Plus(Present(b), RowContribution(fs, ps, mouseish, c)))
    decreases |fs| - c, 0
  {
    var head := ResolveKey(fs[c], ps[c], mouseish, b);
    ResolveKeyRealizes(fs[c], ps[c], mouseish, b);
    if head.Filled? {
      ResolveRowRealizes(fs, ps, mouseish, c + 1, head.buffers);
    }
    ChainRealizes(b, CellContribution(fs[c], ps[c], mouseish), RowContribution(fs, ps, mouseish, c + 1),
                  head, ResolveRow(fs, ps, mouseish, c, b));
  }

  /// Past the last row nothing is added.
  lemma ResolveRowsRealizesBase(t: seq<seq<KeyFunction>>, p: seq<seq<bool>>, mouseish: bool, b: Buffers)
    requires SameShape(t, p) && Consistent(b)
    ensures Realizes(ResolveRows(t, p, mouseish, |t|, b), Plus(Present(b), TableContribution(t, p, mouseish, |t|)))
  {
    ConsistentRealizesItself(b);
    assert Plus(Present(b), NoContribution) == Present(b);
  }

  /** Rows `r..` panic exactly when what they contribute does not fit on top
      of the buffers; otherwise the buffers end up holding exactly their old
      contents plus that contribution. */
  lemma {:induction false} ResolveRowsRealizes(t: seq<seq<KeyFunction>>, p: seq<seq<bool>>, mouseish: bool, r: nat, b: Buffers)
    requires SameShape(t, p) && r <= |t| && Consistent(b)
    ensures Realizes(ResolveRows(t, p, mouseish, r, b), Plus(Present(b), TableContribution(t, p, mouseish, r)))
    decreases |t| - r, 1
  {
    if r == |t| {
      ResolveRowsRealizesBase(t, p, mouseish, b);
    } else {
      ResolveRowsRealizesStep(t, p, mouseish, r, b);
    }
  }

  /// Row `r` followed by the rows below it.
  lemma {:induction false} ResolveRowsRealizesStep(t: seq<seq<KeyFunction>>, p: seq<seq<bool>>, mouseish: bool, r: nat, b: Buffers)
    requires SameShape(t, p) && r < |t| && Consistent(b)
    ensures Realizes(ResolveRows(t, p, mouseish, r, b), Plus(Present(b), TableContribution(t, p, mouseish, r)))
    decreases |t| - r, 0
  {
    var head := ResolveRow(t[r], p[r], mouseish, 0, b);
    ResolveRowRealizes(t[r], p[r], mouseish, 0, b);
    if head.Filled? {
      ResolveRowsRealizes(t, p, mouseish, r + 1, head.buffers);
    }
    ChainRealizes(b, RowContribution(t[r], p[r], mouseish, 0), TableContribution(t, p, mouseish, r + 1),
                  head, ResolveRows(t, p, mouseish, r, b));
  }

  /** The scan's outcome from cleared buffers: it panics exactly when what
      the pressed positions contribute overflows a buffer; otherwise the
      keyboard codes are the set of contributed codes without duplicates,
      and consumer codes and mouse buttons are appended in scan order with
      repeats kept. */
  lemma ScanFromClearedRealizes(t: seq<seq<KeyFunction>>, p: seq<seq<bool>>, mouseish: bool)
    requires SameShape(t, p)
    ensures Realizes(ResolveRows(t, p, mouseish, 0, Cleared), TableContribution(t, p, mouseish, 0))
  {
    ResolveRowsRealizes(t, p, mouseish, 0, Cleared);
    assert Plus(Present(Cleared), TableContribution(t, p, mouseish, 0)) == TableContribution(t, p, mouseish, 0);
  }

  // ---------------------------------------------------------------------
  // The buffers object

  /** `ScanBuffers`: three bounded vectors, cleared at the start of every
      scan and filled by it. */
  class ScanBuffers {
    var keyCodes: seq<Keyboard>
    var consumerCodes: seq<Consumer>
    var mouseButtons: seq<MouseButton>

    /// The value the buffers currently hold.
    function Value(): (b: Buffers)
      reads this
      ensures b.keyCodes == keyCodes && b.consumerCodes == consumerCodes && b.mouseButtons == mouseButtons
    {
      Buffers(keyCodes, consumerCodes, mouseButtons)
    }

    /// `Default::default()`: all three buffers empty.
    constructor ()
      ensures Value() == Cleared
    {
      keyCodes, consumerCodes, mouseButtons := [], [], [];
    }

    /// `clear`: empties all three buffers.
    method Clear()
      modifies this
      ensures Value() == Cleared
    {
      keyCodes := [];
      consumerCodes := [];
      mouseButtons := [];
    }

    /** Adds a keyboard code unless already present; `ok` is false where the
        source's `push(..).unwrap()` panics. */
    method InsertKeyCode(k: Keyboard) returns (ok: bool)
      modifies this
      ensures AddKeyCode(old(Value()), k) == if ok then Filled(Value()) else CapacityExceeded
    {
      ok := true;
      if k !in keyCodes {
        if |keyCodes| < KeyCodesCapacity {
          keyCodes := keyCodes + [k];
        } else {
          ok := false;
        }
      }
    }

    /// The `for_each` over a `MultiKey`'s codes, stopping at the first panic.
    method InsertKeyCodes(ks: seq<Keyboard>) returns (ok: bool)
      modifies this
      ensures AddKeyCodes(old(Value()), ks, 0) == if ok then Filled(Value()) else CapacityExceeded
    {
      ok := true;
      var i := 0;
      while i < |ks|
        invariant 0 <= i <= |ks|
        invariant AddKeyCodes(old(Value()), ks, 0) == AddKeyCodes(Value(), ks, i)
      {
        ok := InsertKeyCode(ks[i]);
        if !ok {
          return;
        }
        i := i + 1;
      }
    }

    /// `consumer_codes.push(c).unwrap()`; `ok` is false where it panics.
    method PushConsumer(c: Consumer) returns (ok: bool)
      modifies this
      ensures PushConsumerCode(old(Value()), c) == if ok then Filled(Value()) else CapacityExceeded
    {
      ok := |consumerCodes| < ConsumerCodesCapacity;
      if ok {
        consumerCodes := consumerCodes + [c];
      }
    }

    /// `mouse_buttons.push(button).unwrap()`; `ok` is false where it panics.
    method PushButton(button: MouseButton) returns (ok: bool)
      modifies this
      ensures PushMouseButton(old(Value()), button) == if ok then Filled(Value()) else CapacityExceeded
    {
      ok := |mouseButtons| < MouseButtonsCapacity;
      if ok {
        mouseButtons := mouseButtons + [button];
      }
    }

    /** The `match (function, is_depressed)` arm for one position; `ok` is
        false where one of its pushes panics. */
    method Resolve(f: KeyFunction, isDepressed: bool, mouseish: bool) returns (ok: bool)
      modifies this
      ensures ResolveKey(f, isDepressed, mouseish, old(Value())) == if ok then Filled(Value()) else CapacityExceeded
    {
      ok := true;
      if isDepressed {
        match f
        case Nothing =>
        case Key(k) =>
          if k != NoEventIndicated {
            ok := InsertKeyCode(k);
          }
        case Media(m) =>
          ok := PushConsumer(m);
        case MultiKey(ks) =>
          ok := InsertKeyCodes(ks);
        case Dual(k, button) =>
          if mouseish {
            ok := PushButton(button);
          } else {
            ok := InsertKeyCode(k);
          }
      }
    }
  }

  // ---------------------------------------------------------------------
  // The scan over the matrix

  /// The latches held by row `r` of the debounce state array.
  function LatchRow(a: array2<Latch>, r: nat): (ls: seq<Latch>)
    requires r < a.Length0
    reads a
  {
    seq(a.Length1, c requires 0 <= c < a.Length1 reads a => a[r, c])
  }

  /// The latches held by the debounce state array, row by row.
  function Latches(a: array2<Latch>): (ls: seq<seq<Latch>>)
    reads a
  {
    seq(a.Length0, r requires 0 <= r < a.Length0 reads a => LatchRow(a, r))
  }

  /// A row of latches after one `update` each with its column reading.
  function StepRow(ls: seq<Latch>, inputs: seq<bool>, clock: nat): (after: seq<Latch>)
    requires |ls| == |inputs|
  {
    seq(|ls|, c requires 0 <= c < |ls| => Step(ls[c], inputs[c], clock).latch)
  }

  /// Which positions of a row count as pressed during the scan: `is_depressed`.
  function PressedRow(ls: seq<Latch>, inputs: seq<bool>, clock: nat): (p: seq<bool>)
    requires |ls| == |inputs|
  {
    seq(|ls|, c requires 0 <= c < |ls| => Step(ls[c], inputs[c], clock).latch.state)
  }

  /// Every latch of the matrix after one `update`.
  function StepAll(ls: seq<seq<Latch>>, raw: seq<seq<bool>>, clock: nat): (after: seq<seq<Latch>>)
    requires SameShape(ls, raw)
  {
    seq(|ls|, r requires 0 <= r < |ls| => StepRow(ls[r], raw[r], clock))
  }

  /// Which positions of the matrix count as pressed during the scan.
  function Pressed(ls: seq<seq<Latch>>, raw: seq<seq<bool>>, clock: nat): (p: seq<seq<bool>>)
    requires SameShape(ls, raw)
  {
    seq(|ls|, r requires 0 <= r < |ls| => PressedRow(ls[r], raw[r], clock))
  }

  /// How many of the first `n` latches of a row invoke the press callback.
  function RowPresses(ls: seq<Latch>, inputs: seq<bool>, clock: nat, n: nat): nat
    requires |ls| == |inputs| && n <= |ls|
  {
    if n == 0 then 0
    else RowPresses(ls, inputs, clock, n - 1) + (if Step(ls[n - 1], inputs[n - 1], clock).pressAction then 1 else 0)
  }

  /// How many latches of the first `n` rows invoke the press callback.
  function TablePresses(ls: seq<seq<Latch>>, raw: seq<seq<bool>>, clock: nat, n: nat): nat
    requires SameShape(ls, raw) && n <= |ls|
  {
    if n == 0 then 0
    else TablePresses(ls, raw, clock, n - 1) + RowPresses(ls[n - 1], raw[n - 1], clock, |ls[n - 1]|)
  }

  /** One iteration of `scan_keys`'s inner loop: updates the latch at
      (r, c) with the column reading, then resolves the position's function
      if it is pressed. `ok` is false where a push panics. */
  method ScanPosition(states: array2<Latch>, buffers: ScanBuffers, f: KeyFunction, input: bool,
                      mouseish: bool, scanClock: nat, r: nat, c: nat)
    returns (ok: bool, isDepressed: bool, pressAction: bool)
    requires r < states.Length0 && c < states.Length1
    modifies states, buffers
    ensures Stepped(states[r, c], pressAction) == Step(old(states[r, c]), input, scanClock)
    ensures isDepressed == states[r, c].state
    ensures ResolveKey(f, isDepressed, mouseish, old(buffers.Value())) == if ok then Filled(buffers.Value()) else CapacityExceeded
    ensures forall i, j :: 0 <= i < states.Length0 && 0 <= j < states.Length1 && (i, j) != (r, c) ==>
              states[i, j] == old(states[i, j])
  {
    var stepped := Step(states[r, c], input, scanClock);
    states[r, c] := stepped.latch;
    isDepressed, pressAction := stepped.latch.state, stepped.pressAction;
    ok := buffers.Resolve(f, isDepressed, mouseish);
  }

  /** The inner loop of `scan_keys` over row `r`, whose latches hold `ls`
      on entry and whose column readings are `inputs`. */
  method ScanRow(states: array2<Latch>, buffers: ScanBuffers, fs: seq<KeyFunction>, inputs: seq<bool>,
                 mouseish: bool, scanClock: nat, r: nat, ghost ls: seq<Latch>)
    returns (ok: bool, presses: nat)
    requires r < states.Length0 && |fs| == |inputs| == |ls| == states.Length1
    requires forall c :: 0 <= c < |ls| ==> states[r, c] == ls[c]
    modifies states, buffers
    ensures ResolveRow(fs, PressedRow(ls, inputs, scanClock), mouseish, 0, old(buffers.Value())) ==
              if ok then Filled(buffers.Value()) else CapacityExceeded
    ensures ok ==> forall c :: 0 <= c < |ls| ==> states[r, c] == Step(ls[c], inputs[c], scanClock).latch
    ensures ok ==> presses == RowPresses(ls, inputs, scanClock, |ls|)
    ensures forall i, j :: 0 <= i < states.Length0 && i != r && 0 <= j < states.Length1 ==>
              states[i, j] == old(states[i, j])
  {
    ghost var ps := PressedRow(ls, inputs, scanClock);
    ghost var total := ResolveRow(fs, ps, mouseish, 0, buffers.Value());
    presses := 0;
    var c := 0;
    while c < |fs|
      invariant 0 <= c <= |fs|
      invariant ResolveRow(fs, ps, mouseish, c, buffers.Value()) == total
      invariant forall j :: 0 <= j < |ls| ==>
                  states[r, j] == if j < c then Step(ls[j], inputs[j], scanClock).latch else ls[j]
      invariant forall i, j :: 0 <= i < states.Length0 && i != r && 0 <= j < states.Length1 ==>
                  states[i, j] == old(states[i, j])
      invariant presses == RowPresses(ls, inputs, scanClock, c)
    {
      var isDepressed, pressAction;
      ok, isDepressed, pressAction := ScanPosition(states, buffers, fs[c], inputs[c], mouseish, scanClock, r, c);
      if pressAction {
        presses := presses + 1;
      }
      if !ok {
        return;
      }
      c := c + 1;
    }
    ok := true;
  }

  /// A matrix whose every latch has taken its step holds `StepAll`.
  lemma SteppedLatches(states: array2<Latch>, before: seq<seq<Latch>>, raw: seq<seq<bool>>, scanClock: nat)
    requires SameShape(before, raw) && |before| == states.Length0
    requires forall i :: 0 <= i < |before| ==> |before[i]| == states.Length1
    requires forall i, j :: 0 <= i < states.Length0 && 0 <= j < states.Length1 ==>
               states[i, j] == Step(before[i][j], raw[i][j], scanClock).latch
    ensures Latches(states) == StepAll(before, raw, scanClock)
  {
    forall i | 0 <= i < states.Length0
      ensures LatchRow(states, i) == StepRow(before[i], raw[i], scanClock)
    {
    }
  }

  /// Both loops of `scan_keys`, from whatever the buffers hold on entry.
  method ScanMatrix(states: array2<Latch>, buffers: ScanBuffers, table: seq<seq<KeyFunction>>,
                    raw: seq<seq<bool>>, mouseish: bool, scanClock: nat)
    returns (completed: bool, presses: nat)
    requires IsMatrix(table) && IsMatrix(raw)
    requires states.Length0 == KeyRows && states.Length1 == KeyColumns
    modifies states, buffers
    ensures var before := old(Latches(states));
      && ResolveRows(table, Pressed(before, raw, scanClock), mouseish, 0, old(buffers.Value())) ==
           (if completed then Filled(buffers.Value()) else CapacityExceeded)
      && (completed ==> Latches(states) == StepAll(before, raw, scanClock))
      && (completed ==> presses == TablePresses(before, raw, scanClock, |before|))
  {
    ghost var before := Latches(states);
    ghost var p := Pressed(before, raw, scanClock);
    ghost var total := ResolveRows(table, p, mouseish, 0, buffers.Value());
    presses := 0;
    var r := 0;
    while r < KeyRows
      invariant 0 <= r <= KeyRows
      invariant ResolveRows(table, p, mouseish, r, buffers.Value()) == total
      invariant forall i, j :: 0 <= i < KeyRows && 0 <= j < KeyColumns ==>
                  states[i, j] == if i < r then Step(before[i][j], raw[i][j], scanClock).latch else before[i][j]
      invariant presses == TablePresses(before, raw, scanClock, r)
    {
      var ok, rowPresses := ScanRow(states, buffers, table[r], raw[r], mouseish, scanClock, r, before[r]);
      presses := presses + rowPresses;
      if !ok {
        return false, presses;
      }
      r := r + 1;
    }
    SteppedLatches(states, before, raw, scanClock);
    completed := true;
  }

  /** `scan_keys`: clears the buffers, then for every position in row-major
      order updates its debounce latch with the column reading `raw` and, if
      it is pressed, resolves its `KeyFunction`. The row pins, the delay and
      the column pins are hardware; their readings arrive as `raw`. The
      callback is modelled by the count `presses` of its invocations.
      `completed` is false where a push panics, which ends the scan. */
  method ScanKeys(states: array2<Latch>, buffers: ScanBuffers, table: seq<seq<KeyFunction>>,
                  raw: seq<seq<bool>>, mouseish: bool, scanClock: nat)
    returns (completed: bool, presses: nat)
    requires IsMatrix(table) && IsMatrix(raw)
    requires states.Length0 == KeyRows && states.Length1 == KeyColumns
    modifies states, buffers
    ensures var before := old(Latches(states));
      var total := ResolveRows(table, Pressed(before, raw, scanClock), mouseish, 0, Cleared);
      && total == (if completed then Filled(buffers.Value()) else CapacityExceeded)
      && Realizes(total, TableContribution(table, Pressed(before, raw, scanClock), mouseish, 0))
      && (completed ==> Latches(states) == StepAll(before, raw, scanClock))
      && (completed ==> presses == TablePresses(before, raw, scanClock, |before|))
  {
    ScanFromClearedRealizes(table, Pressed(Latches(states), raw, scanClock), mouseish);
    buffers.Clear();
    completed, presses := ScanMatrix(states, buffers, table, raw, mouseish, scanClock);
  }

  // ---------------------------------------------------------------------
  // Consequences for a table of plain keys and for a quiet matrix

  /// The codes other than `NoEventIndicated` at pressed positions `c..` of a row.
  function RowKeys(ms: seq<Keyboard>, ps: seq<bool>, c: nat): set<Keyboard>
    requires |ms| == |ps|
  {
    set j | c <= j < |ms| && ps[j] && ms[j] != NoEventIndicated :: ms[j]
  }

  /// The codes other than `NoEventIndicated` at pressed positions of rows `r..`.
  function TableKeys(m: seq<seq<Keyboard>>, p: seq<seq<bool>>, r: nat): set<Keyboard>
    requires SameShape(m, p)
  {
    set i, j | r <= i < |m| && 0 <= j < |m[i]| && p[i][j] && m[i][j] != NoEventIndicated :: m[i][j]
  }

  lemma {:induction false} PlainRowContribution(fs: seq<KeyFunction>, ms: seq<Keyboard>, ps: seq<bool>, mouseish: bool, c: nat)
    requires |fs| == |ms| == |ps| && c <= |fs|
    requires forall j :: 0 <= j < |fs| ==> fs[j] == Key(ms[j])
    ensures RowContribution(fs, ps, mouseish, c) == Contribution(RowKeys(ms, ps, c), [], [])
    decreases |fs| - c
  {
    if c < |fs| {
      PlainRowContribution(fs, ms, ps, mouseish, c + 1);
      var here := if ps[c] && ms[c] != NoEventIndicated then {ms[c]} else {};
      assert RowKeys(ms, ps, c) == here + RowKeys(ms, ps, c + 1);
    } else {
      assert RowKeys(ms, ps, c) == {};
    }
  }

  lemma {:induction false} PlainTableContribution(m: seq<seq<Keyboard>>, p: seq<seq<bool>>, mouseish: bool, r: nat)
    requires SameShape(m, p) && r <= |m|
    ensures SameShape(AsKeyFunctions(m), p)
    ensures TableContribution(AsKeyFunctions(m), p, mouseish, r) == Contribution(TableKeys(m, p, r), [], [])
    decreases |m| - r
  {
    var t := AsKeyFunctions(m);
    if r < |m| {
      PlainTableContribution(m, p, mouseish, r + 1);
      PlainRowContribution(t[r], m[r], p[r], mouseish, 0);
      assert TableKeys(m, p, r) == RowKeys(m[r], p[r], 0) + TableKeys(m, p, r + 1) by {
        forall k | k in TableKeys(m, p, r) ensures k in RowKeys(m[r], p[r], 0) + TableKeys(m, p, r + 1) {
          var i, j :| r <= i < |m| && 0 <= j < |m[i]| && p[i][j] && m[i][j] != NoEventIndicated && m[i][j] == k;
          if i == r {
            assert m[r][j] in RowKeys(m[r], p[r], 0);
          }
        }
        forall k | k in RowKeys(m[r], p[r], 0) ensures k in TableKeys(m, p, r) {
          var j :| 0 <= j < |m[r]| && p[r][j] && m[r][j] != NoEventIndicated && m[r][j] == k;
        }
      }
    } else {
      assert TableKeys(m, p, r) == {};
    }
  }

  /** Scanning a table whose every position is a plain key: no consumer
      code and no mouse button is ever pushed, so mouse mode changes
      nothing; the keyboard codes are the distinct codes at pressed
      positions, and the scan panics exactly when there are more than 32 of
      them. */
  lemma PlainTableScan(m: seq<seq<Keyboard>>, p: seq<seq<bool>>, mouseish: bool)
    requires SameShape(m, p)
    ensures SameShape(AsKeyFunctions(m), p)
    ensures var r := ResolveRows(AsKeyFunctions(m), p, mouseish, 0, Cleared);
      && (r.Filled? <==> |TableKeys(m, p, 0)| <= KeyCodesCapacity)
      && (r.Filled? ==> Elems(r.buffers.keyCodes) == TableKeys(m, p, 0) && NoDuplicates(r.buffers.keyCodes)
                        && r.buffers.consumerCodes == [] && r.buffers.mouseButtons == [])
  {
    PlainTableContribution(m, p, mouseish, 0);
    ScanFromClearedRealizes(AsKeyFunctions(m), p, mouseish);
  }

  /// Of the first `n` latches of a row, none fires when every reading equals its latched state.
  lemma {:induction false} QuietRowPresses(ls: seq<Latch>, inputs: seq<bool>, clock: nat, n: nat)
    requires |ls| == |inputs| && n <= |ls|
    requires forall c :: 0 <= c < |ls| ==> inputs[c] == ls[c].state
    ensures RowPresses(ls, inputs, clock, n) == 0
  {
    if n > 0 {
      QuietRowPresses(ls, inputs, clock, n - 1);
    }
  }

  /// Of the first `n` rows, none fires when every reading equals its latched state.
  lemma {:induction false} QuietTablePresses(ls: seq<seq<Latch>>, raw: seq<seq<bool>>, clock: nat, n: nat)
    requires SameShape(ls, raw) && n <= |ls|
    requires forall r, c :: 0 <= r < |ls| && 0 <= c < |ls[r]| ==> raw[r][c] == ls[r][c].state
    ensures TablePresses(ls, raw, clock, n) == 0
  {
    if n > 0 {
      QuietTablePresses(ls, raw, clock, n - 1);
      QuietRowPresses(ls[n - 1], raw[n - 1], clock, |ls[n - 1]|);
    }
  }

  /** A scan whose every reading equals its latched state changes no latch,
      fires no press callback, and treats exactly the latched positions as
      pressed. */
  lemma QuietScan(ls: seq<seq<Latch>>, raw: seq<seq<bool>>, clock: nat)
    requires SameShape(ls, raw)
    requires forall r, c :: 0 <= r < |ls| && 0 <= c < |ls[r]| ==> raw[r][c] == ls[r][c].state
    ensures StepAll(ls, raw, clock) == ls
    ensures Pressed(ls, raw, clock) == raw
    ensures TablePresses(ls, raw, clock, |ls|) == 0
  {
    QuietTablePresses(ls, raw, clock, |ls|);
    forall r | 0 <= r < |ls|
      ensures StepAll(ls, raw, clock)[r] == ls[r] && Pressed(ls, raw, clock)[r] == raw[r]
    {
    }
  }
}
