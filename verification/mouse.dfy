/** Pointer tracking: the joystick reading arrives over I2C as five bytes,
    is calibrated against the first reading, passed through the transfer
    curve and accumulated; reports take whole units of 40000 out of the
    accumulator, clamped to a signed byte. */
module Mouse {

  datatype Option<T> = None | Some(value: T)

  newtype Byte = x: int | 0 <= x < 0x100

  predicate IsI8(x: int)  { -0x80 <= x < 0x80 }
  predicate IsI16(x: int) { -0x8000 <= x < 0x8000 }
  predicate IsI32(x: int) { -0x8000_0000 <= x < 0x8000_0000 }

  /// `MOUSE_REPORT_SCALE`: accumulated movement per report unit.
  const MouseReportScale: int := 40000

  datatype Point = Point(x: int, y: int)

  // ---------------------------------------------------------------------
  // Transfer curve

  /** `mouse_curve`: the live branch, `i32::from(d) * 500`. */
  function MouseCurve(d: int): (r: int)
    // an i16 displacement always fits in i32
    ensures IsI16(d) ==> IsI32(r)
    // zero at zero, and the sign of the displacement is kept
    ensures (r == 0 <==> d == 0) && (r > 0 <==> d > 0)
  {
    d * 500
  }

  /// The curve is odd and additive: a displacement and its mirror cancel.
  lemma MouseCurveLinear(a: int, b: int)
    ensures MouseCurve(-a) == -MouseCurve(a)
    ensures MouseCurve(a + b) == MouseCurve(a) + MouseCurve(b)
  {
  }

  // ---------------------------------------------------------------------
  // The five-byte reading

  /// The outcome of the I2C read: the bytes it filled in, or an error.
  datatype I2cRead = Failed | Bytes(buffer: seq<Byte>)

  /// A decoded reading: joystick position and button state.
  datatype Sample = Sample(position: Point, button: bool)

  /** What `read_mouse_raw` produces: `None` on a failed read, a sample, or
      a panic of `i16::try_from(..).unwrap()`. */
  datatype RawRead = NoReading | Reading(sample: Sample) | ReadPanic

  /// `u16::from_be_bytes([hi, lo])`
  function BigEndian(hi: Byte, lo: Byte): (r: int)
    ensures 0 <= r < 0x1_0000
  {
    hi as int * 0x100 + lo as int
  }

  /** The decode in `read_mouse_raw`: y is bytes 0-1 big-endian, x is the
      negation of bytes 2-3 big-endian, the button is pressed iff byte 4 is
      1. Each 16-bit value must fit in i16 or the conversion panics. */
  function ReadMouseRaw(read: I2cRead): (r: RawRead)
    requires read.Bytes? ==> |read.buffer| == 5
    ensures read.Failed? <==> r.NoReading?
    ensures read.Bytes? ==> (r.ReadPanic? <==> read.buffer[0] >= 0x80 || read.buffer[2] >= 0x80)
    ensures r.Reading? ==> IsDecoded(r.sample) && (r.sample.button <==> read.buffer[4] == 1)
  {
    match read
    case Failed => NoReading
    case Bytes(b) =>
      var ux := BigEndian(b[2], b[3]);
      var uy := BigEndian(b[0], b[1]);
      if !IsI16(ux) || !IsI16(uy) then ReadPanic
      else Reading(Sample(Point(-ux, uy), b[4] == 1))
  }

  /** The samples a successful decode can produce: x in [-32767, 0] and y in
      [0, 32767]. */
  predicate IsDecoded(s: Sample)
  {
    -0x8000 < s.position.x <= 0 && 0 <= s.position.y < 0x8000
  }

  /// A canonical encoding of a sample as five bytes (button as 0 or 1).
  function Encode(s: Sample): (b: seq<Byte>)
    requires IsDecoded(s)
    ensures |b| == 5
  {
    var ux := -s.position.x;
    var uy := s.position.y;
    [(uy / 0x100) as Byte, (uy % 0x100) as Byte, (ux / 0x100) as Byte, (ux % 0x100) as Byte,
     if s.button then 1 else 0]
  }

  /// Decoding what `Encode` sends gives back the sample.
  lemma DecodeEncode(s: Sample)
    requires IsDecoded(s)
    ensures ReadMouseRaw(Bytes(Encode(s))) == Reading(s)
  {
  }

  /** A buffer that decodes, with byte 4 either 0 or 1, is exactly what
      `Encode` sends for its sample. */
  lemma EncodeDecode(b: seq<Byte>)
    requires |b| == 5 && b[0] < 0x80 && b[2] < 0x80 && b[4] <= 1
    ensures ReadMouseRaw(Bytes(b)).Reading? && Encode(ReadMouseRaw(Bytes(b)).sample) == b
  {
    var s := ReadMouseRaw(Bytes(b)).sample;
    assert Encode(s)[0] == b[0] && Encode(s)[1] == b[1] && Encode(s)[2] == b[2] && Encode(s)[3] == b[3];
  }

  /// The i16 subtraction `raw - origin` never overflows for decoded samples.
  lemma DecodedDifferencesFit(a: Sample, b: Sample)
    requires IsDecoded(a) && IsDecoded(b)
    ensures IsI16(a.position.x - b.position.x) && IsI16(a.position.y - b.position.y)
    ensures IsI32(MouseCurve(a.position.x - b.position.x)) && IsI32(MouseCurve(a.position.y - b.position.y))
  {
  }

  // ---------------------------------------------------------------------
  // The tracker

  /** The value of a `MouseTracker`: movement not yet reported, the latest
      button state, and the calibrated origin once there is one. */
  datatype Tracker = Tracker(unreported: Point, button: bool, origin: Option<Point>)

  /// `Default`: nothing accumulated, button up, not calibrated.
  const Uncalibrated: Tracker := Tracker(Point(0, 0), false, None)

  /// `update` with a successful reading.
  function Track(t: Tracker, s: Sample): Tracker
  {
    var origin := if t.origin.None? then s.position else t.origin.value;
    Tracker(Point(t.unreported.x + MouseCurve(s.position.x - origin.x),
                  t.unreported.y + MouseCurve(s.position.y - origin.y)),
            s.button, Some(origin))
  }

  /// `update` with what `read_mouse_raw` returned, when it did not panic.
  function Updated(t: Tracker, read: RawRead): Tracker
    requires !read.ReadPanic?
  {
    if read.Reading? then Track(t, read.sample) else t
  }

  /** The first successful reading becomes the origin and adds no movement;
      afterwards the origin never changes; the button is always the latest
      reading's. */
  lemma TrackCalibrates(t: Tracker, s: Sample)
    ensures t.origin.None? ==> Track(t, s).origin == Some(s.position) && Track(t, s).unreported == t.unreported
    ensures t.origin.Some? ==> Track(t, s).origin == t.origin
    ensures Track(t, s).button == s.button
  {
  }

  /// The tracker after a run of successful readings.
  function TrackAll(t: Tracker, samples: seq<Sample>): Tracker
    decreases |samples|
  {
    if samples == [] then t else TrackAll(Track(t, samples[0]), samples[1..])
  }

  /// The movement a run of readings adds once the origin is `o`.
  function Displacement(samples: seq<Sample>, o: Point): Point
    decreases |samples|
  {
    if samples == [] then Point(0, 0)
    else
      var rest := Displacement(samples[1..], o);
      Point(MouseCurve(samples[0].position.x - o.x) + rest.x, MouseCurve(samples[0].position.y - o.y) + rest.y)
  }

  /** Over a run of readings from a calibrated tracker, the origin stays put
      and the accumulator gains the curve of every reading's offset from it. */
  lemma {:induction false} TrackAllFromOrigin(t: Tracker, samples: seq<Sample>)
    requires t.origin.Some?
    ensures TrackAll(t, samples).origin == t.origin
    ensures TrackAll(t, samples).unreported ==
              Point(t.unreported.x + Displacement(samples, t.origin.value).x,
                    t.unreported.y + Displacement(samples, t.origin.value).y)
    decreases |samples|
  {
    if samples != [] {
      TrackAllFromOrigin(Track(t, samples[0]), samples[1..]);
    }
  }

  /** From power-up, the first reading is the origin for the whole run, and
      the accumulator holds the curve of every reading's offset from it. */
  lemma FirstReadingIsOrigin(samples: seq<Sample>)
    requires samples != []
    ensures TrackAll(Uncalibrated, samples).origin == Some(samples[0].position)
    ensures TrackAll(Uncalibrated, samples).unreported == Displacement(samples, samples[0].position)
  {
    var t := Track(Uncalibrated, samples[0]);
    TrackAllFromOrigin(t, samples[1..]);
    assert MouseCurve(samples[0].position.x - samples[0].position.x) == 0;
  }

  // ---------------------------------------------------------------------
  // Reports

  /** `(u / MOUSE_REPORT_SCALE)` on i64: division truncating toward zero,
      so the quotient never overshoots `u`. */
  function ScaleDown(u: int): (q: int)
    ensures u >= 0 ==> 0 <= q * MouseReportScale <= u < q * MouseReportScale + MouseReportScale
    ensures u < 0 ==> q * MouseReportScale - MouseReportScale < u <= q * MouseReportScale <= 0
  {
    if u >= 0 then u / MouseReportScale else -((-u) / MouseReportScale)
  }

  /// `v.clamp(lo, hi)`
  function Clamp(v: int, lo: int, hi: int): (r: int)
    requires lo <= hi
    ensures lo <= r <= hi
    ensures lo <= v <= hi ==> r == v
    ensures v < lo ==> r == lo
    ensures v > hi ==> r == hi
  {
    if v < lo then lo else if v > hi then hi else v
  }

  /** One axis of `populate_report`: the whole report units held, clamped to
      i8. It is zero exactly while less than one unit is held, and never
      reports more movement than is held. */
  function ReportAxis(u: int): (r: int)
    ensures IsI8(r)
    ensures r == 0 <==> -MouseReportScale < u < MouseReportScale
    ensures r > 0 ==> r * MouseReportScale <= u
    ensures r < 0 ==> u <= r * MouseReportScale
    ensures u >= 128 * MouseReportScale ==> r == 127
    ensures u <= -128 * MouseReportScale ==> r == -128
  {
    Clamp(ScaleDown(u), -128, 127)
  }

  /// `WheelMouseReport`, restricted to what the firmware fills in.
  datatype MouseReport = MouseReport(buttons: bv8, x: int, y: int)

  /// `populate_report`: a function of the tracker state.
  function Report(t: Tracker): (r: MouseReport)
    ensures IsI8(r.x) && IsI8(r.y)
    ensures r.buttons == if t.button then 1 else 0
  {
    MouseReport(if t.button then 1 else 0, ReportAxis(t.unreported.x), ReportAxis(t.unreported.y))
  }

  /// One axis of `account_report`: takes the reported units out.
  function AccountAxis(u: int, reported: int): int
  {
    u - reported * MouseReportScale
  }

  /// `account_report`: the reported movement is no longer unreported.
  function Account(t: Tracker, report: MouseReport): Tracker
  {
    t.(unreported := Point(AccountAxis(t.unreported.x, report.x), AccountAxis(t.unreported.y, report.y)))
  }

  /** Reporting an axis and accounting for it: within the i8 range the
      remainder is less than one unit, with the sign of the movement or zero;
      beyond it, the remainder moves 127 or 128 units toward zero. */
  lemma AxisRemainder(u: int)
    ensures var rem := AccountAxis(u, ReportAxis(u));
      && (-128 * MouseReportScale < u < 128 * MouseReportScale ==>
            -MouseReportScale < rem < MouseReportScale && (rem == 0 || (rem > 0 <==> u > 0)))
      && (u >= 128 * MouseReportScale ==> rem == u - 127 * MouseReportScale)
      && (u <= -128 * MouseReportScale ==> rem == u + 128 * MouseReportScale)
  {
  }

  /** What repeated report-and-account cycles leave of `u` once it reports
      zero: less than one unit, with the sign of `u` or zero. Each cycle
      strictly shrinks a movement of a unit or more, so the cycles end. */
  function Drained(u: int): (rem: int)
    ensures -MouseReportScale < rem < MouseReportScale
    ensures rem == 0 || (rem > 0 <==> u > 0)
    decreases if u < 0 then -u else u
  {
    if -MouseReportScale < u < MouseReportScale then u
    else Drained(AccountAxis(u, ReportAxis(u)))
  }

  /** `MouseTracker`, updated in place by the keyboard tick. */
  class MouseTracker {
    var unreported: Point
    var button: bool
    var origin: Option<Point>

    /// The value this object currently holds.
    function Value(): (t: Tracker)
      reads this
      ensures t.unreported == unreported && t.button == button && t.origin == origin
    {
      Tracker(unreported, button, origin)
    }

    /// `Default::default()`
    constructor ()
      ensures Value() == Uncalibrated
    {
      unreported := Point(0, 0);
      button := false;
      origin := None;
    }

    /** `update`: reads the joystick and accumulates its movement. `ok` is
        false where the decode panics. A failed read changes nothing. */
    method Update(read: I2cRead) returns (ok: bool)
      requires read.Bytes? ==> |read.buffer| == 5
      modifies this
      ensures ok <==> !ReadMouseRaw(read).ReadPanic?
      ensures ok ==> Value() == Updated(old(Value()), ReadMouseRaw(read))
    {
      match ReadMouseRaw(read)
      case NoReading =>
        ok := true;
      case ReadPanic =>
        ok := false;
      case Reading(s) =>
        ok := true;
        button := s.button;
        if origin.None? {
          origin := Some(s.position);
        }
        var o := origin.value;
        unreported := Point(unreported.x + MouseCurve(s.position.x - o.x),
                            unreported.y + MouseCurve(s.position.y - o.y));
    }

    /// `populate_report`
    function PopulateReport(): (r: MouseReport)
      reads this
      ensures r == Report(Value())
    {
      MouseReport(if button then 1 else 0, ReportAxis(unreported.x), ReportAxis(unreported.y))
    }

    /// `account_report`
    method AccountReport(report: MouseReport)
      modifies this
      ensures Value() == Account(old(Value()), report)
    {
      unreported := Point(unreported.x - report.x * MouseReportScale, unreported.y - report.y * MouseReportScale);
    }
  }
}
