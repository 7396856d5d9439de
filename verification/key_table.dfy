/** The static key function table: what each of the 6 x 17 matrix positions
    produces when its switch is pressed. */
module KeyTable {

  const KeyRows: nat := 6
  const KeyColumns: nat := 17

  /** A usage ID on the Keyboard/Keypad page (0x07) of the USB HID Usage
      Tables; the enumeration's discriminants are these IDs. */
  newtype Keyboard = x: int | 0 <= x < 0x100

  /// Marks unwired and "magic" positions.
  const NoEventIndicated: Keyboard := 0x00

  const A: Keyboard := 0x04
  const B: Keyboard := 0x05
  const C: Keyboard := 0x06
  const D: Keyboard := 0x07
  const E: Keyboard := 0x08
  const F: Keyboard := 0x09
  const G: Keyboard := 0x0A
  const H: Keyboard := 0x0B
  const I: Keyboard := 0x0C
  const J: Keyboard := 0x0D
  const K: Keyboard := 0x0E
  const L: Keyboard := 0x0F
  const M: Keyboard := 0x10
  const N: Keyboard := 0x11
  const O: Keyboard := 0x12
  const P: Keyboard := 0x13
  const Q: Keyboard := 0x14
  const R: Keyboard := 0x15
  const S: Keyboard := 0x16
  const T: Keyboard := 0x17
  const U: Keyboard := 0x18
  const V: Keyboard := 0x19
  const W: Keyboard := 0x1A
  const X: Keyboard := 0x1B
  const Y: Keyboard := 0x1C
  const Z: Keyboard := 0x1D
  const Keyboard1: Keyboard := 0x1E
  const Keyboard2: Keyboard := 0x1F
  const Keyboard3: Keyboard := 0x20
  const Keyboard4: Keyboard := 0x21
  const Keyboard5: Keyboard := 0x22
  const Keyboard6: Keyboard := 0x23
  const Keyboard7: Keyboard := 0x24
  const Keyboard8: Keyboard := 0x25
  const Keyboard9: Keyboard := 0x26
  const Keyboard0: Keyboard := 0x27
  const ReturnEnter: Keyboard := 0x28
  const Escape: Keyboard := 0x29
  const DeleteBackspace: Keyboard := 0x2A
  const Tab: Keyboard := 0x2B
  const Space: Keyboard := 0x2C
  const Minus: Keyboard := 0x2D
  const Equal: Keyboard := 0x2E
  const LeftBrace: Keyboard := 0x2F
  const RightBrace: Keyboard := 0x30
  const NonUSHash: Keyboard := 0x32
  const Semicolon: Keyboard := 0x33
  const Apostrophe: Keyboard := 0x34
  const Grave: Keyboard := 0x35
  const Comma: Keyboard := 0x36
  const Dot: Keyboard := 0x37
  const ForwardSlash: Keyboard := 0x38
  const CapsLock: Keyboard := 0x39
  const F1: Keyboard := 0x3A
  const F2: Keyboard := 0x3B
  const F3: Keyboard := 0x3C
  const F4: Keyboard := 0x3D
  const F5: Keyboard := 0x3E
  const F6: Keyboard := 0x3F
  const F7: Keyboard := 0x40
  const F8: Keyboard := 0x41
  const F9: Keyboard := 0x42
  const F10: Keyboard := 0x43
  const F11: Keyboard := 0x44
  const F12: Keyboard := 0x45
  const Home: Keyboard := 0x4A
  const PageUp: Keyboard := 0x4B
  const DeleteForward: Keyboard := 0x4C
  const End: Keyboard := 0x4D
  const PageDown: Keyboard := 0x4E
  const RightArrow: Keyboard := 0x4F
  const LeftArrow: Keyboard := 0x50
  const DownArrow: Keyboard := 0x51
  const UpArrow: Keyboard := 0x52
  const NonUSBackslash: Keyboard := 0x64
  const Mute: Keyboard := 0x7F
  const VolumeUp: Keyboard := 0x80
  const VolumeDown: Keyboard := 0x81
  const LeftControl: Keyboard := 0xE0
  const LeftShift: Keyboard := 0xE1
  const LeftAlt: Keyboard := 0xE2
  const LeftGUI: Keyboard := 0xE3
  const RightControl: Keyboard := 0xE4
  const RightShift: Keyboard := 0xE5
  const RightAlt: Keyboard := 0xE6
  const RightGUI: Keyboard := 0xE7

  /// A usage ID on the Consumer page (0x0C) of the USB HID Usage Tables.
  newtype Consumer = x: int | 0 <= x < 0x1_0000

  datatype MouseButton = Left | Right

  /** What a matrix position produces while pressed. */
  datatype KeyFunction =
    | Nothing                                   // unwired position
    | Key(key: Keyboard)                        // one keyboard code
    | Media(consumer: Consumer)                 // one consumer code
    | MultiKey(keys: seq<Keyboard>)             // several keyboard codes at once
    | Dual(dualKey: Keyboard, button: MouseButton)  // a key, or a button in mouse mode

  /// A table with one entry per matrix position.
  predicate IsMatrix<T>(m: seq<seq<T>>)
  {
    |m| == KeyRows && forall r :: 0 <= r < |m| ==> |m[r]| == KeyColumns
  }

  /// `KEY_MAPPING`: the keyboard code wired at each position, row by row.
  const KeyMapping: seq<seq<Keyboard>> :=
    [MappingRow0, MappingRow1, MappingRow2, MappingRow3, MappingRow4, MappingRow5]

  const MappingRow0: seq<Keyboard> :=
    [ NoEventIndicated, LeftControl, LeftGUI, LeftAlt, NoEventIndicated, NoEventIndicated, Space, NoEventIndicated, NoEventIndicated, Space, NoEventIndicated, RightAlt, RightGUI, RightControl, LeftArrow, DownArrow, RightArrow ]

  const MappingRow1: seq<Keyboard> :=
    [ NoEventIndicated, LeftShift, NonUSBackslash, Z, X, C, V, B, N, M, Comma, Dot, ForwardSlash, NoEventIndicated, RightShift, UpArrow, PageDown ]

  const MappingRow2: seq<Keyboard> :=
    [ NoEventIndicated, CapsLock, NoEventIndicated, A, S, D, F, G, H, J, K, L, Semicolon, Apostrophe, NonUSHash, NoEventIndicated, PageUp ]

  const MappingRow3: seq<Keyboard> :=
    [ NoEventIndicated, Tab, NoEventIndicated, Q, W, E, R, T, Y, U, I, O, P, LeftBrace, RightBrace, ReturnEnter, End ]

  const MappingRow4: seq<Keyboard> :=
    [ Mute, Grave, Keyboard1, Keyboard2, Keyboard3, Keyboard4, Keyboard5, Keyboard6, Keyboard7, Keyboard8, Keyboard9, Keyboard0, Minus, Equal, NoEventIndicated, DeleteBackspace, Home ]

  const MappingRow5: seq<Keyboard> :=
    [ NoEventIndicated, Escape, F1, F2, F3, F4, F5, F6, F7, F8, F9, F10, F11, F12, VolumeDown, VolumeUp, DeleteForward ]

  /// The table as the scanner reads it: every entry is a plain key.
  function AsKeyFunctions(m: seq<seq<Keyboard>>): (t: seq<seq<KeyFunction>>)
    ensures |t| == |m|
    ensures forall r :: 0 <= r < |m| ==> |t[r]| == |m[r]|
    ensures forall r, c :: 0 <= r < |m| && 0 <= c < |m[r]| ==> t[r][c] == Key(m[r][c])
  {
    seq(|m|, r requires 0 <= r < |m| =>
      seq(|m[r]|, c requires 0 <= c < |m[r]| => Key(m[r][c])))
  }

  /// `KEY_MAPPING` has exactly KEY_ROWS rows of KEY_COLUMNS entries.
  lemma MappingIsMatrix()
    ensures IsMatrix(KeyMapping) && IsMatrix(AsKeyFunctions(KeyMapping))
  {
  }

  /// Whether (r, c) is a position of the matrix.
  predicate InMatrix(r: int, c: int)
  {
    0 <= r < KeyRows && 0 <= c < KeyColumns
  }

  // ---------------------------------------------------------------------
  // The table read backwards

  /// A matrix position, or none.
  datatype Place = At(row: nat, column: nat) | Unwired

  /** The first position (in row-major order) wired to code `k`, or
      `Unwired` when no position is (`NoEventIndicated` included). */
  function WiredAt(k: Keyboard): (p: Place)
    ensures p.At? ==> InMatrix(p.row, p.column) && KeyMapping[p.row][p.column] == k
    ensures p.At? ==> k != NoEventIndicated
  {
    if k == LeftControl then At(0, 1)
    else if k == LeftGUI then At(0, 2)
    else if k == LeftAlt then At(0, 3)
    else if k == Space then At(0, 6)
    else if k == RightAlt then At(0, 11)
    else if k == RightGUI then At(0, 12)
    else if k == RightControl then At(0, 13)
    else if k == LeftArrow then At(0, 14)
    else if k == DownArrow then At(0, 15)
    else if k == RightArrow then At(0, 16)
    else if k == LeftShift then At(1, 1)
    else if k == NonUSBackslash then At(1, 2)
    else if k == Z then At(1, 3)
    else if k == X then At(1, 4)
    else if k == C then At(1, 5)
    else if k == V then At(1, 6)
    else if k == B then At(1, 7)
    else if k == N then At(1, 8)
    else if k == M then At(1, 9)
    else if k == Comma then At(1, 10)
    else if k == Dot then At(1, 11)
    else if k == ForwardSlash then At(1, 12)
    else if k == RightShift then At(1, 14)
    else if k == UpArrow then At(1, 15)
    else if k == PageDown then At(1, 16)
    else if k == CapsLock then At(2, 1)
    else if k == A then At(2, 3)
    else if k == S then At(2, 4)
    else if k == D then At(2, 5)
    else if k == F then At(2, 6)
    else if k == G then At(2, 7)
    else if k == H then At(2, 8)
    else if k == J then At(2, 9)
    else if k == K then At(2, 10)
    else if k == L then At(2, 11)
    else if k == Semicolon then At(2, 12)
    else if k == Apostrophe then At(2, 13)
    else if k == NonUSHash then At(2, 14)
    else if k == PageUp then At(2, 16)
    else if k == Tab then At(3, 1)
    else if k == Q then At(3, 3)
    else if k == W then At(3, 4)
    else if k == E then At(3, 5)
    else if k == R then At(3, 6)
    else if k == T then At(3, 7)
    else if k == Y then At(3, 8)
    else if k == U then At(3, 9)
    else if k == I then At(3, 10)
    else if k == O then At(3, 11)
    else if k == P then At(3, 12)
    else if k == LeftBrace then At(3, 13)
    else if k == RightBrace then At(3, 14)
    else if k == ReturnEnter then At(3, 15)
    else if k == End then At(3, 16)
    else if k == Mute then At(4, 0)
    else if k == Grave then At(4, 1)
    else if k == Keyboard1 then At(4, 2)
    else if k == Keyboard2 then At(4, 3)
    else if k == Keyboard3 then At(4, 4)
    else if k == Keyboard4 then At(4, 5)
    else if k == Keyboard5 then At(4, 6)
    else if k == Keyboard6 then At(4, 7)
    else if k == Keyboard7 then At(4, 8)
    else if k == Keyboard8 then At(4, 9)
    else if k == Keyboard9 then At(4, 10)
    else if k == Keyboard0 then At(4, 11)
    else if k == Minus then At(4, 12)
    else if k == Equal then At(4, 13)
    else if k == DeleteBackspace then At(4, 15)
    else if k == Home then At(4, 16)
    else if k == Escape then At(5, 1)
    else if k == F1 then At(5, 2)
    else if k == F2 then At(5, 3)
    else if k == F3 then At(5, 4)
    else if k == F4 then At(5, 5)
    else if k == F5 then At(5, 6)
    else if k == F6 then At(5, 7)
    else if k == F7 then At(5, 8)
    else if k == F8 then At(5, 9)
    else if k == F9 then At(5, 10)
    else if k == F10 then At(5, 11)
    else if k == F11 then At(5, 12)
    else if k == F12 then At(5, 13)
    else if k == VolumeDown then At(5, 14)
    else if k == VolumeUp then At(5, 15)
    else if k == DeleteForward then At(5, 16)
    else Unwired
  }

  /// Every code wired in row 0 is found at its own position (the second `Space`, at column 9, is found at (0, 6)).
  lemma Row0WiredAt()
    ensures |MappingRow0| == KeyColumns
    ensures forall c :: 0 <= c < KeyColumns && MappingRow0[c] != NoEventIndicated ==>
              WiredAt(MappingRow0[c]) == At(0, c) || c == 9
  {
  }

  /// Every code wired in row 1 is found at its own position.
  lemma Row1WiredAt()
    ensures |MappingRow1| == KeyColumns
    ensures forall c :: 0 <= c < KeyColumns && MappingRow1[c] != NoEventIndicated ==>
              WiredAt(MappingRow1[c]) == At(1, c)
  {
  }

  /// Every code wired in row 2 is found at its own position.
  lemma Row2WiredAt()
    ensures |MappingRow2| == KeyColumns
    ensures forall c :: 0 <= c < KeyColumns && MappingRow2[c] != NoEventIndicated ==>
              WiredAt(MappingRow2[c]) == At(2, c)
  {
  }

  /// Every code wired in row 3 is found at its own position.
  lemma Row3WiredAt()
    ensures |MappingRow3| == KeyColumns
    ensures forall c :: 0 <= c < KeyColumns && MappingRow3[c] != NoEventIndicated ==>
              WiredAt(MappingRow3[c]) == At(3, c)
  {
  }

  /// Every code wired in row 4 is found at its own position.
  lemma Row4WiredAt()
    ensures |MappingRow4| == KeyColumns
    ensures forall c :: 0 <= c < KeyColumns && MappingRow4[c] != NoEventIndicated ==>
              WiredAt(MappingRow4[c]) == At(4, c)
  {
  }

  /// Every code wired in row 5 is found at its own position.
  lemma Row5WiredAt()
    ensures |MappingRow5| == KeyColumns
    ensures forall c :: 0 <= c < KeyColumns && MappingRow5[c] != NoEventIndicated ==>
              WiredAt(MappingRow5[c]) == At(5, c)
  {
  }

  /** `WiredAt` inverts the table: a position holding a code other than
      `NoEventIndicated` is where `WiredAt` finds that code, unless it is the
      second `Space` at (0, 9). */
  lemma WiredAtInvertsTable(r: nat, c: nat)
    requires InMatrix(r, c) && KeyMapping[r][c] != NoEventIndicated
    ensures WiredAt(KeyMapping[r][c]) == At(r, c) || (r, c) == (0, 9)
  {
    if r == 0 { Row0WiredAt(); }
    else if r == 1 { Row1WiredAt(); }
    else if r == 2 { Row2WiredAt(); }
    else if r == 3 { Row3WiredAt(); }
    else if r == 4 { Row4WiredAt(); }
    else { Row5WiredAt(); }
  }

  /** No code other than `NoEventIndicated` is wired at two positions, except
      `Space`, which is wired at exactly (0, 6) and (0, 9). */
  lemma WiredAtMostOnceExceptSpace(r1: nat, c1: nat, r2: nat, c2: nat)
    requires InMatrix(r1, c1) && InMatrix(r2, c2) && (r1, c1) != (r2, c2)
    requires KeyMapping[r1][c1] == KeyMapping[r2][c2] != NoEventIndicated
    ensures KeyMapping[r1][c1] == Space
    ensures {(r1, c1), (r2, c2)} == {(0, 6), (0, 9)}
  {
    WiredAtInvertsTable(r1, c1);
    WiredAtInvertsTable(r2, c2);
    assert WiredAt(Space) == At(0, 6);
  }

  /// The positions holding `Space` are exactly (0, 6) and (0, 9).
  lemma SpacePositions(r: nat, c: nat)
    requires InMatrix(r, c)
    ensures KeyMapping[r][c] == Space <==> (r, c) == (0, 6) || (r, c) == (0, 9)
  {
    if KeyMapping[r][c] == Space && (r, c) != (0, 6) {
      WiredAtMostOnceExceptSpace(r, c, 0, 6);
    }
  }

  /** A code is wired somewhere exactly when `WiredAt` finds it. */
  lemma WiredAtComplete(k: Keyboard)
    ensures WiredAt(k).At? <==> exists r, c :: InMatrix(r, c) && KeyMapping[r][c] == k && k != NoEventIndicated
  {
    var p := WiredAt(k);
    if p.At? {
      assert InMatrix(p.row, p.column) && KeyMapping[p.row][p.column] == k;
    } else {
      forall r, c | InMatrix(r, c) && KeyMapping[r][c] != NoEventIndicated
        ensures KeyMapping[r][c] != k
      {
        WiredAtInvertsTable(r, c);
      }
    }
  }

  /** Column 0 holds the "magic" keys, all `NoEventIndicated` except `Mute`
      in row 4; the volume keys sit in row 5 as keyboard-page codes. */
  lemma TableLayout()
    ensures forall r :: 0 <= r < KeyRows ==> KeyMapping[r][0] == (if r == 4 then Mute else NoEventIndicated)
    ensures KeyMapping[4][0] == Mute && KeyMapping[5][14] == VolumeDown && KeyMapping[5][15] == VolumeUp
  {
  }
}
