/**
 The scancode decoder of src/keyboard.rs: a two-flag shift state over the Scan Code
 Set 1 table of the US QWERTY layout.
 */
module Keyboard {
  import opened Common

  const LEFT_SHIFT_MAKE: Byte := 0x2A
  const LEFT_SHIFT_BREAK: Byte := 0xAA
  const RIGHT_SHIFT_MAKE: Byte := 0x36
  const RIGHT_SHIFT_BREAK: Byte := 0xB6

  datatype Shift = Shift(left: bool, right: bool) {
    predicate IsActive() {
      left || right
    }
  }

  const Released := Shift(false, false)

  // ---------------------------------------------------------------- the table

  /** What a make code stands for: one byte whatever the shift, a pair of bytes, or nothing. */
  datatype KeyCap = Plain(byte: Byte) | Cap(lower: Byte, upper: Byte) | NoCap

  function NumberRow(code: Byte): KeyCap {
    match code
    case 0x02 => Cap(0x31, 0x21)  // 1 !
    case 0x03 => Cap(0x32, 0x40)  // 2 @
    case 0x04 => Cap(0x33, 0x23)  // 3 #
    case 0x05 => Cap(0x34, 0x24)  // 4 $
    case 0x06 => Cap(0x35, 0x25)  // 5 %
    case 0x07 => Cap(0x36, 0x5E)  // 6 ^
    case 0x08 => Cap(0x37, 0x26)  // 7 &
    case 0x09 => Cap(0x38, 0x2A)  // 8 *
    case 0x0A => Cap(0x39, 0x28)  // 9 (
    case 0x0B => Cap(0x30, 0x29)  // 0 )
    case 0x0C => Cap(0x2D, 0x5F)  // - _
    case 0x0D => Cap(0x3D, 0x2B)  // = +
    case _ => NoCap
  }

  function TopRow(code: Byte): KeyCap {
    match code
    case 0x10 => Cap(0x71, 0x51)  // q Q
    case 0x11 => Cap(0x77, 0x57)  // w W
    case 0x12 => Cap(0x65, 0x45)  // e E
    case 0x13 => Cap(0x72, 0x52)  // r R
    case 0x14 => Cap(0x74, 0x54)  // t T
    case 0x15 => Cap(0x79, 0x59)  // y Y
    case 0x16 => Cap(0x75, 0x55)  // u U
    case 0x17 => Cap(0x69, 0x49)  // i I
    case 0x18 => Cap(0x6F, 0x4F)  // o O
    case 0x19 => Cap(0x70, 0x50)  // p P
    case 0x1A => Cap(0x5B, 0x7B)  // [ {
    case 0x1B => Cap(0x5D, 0x7D)  // ] }
    case _ => NoCap
  }

  function HomeRow(code: Byte): KeyCap {
    match code
    case 0x1E => Cap(0x61, 0x41)  // a A
    case 0x1F => Cap(0x73, 0x53)  // s S
    case 0x20 => Cap(0x64, 0x44)  // d D
    case 0x21 => Cap(0x66, 0x46)  // f F
    case 0x22 => Cap(0x67, 0x47)  // g G
    case 0x23 => Cap(0x68, 0x48)  // h H
    case 0x24 => Cap(0x6A, 0x4A)  // j J
    case 0x25 => Cap(0x6B, 0x4B)  // k K
    case 0x26 => Cap(0x6C, 0x4C)  // l L
    case 0x27 => Cap(0x3B, 0x3A)  // ; :
    case 0x28 => Cap(0x27, 0x22)  // ' "
    case 0x29 => Cap(0x60, 0x7E)  // ` ~
    case 0x2B => Cap(0x5C, 0x7C)  // \ |
    case _ => NoCap
  }

  function BottomRow(code: Byte): KeyCap {
    match code
    case 0x2C => Cap(0x7A, 0x5A)  // z Z
    case 0x2D => Cap(0x78, 0x58)  // x X
    case 0x2E => Cap(0x63, 0x43)  // c C
    case 0x2F => Cap(0x76, 0x56)  // v V
    case 0x30 => Cap(0x62, 0x42)  // b B
    case 0x31 => Cap(0x6E, 0x4E)  // n N
    case 0x32 => Cap(0x6D, 0x4D)  // m M
    case 0x33 => Cap(0x2C, 0x3C)  // , <
    case 0x34 => Cap(0x2E, 0x3E)  // . >
    case 0x35 => Cap(0x2F, 0x3F)  // / ?
    case _ => NoCap
  }

  function KeyCapOf(code: Byte): KeyCap {
    if code == 0x0E then Plain(BACKSPACE)
    else if code == 0x1C then Plain(NEWLINE)
    else if code == 0x39 then Plain(SPACE)
    else if code < 0x10 then NumberRow(code)
    else if code < 0x1E then TopRow(code)
    else if code < 0x2C then HomeRow(code)
    else BottomRow(code)
  }

  function AsciiForMakeCode(code: Byte, shift: bool): Option<Byte> {
    match KeyCapOf(code)
    case Plain(b) => Some(b)
    case Cap(lower, upper) => Some(if shift then upper else lower)
    case NoCap => None
  }

  // --------------------------------------------------------------- decoding

  function TranslateFrom(shift: Shift, scancode: Byte): (Shift, Option<Byte>) {
    if scancode == LEFT_SHIFT_MAKE then (shift.(left := true), None)
    else if scancode == LEFT_SHIFT_BREAK then (shift.(left := false), None)
    else if scancode == RIGHT_SHIFT_MAKE then (shift.(right := true), None)
    else if scancode == RIGHT_SHIFT_BREAK then (shift.(right := false), None)
    else if scancode >= 0x80 then (shift, None)
    else (shift, AsciiForMakeCode(scancode, shift.IsActive()))
  }

  /** The shift state after a scancode history. */
  function ShiftAfter(shift: Shift, codes: seq<Byte>): Shift
    decreases codes
  {
    if codes == [] then shift else ShiftAfter(TranslateFrom(shift, codes[0]).0, codes[1..])
  }

  function Emitted(r: Option<Byte>): seq<Byte> {
    match r
    case None => []
    case Some(b) => [b]
  }

  /** The bytes a scancode history decodes to. */
  function Decode(shift: Shift, codes: seq<Byte>): seq<Byte>
    decreases codes
  {
    if codes == [] then []
    else
      var (next, r) := TranslateFrom(shift, codes[0]);
      Emitted(r) + Decode(next, codes[1..])
  }

  lemma {:induction false} DecodeConcat(shift: Shift, a: seq<Byte>, b: seq<Byte>)
    ensures ShiftAfter(shift, a + b) == ShiftAfter(ShiftAfter(shift, a), b)
    ensures Decode(shift, a + b) == Decode(shift, a) + Decode(ShiftAfter(shift, a), b)
    decreases a
  {
    if a == [] {
      assert a + b == b;
    } else {
      assert (a + b)[1..] == a[1..] + b;
      DecodeConcat(TranslateFrom(shift, a[0]).0, a[1..], b);
    }
  }

  // ---------------------------------------------------------- shift tracking

  /** The latest of the events `make` and `brk` in the history is a `make`. */
  ghost predicate HeldIn(codes: seq<Byte>, make: Byte, brk: Byte) {
    exists i :: 0 <= i < |codes| && codes[i] == make && brk !in codes[i..]
  }

  lemma HeldSnoc(codes: seq<Byte>, c: Byte, make: Byte, brk: Byte)
    requires make != brk
    ensures HeldIn(codes + [c], make, brk) <==> c == make || (c != brk && HeldIn(codes, make, brk))
  {
    var h := codes + [c];
    if c == make {
      assert h[|codes|] == make && h[|codes|..] == [c];
    } else if c != brk && HeldIn(codes, make, brk) {
      var i :| 0 <= i < |codes| && codes[i] == make && brk !in codes[i..];
      assert h[i..] == codes[i..] + [c];
      assert h[i] == make && brk !in h[i..];
    }
    if HeldIn(h, make, brk) && c != make {
      var i :| 0 <= i < |h| && h[i] == make && brk !in h[i..];
      assert h[i..] == codes[i..] + [c];
      assert codes[i] == make && brk !in codes[i..];
    }
  }

  /** Each shift key is held exactly when its own latest event was a make, whatever the other key did. */
  lemma {:induction false} ShiftsTrackKeys(codes: seq<Byte>)
    ensures ShiftAfter(Released, codes)
         == Shift(HeldIn(codes, LEFT_SHIFT_MAKE, LEFT_SHIFT_BREAK),
                  HeldIn(codes, RIGHT_SHIFT_MAKE, RIGHT_SHIFT_BREAK))
  {
    if codes != [] {
      var front, c := Front(codes), Last(codes);
      assert codes == front + [c];
      ShiftsTrackKeys(front);
      DecodeConcat(Released, front, [c]);
      var before := ShiftAfter(Released, front);
      assert ShiftAfter(before, [c]) == TranslateFrom(before, c).0;
      HeldSnoc(front, c, LEFT_SHIFT_MAKE, LEFT_SHIFT_BREAK);
      HeldSnoc(front, c, RIGHT_SHIFT_MAKE, RIGHT_SHIFT_BREAK);
    }
  }

  /** Only backspace, newline and printable ASCII ever come out. */
  lemma {:induction false} EmittedBytes(shift: Shift, codes: seq<Byte>)
    ensures forall b :: b in Decode(shift, codes) ==> b == BACKSPACE || b == NEWLINE || Printable(b)
    decreases codes
  {
    if codes != [] {
      EmittedBytes(TranslateFrom(shift, codes[0]).0, codes[1..]);
    }
  }

  // ------------------------------------------------------ from bytes to keys

  /** A key press: a make code, with or without shift. */
  datatype Key = Key(code: Byte, shifted: bool)

  function SymbolKey(b: Byte): Key
    requires 0x20 <= b < 0x30
  {
    match b
    case 0x20 => Key(0x39, false)  // space
    case 0x21 => Key(0x02, true)  // !
    case 0x22 => Key(0x28, true)  // "
    case 0x23 => Key(0x04, true)  // #
    case 0x24 => Key(0x05, true)  // $
    case 0x25 => Key(0x06, true)  // %
    case 0x26 => Key(0x08, true)  // &
    case 0x27 => Key(0x28, false)  // '
    case 0x28 => Key(0x0A, true)  // (
    case 0x29 => Key(0x0B, true)  // )
    case 0x2A => Key(0x09, true)  // *
    case 0x2B => Key(0x0D, true)  // +
    case 0x2C => Key(0x33, false)  // ,
    case 0x2D => Key(0x0C, false)  // -
    case 0x2E => Key(0x34, false)  // .
    case 0x2F => Key(0x35, false)  // /
  }

  function DigitKey(b: Byte): Key
    requires 0x30 <= b < 0x40
  {
    match b
    case 0x30 => Key(0x0B, false)  // 0
    case 0x31 => Key(0x02, false)  // 1
    case 0x32 => Key(0x03, false)  // 2
    case 0x33 => Key(0x04, false)  // 3
    case 0x34 => Key(0x05, false)  // 4
    case 0x35 => Key(0x06, false)  // 5
    case 0x36 => Key(0x07, false)  // 6
    case 0x37 => Key(0x08, false)  // 7
    case 0x38 => Key(0x09, false)  // 8
    case 0x39 => Key(0x0A, false)  // 9
    case 0x3A => Key(0x27, true)  // :
    case 0x3B => Key(0x27, false)  // ;
    case 0x3C => Key(0x33, true)  // <
    case 0x3D => Key(0x0D, false)  // =
    case 0x3E => Key(0x34, true)  // >
    case 0x3F => Key(0x35, true)  // ?
  }

  function CapitalKey(b: Byte): Key
    requires 0x40 <= b < 0x50
  {
    match b
    case 0x40 => Key(0x03, true)  // @
    case 0x41 => Key(0x1E, true)  // A
    case 0x42 => Key(0x30, true)  // B
    case 0x43 => Key(0x2E, true)  // C
    case 0x44 => Key(0x20, true)  // D
    case 0x45 => Key(0x12, true)  // E
    case 0x46 => Key(0x21, true)  // F
    case 0x47 => Key(0x22, true)  // G
    case 0x48 => Key(0x23, true)  // H
    case 0x49 => Key(0x17, true)  // I
    case 0x4A => Key(0x24, true)  // J
    case 0x4B => Key(0x25, true)  // K
    case 0x4C => Key(0x26, true)  // L
    case 0x4D => Key(0x32, true)  // M
    case 0x4E => Key(0x31, true)  // N
    case 0x4F => Key(0x18, true)  // O
  }

  function LateCapitalKey(b: Byte): Key
    requires 0x50 <= b < 0x60
  {
    match b
    case 0x50 => Key(0x19, true)  // P
    case 0x51 => Key(0x10, true)  // Q
    case 0x52 => Key(0x13, true)  // R
    case 0x53 => Key(0x1F, true)  // S
    case 0x54 => Key(0x14, true)  // T
    case 0x55 => Key(0x16, true)  // U
    case 0x56 => Key(0x2F, true)  // V
    case 0x57 => Key(0x11, true)  // W
    case 0x58 => Key(0x2D, true)  // X
    case 0x59 => Key(0x15, true)  // Y
    case 0x5A => Key(0x2C, true)  // Z
    case 0x5B => Key(0x1A, false)  // [
    case 0x5C => Key(0x2B, false)  // \
    case 0x5D => Key(0x1B, false)  // ]
    case 0x5E => Key(0x07, true)  // ^
    case 0x5F => Key(0x0C, true)  // _
  }

  function SmallKey(b: Byte): Key
    requires 0x60 <= b < 0x70
  {
    match b
    case 0x60 => Key(0x29, false)  // `
    case 0x61 => Key(0x1E, false)  // a
    case 0x62 => Key(0x30, false)  // b
    case 0x63 => Key(0x2E, false)  // c
    case 0x64 => Key(0x20, false)  // d
    case 0x65 => Key(0x12, false)  // e
    case 0x66 => Key(0x21, false)  // f
    case 0x67 => Key(0x22, false)  // g
    case 0x68 => Key(0x23, false)  // h
    case 0x69 => Key(0x17, false)  // i
    case 0x6A => Key(0x24, false)  // j
    case 0x6B => Key(0x25, false)  // k
    case 0x6C => Key(0x26, false)  // l
    case 0x6D => Key(0x32, false)  // m
    case 0x6E => Key(0x31, false)  // n
    case 0x6F => Key(0x18, false)  // o
  }

  function LateSmallKey(b: Byte): Key
    requires 0x70 <= b < 0x7F
  {
    match b
    case 0x70 => Key(0x19, false)  // p
    case 0x71 => Key(0x10, false)  // q
    case 0x72 => Key(0x13, false)  // r
    case 0x73 => Key(0x1F, false)  // s
    case 0x74 => Key(0x14, false)  // t
    case 0x75 => Key(0x16, false)  // u
    case 0x76 => Key(0x2F, false)  // v
    case 0x77 => Key(0x11, false)  // w
    case 0x78 => Key(0x2D, false)  // x
    case 0x79 => Key(0x15, false)  // y
    case 0x7A => Key(0x2C, false)  // z
    case 0x7B => Key(0x1A, true)  // {
    case 0x7C => Key(0x2B, true)  // |
    case 0x7D => Key(0x1B, true)  // }
    case 0x7E => Key(0x29, true)  // ~
  }

  /** The key press that gives a printable byte. */
  function KeyFor(b: Byte): Key
    requires Printable(b)
  {
    if b < 0x30 then SymbolKey(b)
    else if b < 0x40 then DigitKey(b)
    else if b < 0x50 then CapitalKey(b)
    else if b < 0x60 then LateCapitalKey(b)
    else if b < 0x70 then SmallKey(b)
    else LateSmallKey(b)
  }

  ghost predicate HasKey(b: Byte)
    requires Printable(b)
  {
    var key := KeyFor(b);
    && AsciiForMakeCode(key.code, key.shifted) == Some(b)
    && key.code < 0x80 && key.code != LEFT_SHIFT_MAKE && key.code != RIGHT_SHIFT_MAKE
  }

  lemma SymbolKeyWorks(b: Byte)
    requires 0x20 <= b < 0x30
    ensures HasKey(b)
  {
  }

  lemma DigitKeyWorks(b: Byte)
    requires 0x30 <= b < 0x40
    ensures HasKey(b)
  {
  }

  lemma CapitalKeyWorks(b: Byte)
    requires 0x40 <= b < 0x50
    ensures HasKey(b)
  {
  }

  lemma LateCapitalKeyWorks(b: Byte)
    requires 0x50 <= b < 0x60
    ensures HasKey(b)
  {
  }

  lemma SmallKeyWorks(b: Byte)
    requires 0x60 <= b < 0x70
    ensures HasKey(b)
  {
  }

  lemma LateSmallKeyWorks(b: Byte)
    requires 0x70 <= b < 0x7F
    ensures HasKey(b)
  {
  }

  /** The table reaches all 95 printable bytes. */
  lemma EveryPrintableHasAKey(b: Byte)
    requires Printable(b)
    ensures HasKey(b)
  {
    if b < 0x30 {
      SymbolKeyWorks(b);
    } else if b < 0x40 {
      DigitKeyWorks(b);
    } else if b < 0x50 {
      CapitalKeyWorks(b);
    } else if b < 0x60 {
      LateCapitalKeyWorks(b);
    } else if b < 0x70 {
      SmallKeyWorks(b);
    } else {
      LateSmallKeyWorks(b);
    }
  }

  ghost predicate KeyIsDetermined(code: Byte, shift: bool)
    requires KeyCapOf(code).Cap?
  {
    var b := AsciiForMakeCode(code, shift).value;
    Printable(b) && b != SPACE && KeyFor(b) == Key(code, shift)
  }

  lemma NumberRowInjective(code: Byte, shift: bool)
    requires code < 0x10 && KeyCapOf(code).Cap?
    ensures KeyIsDetermined(code, shift)
  {
  }

  lemma TopRowInjective(code: Byte, shift: bool)
    requires 0x10 <= code < 0x1E && KeyCapOf(code).Cap?
    ensures KeyIsDetermined(code, shift)
  {
  }

  lemma HomeRowInjective(code: Byte, shift: bool)
    requires 0x1E <= code < 0x2C && KeyCapOf(code).Cap?
    ensures KeyIsDetermined(code, shift)
  {
  }

  lemma BottomRowInjective(code: Byte, shift: bool)
    requires 0x2C <= code && KeyCapOf(code).Cap?
    ensures KeyIsDetermined(code, shift)
  {
  }

  /** Off the three shift-independent keys, `KeyFor` takes a byte back to the key and shift that gave it. */
  lemma KeyIsRecovered(code: Byte, shift: bool)
    requires KeyCapOf(code).Cap?
    ensures KeyIsDetermined(code, shift)
  {
    if code < 0x10 {
      NumberRowInjective(code, shift);
    } else if code < 0x1E {
      TopRowInjective(code, shift);
    } else if code < 0x2C {
      HomeRowInjective(code, shift);
    } else {
      BottomRowInjective(code, shift);
    }
  }

  /** Two key presses that give the same byte are the same press, unless shift does not matter to the key. */
  lemma KeysAreInjective(c1: Byte, s1: bool, c2: Byte, s2: bool)
    requires AsciiForMakeCode(c1, s1).Some?
    requires AsciiForMakeCode(c1, s1) == AsciiForMakeCode(c2, s2)
    ensures c1 == c2
    ensures s1 == s2 || KeyCapOf(c1).Plain?
  {
    if KeyCapOf(c1).Cap? {
      KeyIsRecovered(c1, s1);
    }
    if KeyCapOf(c2).Cap? {
      KeyIsRecovered(c2, s2);
    }
  }

  // ------------------------------------------------------ what a key press gives

  /** The caps of the two upper rows, read from left to right, without and with shift. */
  lemma UpperRowsSpelt(i: nat)
    requires i < 12
    ensures KeyCapOf(0x02 + i) == Cap("1234567890-="[i] as int, "!@#$%^&*()_+"[i] as int)
    ensures KeyCapOf(0x10 + i) == Cap("qwertyuiop[]"[i] as int, "QWERTYUIOP{}"[i] as int)
  {
  }

  /** The caps of the two lower rows; the lowest has one key less. */
  lemma LowerRowsSpelt(i: nat)
    requires i < 12
    ensures KeyCapOf(0x1E + i) == Cap("asdfghjkl;'`"[i] as int, "ASDFGHJKL:\"~"[i] as int)
    ensures i < 11 ==> KeyCapOf(0x2B + i) == Cap("\\zxcvbnm,./"[i] as int, "|ZXCVBNM<>?"[i] as int)
  {
  }

  /** The keys that shift does not change, and the codes that stand for no byte. */
  lemma OtherKeys(code: Byte)
    ensures KeyCapOf(0x0E) == Plain(0x08) && KeyCapOf(0x1C) == Plain(0x0A) && KeyCapOf(0x39) == Plain(0x20)
    ensures code < 0x02 || code == 0x0F || code == 0x1D || code == 0x2A || (code >= 0x36 && code != 0x39) ==>
              KeyCapOf(code) == NoCap
  {
  }

  /** The left or the right shift is held: the latest event of one of them was a make. */
  ghost predicate AnyShiftHeld(history: seq<Byte>) {
    HeldIn(history, 0x2A, 0xAA) || HeldIn(history, 0x36, 0xB6)
  }

  /** The byte a scancode gives after a history, said with the key caps and the history alone. */
  ghost function Gives(history: seq<Byte>, code: Byte): Option<Byte> {
    if code >= 0x80 then None
    else
      match KeyCapOf(code)
      case Plain(b) => Some(b)
      case Cap(lower, upper) => Some(if AnyShiftHeld(history) then upper else lower)
      case NoCap => None
  }

  lemma ShiftKeysHaveNoCap()
    ensures KeyCapOf(0x2A) == NoCap && KeyCapOf(0x36) == NoCap
  {
    OtherKeys(0x2A);
    OtherKeys(0x36);
  }

  /**
   After any scancode history, a key with two caps gives its upper byte if and only if the
   latest event of the left or of the right shift was a make; break codes and codes
   without a cap give nothing.
   */
  lemma KeyGives(history: seq<Byte>, code: Byte)
    ensures TranslateFrom(ShiftAfter(Released, history), code).1 == Gives(history, code)
  {
    ShiftsTrackKeys(history);
    ShiftKeysHaveNoCap();
  }

  /** The history shifts a byte as its key needs it; space does not care. */
  ghost predicate ShiftFits(history: seq<Byte>, b: Byte)
    requires Printable(b)
  {
    b == SPACE || (KeyFor(b).shifted <==> AnyShiftHeld(history))
  }

  /** Exactly one key gives a printable byte, and only with the shift state it needs. */
  lemma PrintableComesFromItsKey(history: seq<Byte>, code: Byte, b: Byte)
    requires Printable(b)
    ensures TranslateFrom(ShiftAfter(Released, history), code).1 == Some(b)
        <==> code == KeyFor(b).code && ShiftFits(history, b)
  {
    KeyGives(history, code);
    EveryPrintableHasAKey(b);
    if KeyCapOf(code).Cap? {
      KeyIsRecovered(code, true);
      KeyIsRecovered(code, false);
    }
    if code == KeyFor(b).code && b != SPACE {
      CapsDiffer(code, b);
    }
  }

  lemma CapsDiffer(code: Byte, b: Byte)
    requires Printable(b) && b != SPACE && code == KeyFor(b).code
    ensures code < 0x80 && KeyCapOf(code).Cap?
    ensures b == if KeyFor(b).shifted then KeyCapOf(code).upper else KeyCapOf(code).lower
  {
    EveryPrintableHasAKey(b);
    assert KeyCapOf(code).Plain? ==> code == 0x0E || code == 0x1C || code == 0x39;
  }

  // ------------------------------------------------------- typing round trip

  /** Which shift key is pressed for a stroke. */
  datatype Side = Left | Right

  function Make(side: Side): Byte {
    if side == Left then LEFT_SHIFT_MAKE else RIGHT_SHIFT_MAKE
  }

  function Break(side: Side): Byte {
    if side == Left then LEFT_SHIFT_BREAK else RIGHT_SHIFT_BREAK
  }

  /** The scancodes of typing one printable byte, the chosen shift held around a shifted key. */
  function Press(b: Byte, side: Side): seq<Byte>
    requires Printable(b)
  {
    var key := KeyFor(b);
    var stroke := [key.code, key.code + 0x80];
    if key.shifted then [Make(side)] + stroke + [Break(side)] else stroke
  }

  /** The scancodes of typing a text, with a choice of shift key for every byte. */
  function Keystrokes(text: seq<Byte>, sides: seq<Side>): seq<Byte>
    requires AllPrintable(text) && |sides| == |text|
  {
    if text == [] then [] else Press(text[0], sides[0]) + Keystrokes(text[1..], sides[1..])
  }

  /** A key and its release, under any shift state that fits the key. */
  lemma StrokeDecodes(shift: Shift, b: Byte)
    requires Printable(b) && shift.IsActive() == KeyFor(b).shifted
    ensures var stroke := [KeyFor(b).code, KeyFor(b).code + 0x80];
            Decode(shift, stroke) == [b] && ShiftAfter(shift, stroke) == shift
  {
    EveryPrintableHasAKey(b);
    var code := KeyFor(b).code;
    var stroke := [code, code + 0x80];
    assert TranslateFrom(shift, code) == (shift, Some(b));
    assert TranslateFrom(shift, code + 0x80) == (shift, None);
    assert stroke[1..] == [code + 0x80] && stroke[1..][1..] == [];
    assert ShiftAfter(shift, stroke[1..]) == shift && Decode(shift, stroke[1..]) == [];
  }

  lemma OneCode(shift: Shift, code: Byte)
    ensures Decode(shift, [code]) == Emitted(TranslateFrom(shift, code).1)
    ensures ShiftAfter(shift, [code]) == TranslateFrom(shift, code).0
  {
    assert [code][1..] == [];
    assert Decode(TranslateFrom(shift, code).0, []) == [];
  }

  lemma PressDecodes(b: Byte, side: Side)
    requires Printable(b)
    ensures Decode(Released, Press(b, side)) == [b]
    ensures ShiftAfter(Released, Press(b, side)) == Released
  {
    if KeyFor(b).shifted {
      hide KeyFor, Decode, ShiftAfter;
      EveryPrintableHasAKey(b);
      var held := if side == Left then Shift(true, false) else Shift(false, true);
      var stroke := [KeyFor(b).code, KeyFor(b).code + 0x80];
      StrokeDecodes(held, b);
      OneCode(Released, Make(side));
      OneCode(held, Break(side));
      DecodeConcat(Released, [Make(side)], stroke);
      DecodeConcat(Released, [Make(side)] + stroke, [Break(side)]);
    } else {
      StrokeDecodes(Released, b);
    }
  }

  /**
   Every printable text can be typed, with either shift key for every byte: its keystrokes
   decode to it and leave both shifts released.
   */
  lemma {:induction false} TypingRoundTrip(text: seq<Byte>, sides: seq<Side>)
    requires AllPrintable(text) && |sides| == |text|
    ensures Decode(Released, Keystrokes(text, sides)) == text
    ensures ShiftAfter(Released, Keystrokes(text, sides)) == Released
  {
    if text != [] {
      PressDecodes(text[0], sides[0]);
      TypingRoundTrip(text[1..], sides[1..]);
      DecodeConcat(Released, Press(text[0], sides[0]), Keystrokes(text[1..], sides[1..]));
    }
  }

  // ------------------------------------------------------------ the SHIFT static

  class Decoder {
    var leftHeld: bool
    var rightHeld: bool

    function State(): Shift
      reads this
    {
      Shift(leftHeld, rightHeld)
    }

    constructor ()
      ensures State() == Released
    {
      leftHeld, rightHeld := false, false;
    }

    method Translate(scancode: Byte) returns (byte: Option<Byte>)
      modifies this
      ensures (State(), byte) == TranslateFrom(old(State()), scancode)
    {
      byte := None;
      if scancode == LEFT_SHIFT_MAKE {
        leftHeld := true;
      } else if scancode == LEFT_SHIFT_BREAK {
        leftHeld := false;
      } else if scancode == RIGHT_SHIFT_MAKE {
        rightHeld := true;
      } else if scancode == RIGHT_SHIFT_BREAK {
        rightHeld := false;
      } else if scancode < 0x80 {
        byte := AsciiForMakeCode(scancode, leftHeld || rightHeld);
      }
    }
  }
}
