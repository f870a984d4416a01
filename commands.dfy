/**
 Keyboard shortcuts as 32-bit key codes (the FLTK convention): modifier keys are
 single bits above the low 16 bits and are combined by bitwise OR; a printable or
 whitespace ASCII key is its character code. The source's `i32` is modelled as
 `bv32`, which has the same bit pattern under `|`.
 */
module Commands {
  import Wrappers

  /** Modifier keys; `Code` gives each one's `#[repr(i32)]` discriminant. */
  datatype KeyModifier = None | Shift | CapsLock | Ctrl | Alt

  /** A key code: modifier bits, or the code of a character key. */
  datatype Keystroke = Keystroke(code: bv32)

  /** The discriminant of a modifier: zero for `None`, otherwise one bit of 0x000F_0000. */
  function Code(m: KeyModifier): (r: bv32)
    ensures m == None <==> r == 0
    ensures r & (r - 1) == 0
    ensures r & 0xFFF0_FFFF == 0
  {
    match m
    case None => 0
    case Shift => 0x0001_0000
    case CapsLock => 0x0002_0000
    case Ctrl => 0x0004_0000
    case Alt => 0x0008_0000
  }

  /** Every bit set in `bits` is also set in `k`. */
  predicate HasBits(k: bv32, bits: bv32) {
    k & bits == bits
  }

  /** The distinct modifiers occupy disjoint bits, so no combination loses one. */
  lemma ModifierBitsDisjoint(a: KeyModifier, b: KeyModifier)
    requires a != b
    ensures Code(a) & Code(b) == 0
  {
  }

  /** `KeyModifier + KeyModifier`: a key code holding the bits of both modifiers and no others. */
  function CombineModifiers(a: KeyModifier, b: KeyModifier): (k: Keystroke)
    ensures HasBits(k.code, Code(a)) && HasBits(k.code, Code(b))
    ensures k.code & !Code(a) & !Code(b) == 0
  {
    Keystroke(Code(a) | Code(b))
  }

  /** Combining modifiers does not depend on their order, and a modifier added to itself is itself. */
  lemma CombineModifiersCommutesAndAbsorbs(a: KeyModifier, b: KeyModifier)
    ensures CombineModifiers(a, b) == CombineModifiers(b, a)
    ensures CombineModifiers(a, a) == Keystroke(Code(a))
  {
  }

  /** `Keystroke + KeyModifier`: the key code with the modifier's bit set and nothing else changed. */
  function AddModifier(k: Keystroke, m: KeyModifier): (r: Keystroke)
    ensures HasBits(r.code, k.code) && HasBits(r.code, Code(m))
    ensures r.code & !k.code & !Code(m) == 0
  {
    Keystroke(k.code | Code(m))
  }

  /** Adding a modifier twice is the same as adding it once; adding `None` changes nothing. */
  lemma AddModifierIdempotent(k: Keystroke, m: KeyModifier)
    ensures AddModifier(AddModifier(k, m), m) == AddModifier(k, m)
    ensures AddModifier(k, None) == k
  {
  }

  /** `char::is_ascii_graphic`: `!` through `~`. */
  predicate IsAsciiGraphic(c: char) {
    '!' <= c <= '~'
  }

  /** `char::is_ascii_whitespace`: space, tab, line feed, form feed, carriage return (not vertical tab). */
  predicate IsAsciiWhitespace(c: char) {
    c == ' ' || c == '\t' || c == '\n' || c as int == 0x0C || c == '\r'
  }

  /** The characters a key code can name: ASCII, and graphic or whitespace. */
  predicate IsKeyChar(c: char) {
    c as int < 0x80 && (IsAsciiGraphic(c) || IsAsciiWhitespace(c))
  }

  /** The byte of value `n`, counted up from zero so that its value follows by induction. */
  function ByteOf(n: nat): (b: bv8)
    requires n < 0x100
    ensures b as int == n
  {
    if n == 0 then 0 else ByteOf(n - 1) + 1
  }

  /** Widening a byte to 32 bits keeps its value. */
  lemma WidenedByteValue(b: bv8)
    ensures (b as bv32) as int == b as int
  {
  }

  /** The single byte `encode_utf8` writes for an ASCII character. */
  function Utf8Byte(c: char): (b: bv8)
    requires c as int < 0x80
    ensures b as int == c as int
    ensures (b as bv32) as int == c as int
  {
    var b := ByteOf(c as int);
    WidenedByteValue(b);
    b
  }

  /** `KeyModifier::None as i32 + i32::from(buff[0])`: the key code of an ASCII character. */
  function AsciiCode(c: char): (r: bv32)
    requires c as int < 0x80
    ensures r < 0x80
    ensures r as int == c as int
  {
    var b := Utf8Byte(c);
    Code(None) + b as bv32
  }

  /** `KeyModifier + char`: the character's code for a key character, otherwise the modifier's code. */
  function AddChar(m: KeyModifier, c: char): (k: Keystroke)
    ensures IsKeyChar(c) ==> k.code as int == c as int
    ensures !IsKeyChar(c) ==> k.code == Code(m)
  {
    if IsKeyChar(c) then
      Keystroke(AsciiCode(c))
    else
      Keystroke(Code(m))
  }

  /** `Keystroke + char`: the character's code for a key character (dropping `k`), otherwise `k`. */
  function AddCharToKeystroke(k: Keystroke, c: char): (r: Keystroke)
    ensures IsKeyChar(c) ==> r.code as int == c as int
    ensures !IsKeyChar(c) ==> r == k
  {
    if IsKeyChar(c) then
      Keystroke(AsciiCode(c))
    else
      k
  }

  /** `Keystroke::from_char`: the character's code for a key character, otherwise 0. */
  function FromChar(c: char): (k: Keystroke)
    ensures IsKeyChar(c) ==> k.code as int == c as int
    ensures !IsKeyChar(c) ==> k.code == 0
  {
    AddChar(None, c)
  }

  /** The character a key code names, if it names one: the inverse of `FromChar`. */
  function KeyChar(k: Keystroke): (r: Wrappers.Option<char>)
    ensures r.Some? ==> IsKeyChar(r.value) && k.code as int == r.value as int
  {
    if k.code < 0x80 && IsKeyChar(k.code as int as char) then Wrappers.Some(k.code as int as char)
    else Wrappers.None
  }

  /** `FromChar` loses nothing on key characters: decoding its code gives the character back. */
  lemma FromCharRoundTrip(c: char)
    ensures IsKeyChar(c) ==> KeyChar(FromChar(c)) == Wrappers.Some(c)
    ensures !IsKeyChar(c) ==> KeyChar(FromChar(c)) == Wrappers.None
  {
  }

  /** No combination of modifiers ever decodes as a character key. */
  lemma ModifiersAreNotKeyChars(a: KeyModifier, b: KeyModifier)
    ensures KeyChar(CombineModifiers(a, b)) == Wrappers.None
  {
  }

  /** With a key character, the modifier on the left of `+` makes no difference. */
  lemma AddCharIgnoresModifier(m: KeyModifier, c: char)
    requires IsKeyChar(c)
    ensures AddChar(m, c) == FromChar(c)
  {
  }

  /**
   Adding a key character to a keystroke drops every modifier accumulated so far:
   `(k + m) + c` is `from_char(c)` whatever `k` and `m` were.
   */
  lemma AddCharDiscardsModifiers(k: Keystroke, m: KeyModifier, c: char)
    requires IsKeyChar(c)
    ensures AddCharToKeystroke(AddModifier(k, m), c) == FromChar(c)
    ensures KeyChar(AddCharToKeystroke(AddModifier(k, m), c)) == Wrappers.Some(c)
  {
  }
}
