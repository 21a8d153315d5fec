/**
 * Key decoding of the picker's terminal layer: SGR mouse reports, the escape
 * sequence table of the Unix reader, Windows console input records and the
 * msvcrt fallback (vscode-projects.py:630-910). The reads themselves are not
 * modelled; each decoder receives what was read.
 */
module KeyDecode {
  import opened Common

  /** The tokens `read_key` returns: named keys, one typed character, or a click. */
  datatype Key =
    | Up | Down | Left | Right | PageUp | PageDown | Home | End | Delete
    | Escape | Enter | Tab | Backspace | CtrlC | CtrlD
    | Char(c: char)
    | MouseClick(x: int, y: int)

  // ---------------------------------------------------------------------------
  // str.split and int() for the mouse report fields
  // ---------------------------------------------------------------------------

  /** Python's `s.split(sep)` for a one-character separator. */
  function Split(s: string, sep: char): (parts: seq<string>)
    ensures |parts| >= 1
    ensures forall i :: 0 <= i < |parts| ==> sep !in parts[i]
    ensures Join(parts, sep) == s
    decreases |s|
  {
    if sep !in s then [s]
    else
      var i := IndexOf(s, sep);
      var rest := Split(s[i + 1..], sep);
      assert s[..i] + [sep] + s[i + 1..] == s;
      [s[..i]] + rest
  }

  /** Python's `sep.join(parts)`, the inverse of Split. */
  function Join(parts: seq<string>, sep: char): string
    requires |parts| >= 1
  {
    if |parts| == 1 then parts[0] else parts[0] + [sep] + Join(parts[1..], sep)
  }

  /** Splitting a join of separator-free parts gives the parts back. */
  lemma {:induction false} SplitJoin(parts: seq<string>, sep: char)
    requires |parts| >= 1
    requires forall i :: 0 <= i < |parts| ==> sep !in parts[i]
    ensures Split(Join(parts, sep), sep) == parts
  {
    if |parts| > 1 {
      SplitHead(parts[0], sep, Join(parts[1..], sep));
      SplitJoin(parts[1..], sep);
      assert parts == [parts[0]] + parts[1..];
    }
  }

  /** A separator-free first part followed by the separator splits off as the first part. */
  lemma SplitHead(p: string, sep: char, rest: string)
    requires sep !in p
    ensures Split(p + [sep] + rest, sep) == [p] + Split(rest, sep)
  {
    var s := p + [sep] + rest;
    assert s[|p|] == sep;
    assert forall j :: 0 <= j < |p| ==> s[j] == p[j];
    var i := IndexOf(s, sep);
    assert i == |p|;
    assert s[..i] == p;
    assert s[i + 1..] == rest;
  }

  predicate IsDigit(c: char)
  {
    '0' <= c <= '9'
  }

  predicate AllDigits(s: string)
  {
    forall i :: 0 <= i < |s| ==> IsDigit(s[i])
  }

  /** The value of a string of decimal digits. */
  function DigitsValue(s: string): nat
    requires AllDigits(s)
  {
    if s == [] then 0
    else DigitsValue(s[..|s| - 1]) * 10 + (s[|s| - 1] as int - '0' as int)
  }

  /** `int(s)` on a decimal numeral; None where Python would raise ValueError. */
  function ParseNat(s: string): (r: Option<nat>)
    ensures r.Some? <==> s != [] && AllDigits(s)
  {
    if s != [] && AllDigits(s) then Some(DigitsValue(s)) else None
  }

  /** The decimal numeral of `n`, as `str(n)` writes it. */
  function NatToString(n: nat): (s: string)
    ensures s != [] && AllDigits(s)
  {
    var d := [('0' as int + n % 10) as char];
    if n < 10 then d else NatToString(n / 10) + d
  }

  lemma {:induction false} ParseNatToString(n: nat)
    ensures ParseNat(NatToString(n)) == Some(n)
  {
    var d := [('0' as int + n % 10) as char];
    var s := NatToString(n);
    if n < 10 {
      assert s[..|s| - 1] == [];
      assert DigitsValue(s) == s[0] as int - '0' as int;
    } else {
      ParseNatToString(n / 10);
      assert s[..|s| - 1] == NatToString(n / 10);
    }
  }

  // ---------------------------------------------------------------------------
  // SGR mouse reports (xterm mouse mode 1006): "<Btn;X;YM" or "...m"
  // ---------------------------------------------------------------------------

  /**
   * _parse_mouse_sgr, given the report after "ESC [ <": up to the first 'M'
   * (a press) or, failing that, the first 'm' (a release), three numbers.
   */
  function ParseMouseSgr(report: string): Option<Key>
  {
    if 'M' in report || 'm' in report then
      var press := 'M' in report;
      var endIdx := if press then IndexOf(report, 'M') else IndexOf(report, 'm');
      MouseFields(Split(report[..endIdx], ';'), press)
    else None
  }

  /** The fields before the terminator: three numerals, read as button, column and row. */
  function MouseFields(parts: seq<string>, press: bool): Option<Key>
  {
    if |parts| != 3 then None
    else
      match (ParseNat(parts[0]), ParseNat(parts[1]), ParseNat(parts[2]))
      case (Some(btn), Some(x), Some(y)) =>
        if btn == 0 && press then Some(MouseClick(x, y))
        else if btn == 64 then Some(Up)
        else if btn == 65 then Some(Down)
        else None
      case _ => None
  }

  /** The report a terminal sends for button `btn` at column x, row y (1-based). */
  function SgrReport(btn: nat, x: nat, y: nat, press: bool): string
  {
    NatToString(btn) + ";" + NatToString(x) + ";" + NatToString(y) + (if press then "M" else "m")
  }

  /** What the picker makes of each report: left press clicks, buttons 64/65 scroll. */
  function MouseMeaning(btn: nat, x: nat, y: nat, press: bool): Option<Key>
  {
    if btn == 0 && press then Some(MouseClick(x, y))
    else if btn == 64 then Some(Up)
    else if btn == 65 then Some(Down)
    else None
  }

  /** Every well-formed report decodes to its meaning (both terminators, every button). */
  lemma ParseMouseSgrReport(btn: nat, x: nat, y: nat, press: bool)
    ensures ParseMouseSgr(SgrReport(btn, x, y, press)) == MouseMeaning(btn, x, y, press)
  {
    var a, b, c := NatToString(btn), NatToString(x), NatToString(y);
    var body := a + ";" + b + ";" + c;
    var term := if press then 'M' else 'm';
    assert SgrReport(btn, x, y, press) == body + [term];
    FieldsSplit(a, b, c);
    ParseTerminated(body, term);
    NumeralFields(btn, x, y, press);
  }

  /** A report whose body holds no terminator decodes by the fields of the body. */
  lemma ParseTerminated(body: string, term: char)
    requires term == 'M' || term == 'm'
    requires 'M' !in body && 'm' !in body
    ensures ParseMouseSgr(body + [term]) == MouseFields(Split(body, ';'), term == 'M')
  {
    Terminated(body, term);
  }

  /** Three numerals as fields mean what the report means. */
  lemma NumeralFields(btn: nat, x: nat, y: nat, press: bool)
    ensures MouseFields([NatToString(btn), NatToString(x), NatToString(y)], press) == MouseMeaning(btn, x, y, press)
  {
    ParseNatToString(btn);
    ParseNatToString(x);
    ParseNatToString(y);
  }

  /** Three numerals joined by ';' split back into the three, and hold no 'M' or 'm'. */
  lemma FieldsSplit(a: string, b: string, c: string)
    requires AllDigits(a) && AllDigits(b) && AllDigits(c)
    ensures Split(a + ";" + b + ";" + c, ';') == [a, b, c]
    ensures 'M' !in a + ";" + b + ";" + c && 'm' !in a + ";" + b + ";" + c
  {
    JoinThree(a, b, c);
    SplitJoin([a, b, c], ';');
    DigitsOrSemisAppend(a, ";");
    DigitsOrSemisAppend(a + ";", b);
    DigitsOrSemisAppend(a + ";" + b, ";");
    DigitsOrSemisAppend(a + ";" + b + ";", c);
  }

  lemma JoinThree(a: string, b: string, c: string)
    ensures Join([a, b, c], ';') == a + ";" + b + ";" + c
  {
    assert [a, b, c][1..] == [b, c] && [b, c][1..] == [c];
    assert Join([b, c], ';') == b + [';'] + c;
    assert Join([a, b, c], ';') == a + [';'] + (b + [';'] + c);
  }

  /** Text made of digits and ';' only, which holds in particular no mouse terminator. */
  predicate DigitsOrSemis(s: string)
  {
    forall i :: 0 <= i < |s| ==> s[i] == ';' || IsDigit(s[i])
  }

  lemma DigitsOrSemisAppend(x: string, y: string)
    requires DigitsOrSemis(x) || AllDigits(x)
    requires DigitsOrSemis(y) || AllDigits(y)
    ensures DigitsOrSemis(x + y) && 'M' !in x + y && 'm' !in x + y
  {
    assert forall i :: 0 <= i < |x| ==> (x + y)[i] == x[i];
    assert forall i :: |x| <= i < |x + y| ==> (x + y)[i] == y[i - |x|];
  }

  /** A terminator after text that holds none: the first one is the last character. */
  lemma Terminated(body: string, term: char)
    requires term == 'M' || term == 'm'
    requires 'M' !in body && 'm' !in body
    ensures 'M' in body + [term] <==> term == 'M'
    ensures IndexOf(body + [term], term) == |body|
    ensures (body + [term])[..|body|] == body
  {
    var report := body + [term];
    assert report[|body|] == term;
    assert forall i :: 0 <= i < |body| ==> report[i] == body[i];
  }

  /** The release of the left button is not a click. */
  lemma MouseReleaseIgnored(x: nat, y: nat)
    ensures ParseMouseSgr(SgrReport(0, x, y, false)) == None
  {
    ParseMouseSgrReport(0, x, y, false);
  }

  /** A report without terminator, or with other than three fields, decodes to nothing. */
  lemma MouseMalformed(report: string)
    requires ('M' !in report && 'm' !in report) ||
             |Split(report[..IndexOf(report, if 'M' in report then 'M' else 'm')], ';')| != 3
    ensures ParseMouseSgr(report) == None
  {
  }

  // ---------------------------------------------------------------------------
  // Unix: one character read, then what a non-blocking read returned after ESC
  // ---------------------------------------------------------------------------

  /** The keys a plain control character stands for, on both Unix and msvcrt input. */
  function ControlKey(ch: char): Key
  {
    if ch == '\r' || ch == '\n' then Enter
    else if ch == '\t' then Tab
    else if ch == '\U{7F}' || ch == '\U{08}' then Backspace
    else if ch == '\U{03}' then CtrlC
    else if ch == '\U{04}' then CtrlD
    else Char(ch)
  }

  /** The CSI part of _read_key_unix, for the text after "ESC [". */
  function DecodeCsi(sequence: string): Option<Key>
  {
    if StartsWith(sequence, "<") then ParseMouseSgr(sequence[1..])
    else if StartsWith(sequence, "A") then Some(Up)
    else if StartsWith(sequence, "B") then Some(Down)
    else if StartsWith(sequence, "C") then Some(Right)
    else if StartsWith(sequence, "D") then Some(Left)
    else if StartsWith(sequence, "H") then Some(Home)
    else if StartsWith(sequence, "F") then Some(End)
    else if StartsWith(sequence, "5~") then Some(PageUp)
    else if StartsWith(sequence, "6~") then Some(PageDown)
    else if StartsWith(sequence, "1~") || StartsWith(sequence, "7~") then Some(Home)
    else if StartsWith(sequence, "4~") || StartsWith(sequence, "8~") then Some(End)
    else if 'A' in sequence then Some(Up)
    else if 'B' in sequence then Some(Down)
    else if 'C' in sequence then Some(Right)
    else if 'D' in sequence then Some(Left)
    else None
  }

  /** The SS3 part, for the one character after "ESC O" ('' when there is none). */
  function DecodeSs3(final: string): Option<Key>
  {
    if final == "A" then Some(Up)
    else if final == "B" then Some(Down)
    else if final == "C" then Some(Right)
    else if final == "D" then Some(Left)
    else if final == "H" then Some(Home)
    else if final == "F" then Some(End)
    else None
  }

  /**
   * _read_key_unix: `ch` is the character read first; `following` is what the
   * non-blocking read of up to 64 characters returned after an ESC ("" for none).
   */
  function DecodeUnix(ch: char, following: string): Option<Key>
  {
    if ch == ESC then
      if following == [] then Some(Escape)
      else if following[0] == '[' then DecodeCsi(following[1..])
      else if following[0] == 'O' then DecodeSs3(if |following| > 1 then following[1..2] else "")
      else None
    else Some(ControlKey(ch))
  }

  /** The final letters of the cursor and Home/End keys, in CSI and SS3 form. */
  function CursorKey(final: char): Option<Key>
  {
    match final
    case 'A' => Some(Up)
    case 'B' => Some(Down)
    case 'C' => Some(Right)
    case 'D' => Some(Left)
    case 'H' => Some(Home)
    case 'F' => Some(End)
    case _ => None
  }

  /** ESC alone is the Escape key. */
  lemma UnixLoneEscape()
    ensures DecodeUnix(ESC, "") == Some(Escape)
  {
  }

  /** "ESC [ A" .. "ESC [ F", whatever the read returned after them. */
  lemma UnixCsiCursor(final: char, rest: string)
    requires CursorKey(final).Some?
    ensures DecodeUnix(ESC, ['[', final] + rest) == CursorKey(final)
  {
    var sequence := [final] + rest;
    assert (['[', final] + rest)[1..] == sequence;
    assert sequence[0] == final;
    assert !StartsWith(sequence, "<") && !StartsWith(sequence, "5~") && !StartsWith(sequence, "6~");
    assert !StartsWith(sequence, "1~") && !StartsWith(sequence, "7~");
    assert !StartsWith(sequence, "4~") && !StartsWith(sequence, "8~");
  }

  /** "ESC O A" .. "ESC O F": only the character after 'O' is looked at. */
  lemma UnixSs3Cursor(final: char, rest: string)
    requires CursorKey(final).Some?
    ensures DecodeUnix(ESC, ['O', final] + rest) == CursorKey(final)
  {
    var following := ['O', final] + rest;
    assert following[1..2] == [final];
  }

  /** The VT "n ~" keys: 5 and 6 page, 1 and 7 are Home, 4 and 8 are End. */
  function TildeKey(code: char): Option<Key>
  {
    match code
    case '5' => Some(PageUp)
    case '6' => Some(PageDown)
    case '1' => Some(Home)
    case '7' => Some(Home)
    case '4' => Some(End)
    case '8' => Some(End)
    case _ => None
  }

  lemma UnixTilde(code: char, rest: string)
    requires TildeKey(code).Some?
    ensures DecodeUnix(ESC, ['[', code, '~'] + rest) == TildeKey(code)
  {
    var sequence := [code, '~'] + rest;
    assert (['[', code, '~'] + rest)[1..] == sequence;
    assert sequence[0] == code && sequence[1] == '~';
    assert !StartsWith(sequence, "<") && !StartsWith(sequence, "A") && !StartsWith(sequence, "B");
    assert !StartsWith(sequence, "C") && !StartsWith(sequence, "D");
    assert !StartsWith(sequence, "H") && !StartsWith(sequence, "F");
  }

  /**
   * Delete ("ESC [ 3 ~"), Insert ("ESC [ 2 ~") and the other unlisted "ESC [ d ~"
   * codes are not among the keys the Unix reader knows.
   */
  lemma UnixTildeUnrecognised(d: char)
    requires d == '0' || d == '2' || d == '3' || d == '9'
    ensures DecodeUnix(ESC, ['[', d, '~']) == None
  {
    var sequence := [d, '~'];
    assert ['[', d, '~'][1..] == sequence;
    assert !StartsWith(sequence, "<") && !StartsWith(sequence, "A") && !StartsWith(sequence, "B");
    assert !StartsWith(sequence, "C") && !StartsWith(sequence, "D");
    assert !StartsWith(sequence, "H") && !StartsWith(sequence, "F");
    assert !StartsWith(sequence, "5~") && !StartsWith(sequence, "6~");
    assert !StartsWith(sequence, "1~") && !StartsWith(sequence, "7~");
    assert !StartsWith(sequence, "4~") && !StartsWith(sequence, "8~");
  }

  predicate IsCsiParams(s: string)
  {
    forall i :: 0 <= i < |s| ==> IsDigit(s[i]) || s[i] == ';'
  }

  /** A modified arrow "ESC [ 1 ; m A" gives the plain direction. */
  lemma UnixModifiedArrow(modifiers: string, final: char)
    requires IsCsiParams(modifiers)
    requires final in "ABCD"
    ensures DecodeUnix(ESC, "[1;" + modifiers + [final]) == CursorKey(final)
  {
    var sequence := "1;" + modifiers + [final];
    assert ("[1;" + modifiers + [final])[1..] == sequence;
    assert sequence[0] == '1' && sequence[1] == ';';
    assert !StartsWith(sequence, "<") && !StartsWith(sequence, "A") && !StartsWith(sequence, "B");
    assert !StartsWith(sequence, "C") && !StartsWith(sequence, "D");
    assert !StartsWith(sequence, "H") && !StartsWith(sequence, "F");
    assert !StartsWith(sequence, "5~") && !StartsWith(sequence, "6~") && !StartsWith(sequence, "1~");
    assert !StartsWith(sequence, "7~") && !StartsWith(sequence, "4~") && !StartsWith(sequence, "8~");
    LettersIn(modifiers, final);
  }

  /** A modified Home or End ("ESC [ 1 ; 5 H") is searched for A-D only, so it gives nothing. */
  lemma UnixModifiedHomeEnd(modifiers: string, final: char)
    requires IsCsiParams(modifiers)
    requires final == 'H' || final == 'F'
    ensures DecodeUnix(ESC, "[1;" + modifiers + [final]) == None
  {
    var sequence := "1;" + modifiers + [final];
    assert ("[1;" + modifiers + [final])[1..] == sequence;
    assert sequence[0] == '1' && sequence[1] == ';';
    assert !StartsWith(sequence, "<") && !StartsWith(sequence, "A") && !StartsWith(sequence, "B");
    assert !StartsWith(sequence, "C") && !StartsWith(sequence, "D");
    assert !StartsWith(sequence, "H") && !StartsWith(sequence, "F");
    assert !StartsWith(sequence, "5~") && !StartsWith(sequence, "6~") && !StartsWith(sequence, "1~");
    assert !StartsWith(sequence, "7~") && !StartsWith(sequence, "4~") && !StartsWith(sequence, "8~");
    LettersIn(modifiers, final);
  }

  /** The only letter in "1;" + modifiers + final is the final one. */
  lemma LettersIn(modifiers: string, final: char)
    requires IsCsiParams(modifiers)
    ensures forall c :: !IsDigit(c) && c != ';' ==> (c in "1;" + modifiers + [final] <==> c == final)
  {
    var sequence := "1;" + modifiers + [final];
    assert forall i :: 2 <= i < |sequence| - 1 ==> sequence[i] == modifiers[i - 2];
    assert sequence[|sequence| - 1] == final;
  }

  /** A mouse report after "ESC [ <" goes to the SGR parser. */
  lemma UnixMouse(report: string)
    ensures DecodeUnix(ESC, "[<" + report) == ParseMouseSgr(report)
  {
    assert ("[<" + report)[1..] == "<" + report;
    assert ("<" + report)[1..] == report;
  }

  /** Anything after ESC that is neither CSI ('[') nor SS3 ('O') gives nothing. */
  lemma UnixOtherEscape(following: string)
    requires following != [] && following[0] != '[' && following[0] != 'O'
    ensures DecodeUnix(ESC, following) == None
  {
  }

  /** The control characters, and every other character as itself. */
  lemma UnixControlCharacters(ch: char)
    requires ch != ESC
    ensures DecodeUnix(ch, "") == Some(ControlKey(ch))
    ensures ch == '\U{03}' ==> DecodeUnix(ch, "") == Some(CtrlC)
    ensures ch == '\U{04}' ==> DecodeUnix(ch, "") == Some(CtrlD)
    ensures ch == '\r' || ch == '\n' ==> DecodeUnix(ch, "") == Some(Enter)
    ensures ch == '\t' ==> DecodeUnix(ch, "") == Some(Tab)
    ensures ch == '\U{7F}' || ch == '\U{08}' ==> DecodeUnix(ch, "") == Some(Backspace)
    ensures ch !in "\r\n\t\U{7F}\U{08}\U{03}\U{04}" ==> DecodeUnix(ch, "") == Some(Char(ch))
  {
  }

  // ---------------------------------------------------------------------------
  // Windows console input records (ReadConsoleInputW)
  // ---------------------------------------------------------------------------

  newtype u32 = x: int | 0 <= x < 0x1_0000_0000
  newtype i16 = x: int | -0x8000 <= x < 0x8000

  /** An INPUT_RECORD, reduced to the fields the reader consults. */
  datatype ConsoleRecord =
    | KeyRecord(keyDown: bool, virtualKey: int, ch: char)
    | MouseRecord(x: i16, y: i16, buttonState: u32, eventFlags: u32)
    | OtherRecord

  const FROM_LEFT_1ST_BUTTON_PRESSED: u32 := 0x0001
  const MOUSE_WHEELED: u32 := 0x0004

  /** The virtual-key codes the reader maps, in the order it tests them. */
  function VirtualKeyName(vk: int): Option<Key>
  {
    if vk == 0x26 then Some(Up)
    else if vk == 0x28 then Some(Down)
    else if vk == 0x25 then Some(Left)
    else if vk == 0x27 then Some(Right)
    else if vk == 0x21 then Some(PageUp)
    else if vk == 0x22 then Some(PageDown)
    else if vk == 0x24 then Some(Home)
    else if vk == 0x23 then Some(End)
    else if vk == 0x2E then Some(Delete)
    else if vk == 0x1B then Some(Escape)
    else if vk == 0x0D then Some(Enter)
    else if vk == 0x09 then Some(Tab)
    else if vk == 0x08 then Some(Backspace)
    else None
  }

  /** The VK_* code of each named key, as the Windows headers define them. */
  function VirtualKeyCode(k: Key): Option<int>
  {
    match k
    case Up => Some(0x26)
    case Down => Some(0x28)
    case Left => Some(0x25)
    case Right => Some(0x27)
    case PageUp => Some(0x21)
    case PageDown => Some(0x22)
    case Home => Some(0x24)
    case End => Some(0x23)
    case Delete => Some(0x2E)
    case Escape => Some(0x1B)
    case Enter => Some(0x0D)
    case Tab => Some(0x09)
    case Backspace => Some(0x08)
    case _ => None
  }

  /** The signed 16-bit wheel delta in the high word of dwButtonState (ctypes.c_short). */
  function WheelDelta(buttonState: u32): (d: int)
    ensures -0x8000 <= d < 0x8000
  {
    var high := buttonState as int / 0x1_0000;
    if high >= 0x8000 then high - 0x1_0000 else high
  }

  /** `a & b != 0` for a single-bit mask. */
  predicate BitSet(a: u32, bit: u32)
    requires bit == 1 || bit == 4
  {
    (a as int / bit as int) % 2 == 1
  }

  /**
   * One record as _read_key_windows treats it; None is a record it skips and
   * reads past (key releases, unmapped keys, moves, other events).
   */
  function DecodeRecord(r: ConsoleRecord, isPrintable: char -> bool): Option<Key>
  {
    match r
    case KeyRecord(keyDown, vk, ch) =>
      if !keyDown then None
      else if VirtualKeyName(vk).Some? then VirtualKeyName(vk)
      else if ch != '\0' then
        if ch == '\U{03}' then Some(CtrlC)
        else if ch == '\U{04}' then Some(CtrlD)
        else if ch == '\r' || ch == '\n' then Some(Enter)
        else if isPrintable(ch) then Some(Char(ch))
        else None
      else None
    case MouseRecord(x, y, buttonState, eventFlags) =>
      if BitSet(eventFlags, MOUSE_WHEELED) then
        if WheelDelta(buttonState) > 0 then Some(Up) else Some(Down)
      else if BitSet(buttonState, FROM_LEFT_1ST_BUTTON_PRESSED) && eventFlags == 0 then
        Some(MouseClick(x as int + 1, y as int + 1))
      else None
    case OtherRecord => None
  }

  /** Each named key's virtual-key code decodes to that key, whatever character comes with it. */
  lemma VirtualKeyRoundTrip(k: Key, ch: char, isPrintable: char -> bool)
    requires VirtualKeyCode(k).Some?
    ensures DecodeRecord(KeyRecord(true, VirtualKeyCode(k).value, ch), isPrintable) == Some(k)
  {
  }

  /** Key releases are always skipped. */
  lemma KeyReleaseIgnored(vk: int, ch: char, isPrintable: char -> bool)
    ensures DecodeRecord(KeyRecord(false, vk, ch), isPrintable) == None
  {
  }

  /** A wheel record carrying the signed delta `delta` in its high word. */
  function WheelState(delta: i16, low: int): u32
    requires 0 <= low < 0x1_0000
  {
    (((delta as int + 0x1_0000) % 0x1_0000) * 0x1_0000 + low) as u32
  }

  /** Wheel records become plain Up (delta > 0) or Down (delta <= 0), never a click. */
  lemma WheelDirection(x: i16, y: i16, delta: i16, low: int, flags: u32, isPrintable: char -> bool)
    requires 0 <= low < 0x1_0000
    requires BitSet(flags, MOUSE_WHEELED)
    ensures WheelDelta(WheelState(delta, low)) == delta as int
    ensures DecodeRecord(MouseRecord(x, y, WheelState(delta, low), flags), isPrintable) ==
      if delta > 0 then Some(Up) else Some(Down)
  {
    var high := (delta as int + 0x1_0000) % 0x1_0000;
    assert WheelState(delta, low) as int / 0x1_0000 == high;
  }

  /** A left press with no event flags is a click at the 1-based cell; any flag other than the wheel is skipped. */
  lemma ConsoleClick(x: i16, y: i16, buttonState: u32, flags: u32, isPrintable: char -> bool)
    requires !BitSet(flags, MOUSE_WHEELED)
    ensures DecodeRecord(MouseRecord(x, y, buttonState, flags), isPrintable) ==
      if BitSet(buttonState, FROM_LEFT_1ST_BUTTON_PRESSED) && flags == 0
      then Some(MouseClick(x as int + 1, y as int + 1)) else None
  {
  }

  /** The reader loop: the first record that decodes to a key, and how many records it consumed. */
  method ReadConsoleKey(records: seq<ConsoleRecord>, isPrintable: char -> bool)
    returns (key: Option<Key>, consumed: nat)
    ensures consumed <= |records|
    ensures forall i :: 0 <= i < consumed - 1 ==> DecodeRecord(records[i], isPrintable) == None
    ensures key.Some? ==> 0 < consumed && DecodeRecord(records[consumed - 1], isPrintable) == key
    ensures key.None? ==>
      consumed == |records| && forall i :: 0 <= i < |records| ==> DecodeRecord(records[i], isPrintable) == None
  {
    consumed := 0;
    while consumed < |records|
      invariant consumed <= |records|
      invariant forall i :: 0 <= i < consumed ==> DecodeRecord(records[i], isPrintable) == None
    {
      var decoded := DecodeRecord(records[consumed], isPrintable);
      consumed := consumed + 1;
      if decoded.Some? {
        return decoded, consumed;
      }
    }
    return None, consumed;
  }

  // ---------------------------------------------------------------------------
  // msvcrt fallback (getwch/kbhit, no mouse tracking unless the terminal sends SGR)
  // ---------------------------------------------------------------------------

  /** The scan codes after a '\U{00}' or '\U{E0}' prefix. */
  function ExtendedKey(ext: char): Option<Key>
  {
    match ext
    case 'H' => Some(Up)
    case 'P' => Some(Down)
    case 'M' => Some(Right)
    case 'K' => Some(Left)
    case 'G' => Some(Home)
    case 'O' => Some(End)
    case 'I' => Some(PageUp)
    case 'Q' => Some(PageDown)
    case 'S' => Some(Delete)
    case _ => None
  }

  /** The scan code the console sends for each key of the extended table. */
  function ScanCode(k: Key): Option<char>
  {
    match k
    case Up => Some('H')
    case Down => Some('P')
    case Right => Some('M')
    case Left => Some('K')
    case Home => Some('G')
    case End => Some('O')
    case PageUp => Some('I')
    case PageDown => Some('Q')
    case Delete => Some('S')
    case _ => None
  }

  /**
   * The msvcrt path of _read_key_windows: `ch` is the first getwch(), `next`
   * the second one (read only after a prefix), and `pending` the characters
   * kbhit() still reported after an ESC ("" for none).
   */
  function DecodeMsvcrt(ch: char, next: char, pending: string): Option<Key>
  {
    if ch == '\U{00}' || ch == '\U{E0}' then ExtendedKey(next)
    else if ch == ESC then
      if |pending| > 0 && pending[0] == '[' then
        var sequence := pending[1..];
        if StartsWith(sequence, "<") then ParseMouseSgr(sequence[1..])
        else if 'A' in sequence then Some(Up)
        else if 'B' in sequence then Some(Down)
        else if 'C' in sequence then Some(Right)
        else if 'D' in sequence then Some(Left)
        else Some(Escape)
      else Some(Escape)
    else Some(ControlKey(ch))
  }

  /** Both prefixes lead to the same table, and each of its keys round-trips. */
  lemma MsvcrtExtended(k: Key, pending: string)
    requires ScanCode(k).Some?
    ensures DecodeMsvcrt('\U{00}', ScanCode(k).value, pending) == Some(k)
    ensures DecodeMsvcrt('\U{E0}', ScanCode(k).value, pending) == Some(k)
  {
  }

  /** Unlike the Unix reader, an unknown sequence after ESC still gives Escape. */
  lemma MsvcrtUnknownEscape(pending: string, next: char)
    requires pending == [] || pending[0] != '[' ||
      (!StartsWith(pending[1..], "<") && forall c :: c in "ABCD" ==> c !in pending[1..])
    ensures DecodeMsvcrt(ESC, next, pending) == Some(Escape)
  {
    if pending != [] && pending[0] == '[' && !StartsWith(pending[1..], "<") {
      assert 'A' in "ABCD" && 'B' in "ABCD" && 'C' in "ABCD" && 'D' in "ABCD";
    }
  }

  /** Any other character decodes as on the Unix path: the same control keys, else itself. */
  lemma MsvcrtControlCharacters(ch: char, next: char, pending: string)
    requires ch != '\U{00}' && ch != '\U{E0}' && ch != ESC
    ensures DecodeMsvcrt(ch, next, pending) == DecodeUnix(ch, "")
  {
  }

  /** A mouse report after "ESC [ <" goes to the SGR parser on this path too. */
  lemma MsvcrtMouse(report: string, next: char)
    ensures DecodeMsvcrt(ESC, next, "[<" + report) == ParseMouseSgr(report)
  {
    assert ("[<" + report)[1..] == "<" + report;
    assert ("<" + report)[1..] == report;
  }
}
