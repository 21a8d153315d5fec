/**
 * Display-width text metrics of the picker: SGR escape stripping, per-character
 * cell width, padding and truncation with an ellipsis (vscode-projects.py:92-167).
 */
module TextMetrics {
  import opened Common

  /** The classes of unicodedata.east_asian_width. */
  datatype EastAsianWidth = Fullwidth | Wide | Ambiguous | Halfwidth | Narrow | Neutral

  /**
   * The Unicode tables the program reaches through Python's standard library.
   * They stay uninterpreted: every function of the model receives them.
   */
  datatype Unicode = Unicode(
    eastAsianWidth: char -> EastAsianWidth,
    lower: string -> string,
    upper: string -> string,
    isAlpha: char -> bool,
    isPrintable: char -> bool)

  // ---------------------------------------------------------------------------
  // Cell width of one character and of a run of characters
  // ---------------------------------------------------------------------------

  /** char_width: control characters take no cell, F/W/A characters two, the rest one. */
  function CharWidth(c: char, eaw: char -> EastAsianWidth): (w: nat)
    ensures w <= 2
    ensures w == 0 <==> c < ' '
    ensures w == 2 <==> ' ' <= c && eaw(c) in {Fullwidth, Wide, Ambiguous}
  {
    if c < ' ' then 0
    else if eaw(c) == Fullwidth || eaw(c) == Wide || eaw(c) == Ambiguous then 2
    else 1
  }

  /** The sum of the character widths, with no escape handling. */
  function RawWidth(s: string, eaw: char -> EastAsianWidth): nat
  {
    if s == [] then 0 else CharWidth(s[0], eaw) + RawWidth(s[1..], eaw)
  }

  lemma {:induction false} RawWidthAppend(a: string, b: string, eaw: char -> EastAsianWidth)
    ensures RawWidth(a + b, eaw) == RawWidth(a, eaw) + RawWidth(b, eaw)
  {
    if a != [] {
      assert (a + b)[1..] == a[1..] + b;
      RawWidthAppend(a[1..], b, eaw);
    } else {
      assert a + b == b;
    }
  }

  // ---------------------------------------------------------------------------
  // SGR escape sequences: ESC '[' [0-9;]* 'm'
  // ---------------------------------------------------------------------------

  predicate IsParam(c: char)
  {
    '0' <= c <= '9' || c == ';'
  }

  /** A complete SGR sequence, as the pattern `\x1b\[[0-9;]*m` matches it. */
  ghost predicate IsSgr(t: string)
  {
    |t| >= 3 && t[0] == ESC && t[1] == '[' && t[|t| - 1] == 'm' &&
    forall i :: 2 <= i < |t| - 1 ==> IsParam(t[i])
  }

  /** Length of the longest run of parameter characters at the start of `s`. */
  function ParamRun(s: string): (n: nat)
    ensures n <= |s|
    ensures forall i :: 0 <= i < n ==> IsParam(s[i])
    ensures n < |s| ==> !IsParam(s[n])
  {
    if s == [] || !IsParam(s[0]) then 0 else 1 + ParamRun(s[1..])
  }

  /** Length of the SGR sequence matched at the start of `s`, or 0 when none starts there. */
  function SgrLen(s: string): (n: nat)
    ensures n <= |s|
    ensures n > 0 ==> 3 <= n && s[0] == ESC
  {
    if 2 <= |s| && s[0] == ESC && s[1] == '[' then
      var k := 2 + ParamRun(s[2..]);
      if k < |s| && s[k] == 'm' then k + 1 else 0
    else 0
  }

  /** SgrLen finds exactly the SGR sequences: a match, and the only one at that position. */
  lemma SgrLenMatches(s: string, k: nat)
    requires 0 < k <= |s|
    ensures SgrLen(s) > 0 ==> IsSgr(s[..SgrLen(s)])
    ensures IsSgr(s[..k]) ==> k == SgrLen(s)
  {
    if SgrLen(s) > 0 {
      var n := SgrLen(s);
      forall i | 2 <= i < n - 1 ensures IsParam(s[..n][i]) {
        assert s[..n][i] == s[2..][i - 2];
      }
    }
    if IsSgr(s[..k]) {
      assert s[2..][k - 3] == s[..k][k - 1] == 'm';
      forall j | 0 <= j < k - 3 ensures IsParam(s[2..][j]) {
        assert s[2..][j] == s[..k][j + 2];
      }
    }
  }

  /** A match is not disturbed by what follows it. */
  lemma SgrLenExtend(s: string, t: string)
    requires SgrLen(s) > 0
    ensures SgrLen(s + t) == SgrLen(s)
  {
    var st := s + t;
    var d := ParamRun(s[2..]);
    assert st[2..] == s[2..] + t;
    assert st[2..][..d] == s[2..][..d];
    ParamRunPrefix(s[2..], t);
  }

  /** No match can run into text that begins with an inert character. */
  lemma SgrLenInert(s: string, t: string)
    requires s != [] && SgrLen(s) == 0
    requires t == [] || Inert(t[0])
    ensures SgrLen(s + t) == 0
  {
    var st := s + t;
    if 2 <= |s| && s[0] == ESC && s[1] == '[' {
      assert st[2..] == s[2..] + t;
      ParamRunInert(s[2..], t);
    }
  }

  lemma {:induction false} ParamRunPrefix(s: string, t: string)
    requires ParamRun(s) < |s|
    ensures ParamRun(s + t) == ParamRun(s)
  {
    if IsParam(s[0]) {
      assert (s + t)[1..] == s[1..] + t;
      ParamRunPrefix(s[1..], t);
    }
  }

  lemma {:induction false} ParamRunInert(s: string, t: string)
    requires t == [] || Inert(t[0])
    ensures ParamRun(s + t) == ParamRun(s)
  {
    if s == [] {
      assert s + t == t;
    } else if IsParam(s[0]) {
      assert (s + t)[1..] == s[1..] + t;
      ParamRunInert(s[1..], t);
    }
  }

  /** strip_ansi: every SGR sequence removed, scanning left to right as re.sub does. */
  function StripAnsi(s: string): (r: string)
    ensures |r| <= |s|
    decreases |s|
  {
    if s == [] then []
    else if SgrLen(s) > 0 then StripAnsi(s[SgrLen(s)..])
    else [s[0]] + StripAnsi(s[1..])
  }

  /** str_width: display width with SGR sequences ignored. */
  function StrWidth(s: string, eaw: char -> EastAsianWidth): nat
  {
    RawWidth(StripAnsi(s), eaw)
  }

  /** Text without ESC passes through strip_ansi untouched, in front of anything. */
  lemma {:induction false} StripAnsiPlainPrefix(p: string, t: string)
    requires ESC !in p
    ensures StripAnsi(p + t) == p + StripAnsi(t)
  {
    if p == [] {
      assert p + t == t;
    } else {
      assert (p + t)[0] == p[0];
      StripAnsiKeepAppend(p, t);
      StripAnsiPlainPrefix(p[1..], t);
      HeadSplit(p, StripAnsi(t));
    }
  }

  lemma HeadSplit(p: string, y: string)
    requires p != []
    ensures p + y == [p[0]] + (p[1..] + y)
  {
    assert p == [p[0]] + p[1..];
  }

  lemma StripAnsiPlain(s: string)
    requires ESC !in s
    ensures StripAnsi(s) == s
  {
    StripAnsiPlainPrefix(s, []);
    assert s + [] == s;
  }

  /** A character that can neither continue nor end an SGR sequence begun before it. */
  predicate Inert(c: char)
  {
    !IsParam(c) && c != 'm' && c != '['
  }

  /**
   * Stripping distributes over a concatenation whose second part starts with an
   * inert character (ESC among them): no SGR sequence can straddle the seam.
   */
  lemma {:induction false} StripAnsiAppend(s: string, t: string)
    requires t == [] || Inert(t[0])
    ensures StripAnsi(s + t) == StripAnsi(s) + StripAnsi(t)
    decreases |s|, 1
  {
    if s == [] {
      assert s + t == t;
    } else if SgrLen(s) > 0 {
      StripAnsiAppendSgr(s, t);
    } else {
      StripAnsiAppendChar(s, t);
    }
  }

  /** The seam case where s opens with an SGR sequence: it is dropped from both sides. */
  lemma {:induction false} StripAnsiAppendSgr(s: string, t: string)
    requires SgrLen(s) > 0
    requires t == [] || Inert(t[0])
    ensures StripAnsi(s + t) == StripAnsi(s) + StripAnsi(t)
    decreases |s|, 0
  {
    var m := SgrLen(s);
    SgrLenExtend(s, t);
    StripAnsiSkipAppend(s, t, m);
    StripAnsiSkip(s, m);
    StripAnsiAppend(s[m..], t);
  }

  /** The seam case where s opens with a plain character: it is kept on both sides. */
  lemma {:induction false} StripAnsiAppendChar(s: string, t: string)
    requires s != [] && SgrLen(s) == 0
    requires t == [] || Inert(t[0])
    ensures StripAnsi(s + t) == StripAnsi(s) + StripAnsi(t)
    decreases |s|, 0
  {
    SgrLenInert(s, t);
    StripAnsiKeepAppend(s, t);
    StripAnsiKeep(s);
    StripAnsiAppend(s[1..], t);
    ConsAssoc(s[0], StripAnsi(s[1..]), StripAnsi(t));
  }

  lemma StripAnsiSkipAppend(s: string, t: string, m: nat)
    requires m > 0 && m <= |s| && SgrLen(s + t) == m
    ensures StripAnsi(s + t) == StripAnsi(s[m..] + t)
  {
    assert (s + t)[m..] == s[m..] + t;
  }

  lemma StripAnsiKeepAppend(s: string, t: string)
    requires s != [] && SgrLen(s + t) == 0
    ensures StripAnsi(s + t) == [s[0]] + StripAnsi(s[1..] + t)
  {
    assert (s + t)[1..] == s[1..] + t;
  }

  lemma ConsAssoc(c: char, x: string, y: string)
    ensures [c] + (x + y) == ([c] + x) + y
  {
  }

  lemma StripAnsiSkip(s: string, m: nat)
    requires m > 0 && SgrLen(s) == m
    ensures StripAnsi(s) == StripAnsi(s[m..])
  {
  }

  lemma StripAnsiKeep(s: string)
    requires s != [] && SgrLen(s) == 0
    ensures StripAnsi(s) == [s[0]] + StripAnsi(s[1..])
  {
  }

  /** Stripping only deletes characters, so it never widens a string. */
  lemma {:induction false} StripAnsiNarrows(s: string, eaw: char -> EastAsianWidth)
    ensures RawWidth(StripAnsi(s), eaw) <= RawWidth(s, eaw)
    decreases |s|
  {
    if s != [] {
      var n := SgrLen(s);
      if n > 0 {
        StripAnsiSkip(s, n);
        StripAnsiNarrows(s[n..], eaw);
        RawWidthSuffix(s, n, eaw);
      } else {
        StripAnsiKeep(s);
        StripAnsiNarrows(s[1..], eaw);
        RawWidthCons(s[0], StripAnsi(s[1..]), eaw);
      }
    }
  }

  lemma RawWidthSuffix(s: string, n: nat, eaw: char -> EastAsianWidth)
    requires n <= |s|
    ensures RawWidth(s[n..], eaw) <= RawWidth(s, eaw)
  {
    RawWidthAppend(s[..n], s[n..], eaw);
    assert s[..n] + s[n..] == s;
  }

  lemma RawWidthCons(c: char, x: string, eaw: char -> EastAsianWidth)
    ensures RawWidth([c] + x, eaw) == CharWidth(c, eaw) + RawWidth(x, eaw)
  {
    assert ([c] + x)[1..] == x;
  }

  /** An SGR sequence with parameters `params`, as the renderer's colour constants are. */
  function Sgr(params: string): string
  {
    [ESC, '['] + params + "m"
  }

  const Reset: string := Sgr("0")

  /** Wrapping text in a colour and a reset does not change its display width. */
  lemma StyledWidth(params: string, s: string, eaw: char -> EastAsianWidth)
    requires forall i :: 0 <= i < |params| ==> IsParam(params[i])
    ensures StrWidth(Sgr(params) + s + Reset, eaw) == StrWidth(s, eaw)
  {
    var open := Sgr(params);
    var rest := s + Reset;
    assert open[2..] == params + "m";
    ParamRunAll(params, "m");
    assert SgrLen(open) == |open|;
    SgrLenExtend(open, rest);
    assert (open + rest)[|open|..] == rest;
    assert Sgr(params) + s + Reset == open + rest;
    StripAnsiAppend(s, Reset);
    assert Reset[2..] == "0m";
    ParamRunAll("0", "m");
    assert Reset[4..] == [];
    assert StripAnsi(Reset) == StripAnsi(Reset[4..]) == [];
    assert StripAnsi(open + rest) == StripAnsi(rest);
    assert StripAnsi(s + Reset) == StripAnsi(s) + [] == StripAnsi(s);
  }

  lemma {:induction false} ParamRunAll(p: string, t: string)
    requires forall i :: 0 <= i < |p| ==> IsParam(p[i])
    requires t == [] || !IsParam(t[0])
    ensures ParamRun(p + t) == |p|
  {
    if p == [] {
      assert p + t == t;
    } else {
      assert (p + t)[1..] == p[1..] + t;
      ParamRunAll(p[1..], t);
    }
  }

  /** Every ESC in `s` begins an SGR sequence (vacuously true of text without ESC). */
  ghost predicate EscapesWellFormed(s: string)
  {
    forall i :: 0 <= i < |s| && s[i] == ESC ==> SgrLen(s[i..]) > 0
  }

  lemma {:induction false} StripWellFormed(s: string)
    requires EscapesWellFormed(s)
    ensures ESC !in StripAnsi(s)
    decreases |s|
  {
    if s != [] {
      var n := SgrLen(s);
      var rest := if n > 0 then s[n..] else s[1..];
      var off := if n > 0 then n else 1;
      forall i | 0 <= i < |rest| && rest[i] == ESC ensures SgrLen(rest[i..]) > 0 {
        assert rest[i..] == s[off + i..];
      }
      StripWellFormed(rest);
      if n == 0 {
        assert s[0..][0] == s[0];
      }
    }
  }

  // ---------------------------------------------------------------------------
  // str_pad
  // ---------------------------------------------------------------------------

  /** The `align` argument: 'left', 'right', and every other value, which centres. */
  datatype Align = Left | Right | Center

  /** str_pad: fill up to `width` display cells; a string already that wide is returned as is. */
  function StrPad(s: string, width: int, align: Align, fill: string, eaw: char -> EastAsianWidth): string
  {
    var w := StrWidth(s, eaw);
    if w >= width then s
    else
      match align
      case Left => s + Repeat(fill, width - w)
      case Right => Repeat(fill, width - w) + s
      case Center =>
        var left := (width - w) / 2;
        var right := width - w - left;
        Repeat(fill, left) + s + Repeat(fill, right)
  }

  /** A fill string one cell wide that cannot interact with escapes around it (e.g. " "). */
  ghost predicate OneCellFill(fill: string, eaw: char -> EastAsianWidth)
  {
    fill != [] && ESC !in fill && Inert(fill[0]) && RawWidth(fill, eaw) == 1
  }

  lemma {:induction false} RepeatFill(fill: string, n: int, eaw: char -> EastAsianWidth)
    requires OneCellFill(fill, eaw)
    ensures ESC !in Repeat(fill, n)
    ensures RawWidth(Repeat(fill, n), eaw) == if n <= 0 then 0 else n
    ensures n > 0 ==> Repeat(fill, n)[0] == fill[0]
    decreases if n <= 0 then 0 else n
  {
    if n > 0 {
      RepeatFill(fill, n - 1, eaw);
      RawWidthAppend(fill, Repeat(fill, n - 1), eaw);
      if ESC in Repeat(fill, n) {
        RepeatMembers(fill, n, ESC);
      }
    }
  }

  /** The width of a padded string: the pieces add up, escapes in `s` included. */
  lemma PadPiecesWidth(a: string, s: string, b: string, fill: string, eaw: char -> EastAsianWidth)
    requires OneCellFill(fill, eaw)
    requires ESC !in a && (b == [] || (ESC !in b && Inert(b[0])))
    ensures StrWidth(a + s + b, eaw) == RawWidth(a, eaw) + StrWidth(s, eaw) + RawWidth(b, eaw)
  {
    assert a + s + b == a + (s + b);
    StripAnsiPlainPrefix(a, s + b);
    StripAnsiAppend(s, b);
    if b != [] { StripAnsiPlain(b); }
    RawWidthAppend(a, StripAnsi(s) + b, eaw);
    RawWidthAppend(StripAnsi(s), b, eaw);
  }

  /** str_pad leaves a string that is already wide enough unchanged. */
  lemma PadWideEnough(s: string, width: int, align: Align, fill: string, eaw: char -> EastAsianWidth)
    requires StrWidth(s, eaw) >= width
    ensures StrPad(s, width, align, fill, eaw) == s
  {
  }

  /**
   * With a one-cell fill, a narrower string is padded to exactly `width` cells;
   * left alignment keeps `s` in front, right alignment at the end.
   */
  lemma PadExact(s: string, width: int, align: Align, fill: string, eaw: char -> EastAsianWidth)
    requires OneCellFill(fill, eaw)
    requires StrWidth(s, eaw) < width
    ensures StrWidth(StrPad(s, width, align, fill, eaw), eaw) == width
    ensures align == Left ==> s <= StrPad(s, width, align, fill, eaw)
    ensures align == Right ==> exists pad :: StrPad(s, width, align, fill, eaw) == pad + s
  {
    var d := width - StrWidth(s, eaw);
    match align
    case Left =>
      PadSplit(0, s, d, fill, eaw);
      assert Repeat(fill, 0) + s == s;
    case Right =>
      PadSplit(d, s, 0, fill, eaw);
      assert Repeat(fill, d) + s + Repeat(fill, 0) == Repeat(fill, d) + s;
    case Center =>
      PadSplit(d / 2, s, d - d / 2, fill, eaw);
  }

  /** The width of `s` with `left` fill strings before it and `right` after it. */
  lemma PadSplit(left: nat, s: string, right: nat, fill: string, eaw: char -> EastAsianWidth)
    requires OneCellFill(fill, eaw)
    ensures StrWidth(Repeat(fill, left) + s + Repeat(fill, right), eaw) == left + StrWidth(s, eaw) + right
  {
    RepeatFill(fill, left, eaw);
    RepeatFill(fill, right, eaw);
    PadPiecesWidth(Repeat(fill, left), s, Repeat(fill, right), fill, eaw);
  }

  // ---------------------------------------------------------------------------
  // str_cut
  // ---------------------------------------------------------------------------

  /**
   * The number of leading characters of `s` the truncation loop keeps when `avail`
   * cells are left for them: the longest prefix whose width stays within `avail`.
   */
  function FitLen(s: string, avail: int, eaw: char -> EastAsianWidth): (k: nat)
    ensures k <= |s|
  {
    if s == [] || CharWidth(s[0], eaw) > avail then 0
    else 1 + FitLen(s[1..], avail - CharWidth(s[0], eaw), eaw)
  }

  /** `FitLen` is the longest prefix that fits: it fits, and one more character would not. */
  lemma {:induction false} FitLenLongest(s: string, avail: int, eaw: char -> EastAsianWidth)
    ensures var k := FitLen(s, avail, eaw);
      (k == 0 || RawWidth(s[..k], eaw) <= avail) && (k == |s| || RawWidth(s[..k + 1], eaw) > avail)
  {
    if s == [] {
    } else if CharWidth(s[0], eaw) > avail {
      assert RawWidth(s[..1], eaw) == CharWidth(s[0], eaw) + RawWidth(s[..1][1..], eaw);
    } else {
      FitLenLongest(s[1..], avail - CharWidth(s[0], eaw), eaw);
      var k := FitLen(s, avail, eaw);
      assert s[..k][1..] == s[1..][..k - 1];
      assert k < |s| ==> s[..k + 1][1..] == s[1..][..k];
    }
  }

  /**
   * What str_cut returns. Text without ESC is measured as it is; text with ESC is
   * measured and cut after strip_ansi, so a cut string loses its styling.
   */
  function Truncate(s: string, maxWidth: int, ellipsis: string, eaw: char -> EastAsianWidth): string
  {
    var ew := StrWidth(ellipsis, eaw);
    if ESC !in s then
      if StrWidth(s, eaw) <= maxWidth then s
      else
        var k := FitLen(s, maxWidth - ew, eaw);
        if k < |s| then s[..k] + ellipsis else s
    else
      var plain := StripAnsi(s);
      if StrWidth(plain, eaw) <= maxWidth then s
      else plain[..FitLen(plain, maxWidth - ew, eaw)] + ellipsis
  }

  /**
   * The loop of str_cut: characters are taken while they and the ellipsis still
   * fit in `maxWidth`; `stopped` says the loop met one that does not.
   */
  method TakeFitting(text: string, maxWidth: int, ew: int, eaw: char -> EastAsianWidth)
    returns (result: string, stopped: bool)
    ensures result == text[..FitLen(text, maxWidth - ew, eaw)]
    ensures stopped <==> FitLen(text, maxWidth - ew, eaw) < |text|
  {
    result := "";
    var width := 0;
    ghost var avail := maxWidth - ew;
    for i := 0 to |text|
      invariant result == text[..i]
      invariant avail == maxWidth - ew - width
      invariant FitLen(text, maxWidth - ew, eaw) == i + FitLen(text[i..], avail, eaw)
    {
      var cw := CharWidth(text[i], eaw);
      if width + cw + ew > maxWidth {
        FitLenStops(text, i, avail, eaw);
        return result, true;
      }
      FitLenTakes(text, i, avail, eaw);
      result := result + [text[i]];
      width, avail := width + cw, avail - cw;
    }
    assert text[..|text|] == text;
    return result, false;
  }

  /** A character wider than what is left stops the fitting prefix. */
  lemma FitLenStops(text: string, i: int, avail: int, eaw: char -> EastAsianWidth)
    requires 0 <= i < |text| && CharWidth(text[i], eaw) > avail
    ensures FitLen(text[i..], avail, eaw) == 0
  {
    assert text[i..][0] == text[i];
  }

  /** A character that still fits extends the fitting prefix by one. */
  lemma FitLenTakes(text: string, i: int, avail: int, eaw: char -> EastAsianWidth)
    requires 0 <= i < |text| && CharWidth(text[i], eaw) <= avail
    ensures FitLen(text[i..], avail, eaw) == 1 + FitLen(text[i + 1..], avail - CharWidth(text[i], eaw), eaw)
  {
    assert text[i..][1..] == text[i + 1..];
  }

  /** str_cut: the text without escapes keeps its own characters, styled text is cut after strip_ansi. */
  method StrCut(s: string, maxWidth: int, ellipsis: string, eaw: char -> EastAsianWidth) returns (r: string)
    ensures r == Truncate(s, maxWidth, ellipsis, eaw)
  {
    if ESC !in s {
      if StrWidth(s, eaw) <= maxWidth {
        return s;
      }
      var ew := StrWidth(ellipsis, eaw);
      var result, stopped := TakeFitting(s, maxWidth, ew, eaw);
      if stopped {
        return result + ellipsis;
      }
      assert s[..|s|] == s;
      return result;
    }
    var plain := StripAnsi(s);
    if StrWidth(plain, eaw) <= maxWidth {
      return s;
    }
    var ew := StrWidth(ellipsis, eaw);
    var result, _ := TakeFitting(plain, maxWidth, ew, eaw);
    return result + ellipsis;
  }

  /** str_cut returns a string that already fits unchanged. */
  lemma TruncateFits(s: string, maxWidth: int, ellipsis: string, eaw: char -> EastAsianWidth)
    requires StrWidth(s, eaw) <= maxWidth
    ensures Truncate(s, maxWidth, ellipsis, eaw) == s
  {
    if ESC !in s {
    } else {
      StripAnsiNarrows(StripAnsi(s), eaw);
    }
  }

  /** The text str_cut measures and cuts: `s` itself, or `strip_ansi(s)` when `s` holds ESC. */
  function CutBase(s: string): string
  {
    if ESC !in s then s else StripAnsi(s)
  }

  /**
   * A string whose text (stripped when it holds ESC) is wider than `maxWidth` is cut to
   * the longest prefix of that text that leaves room for the ellipsis, then the ellipsis.
   */
  lemma TruncateCuts(s: string, maxWidth: int, ellipsis: string, eaw: char -> EastAsianWidth)
    requires 0 <= maxWidth < StrWidth(CutBase(s), eaw)
    ensures var base := CutBase(s); var ew := StrWidth(ellipsis, eaw);
      exists k :: 0 <= k < |base| &&
        Truncate(s, maxWidth, ellipsis, eaw) == base[..k] + ellipsis &&
        (k == 0 || RawWidth(base[..k], eaw) + ew <= maxWidth) &&
        RawWidth(base[..k + 1], eaw) + ew > maxWidth
  {
    var base := CutBase(s);
    var ew := StrWidth(ellipsis, eaw);
    var k := FitLen(base, maxWidth - ew, eaw);
    FitLenLongest(base, maxWidth - ew, eaw);
    StripAnsiNarrows(base, eaw);
    assert base[..|base|] == base;
    assert Truncate(s, maxWidth, ellipsis, eaw) == base[..k] + ellipsis;
  }

  /** With every escape an SGR sequence, the cut text is free of ESC and as wide as the string. */
  lemma CutBaseWidth(s: string, eaw: char -> EastAsianWidth)
    requires EscapesWellFormed(s)
    ensures ESC !in CutBase(s) && StrWidth(CutBase(s), eaw) == StrWidth(s, eaw)
  {
    if ESC in s {
      StripWellFormed(s);
      StripAnsiPlain(StripAnsi(s));
    }
  }

  /** When the ellipsis fits, str_cut's result fits in `maxWidth` cells. */
  lemma TruncateWidth(s: string, maxWidth: int, ellipsis: string, eaw: char -> EastAsianWidth)
    requires EscapesWellFormed(s)
    requires StrWidth(ellipsis, eaw) <= maxWidth
    ensures StrWidth(Truncate(s, maxWidth, ellipsis, eaw), eaw) <= maxWidth
  {
    if StrWidth(s, eaw) <= maxWidth {
      TruncateFits(s, maxWidth, ellipsis, eaw);
    } else {
      CutBaseWidth(s, eaw);
      TruncateCuts(s, maxWidth, ellipsis, eaw);
      var base := CutBase(s);
      var ew := StrWidth(ellipsis, eaw);
      var k :| 0 <= k < |base| &&
        Truncate(s, maxWidth, ellipsis, eaw) == base[..k] + ellipsis &&
        (k == 0 || RawWidth(base[..k], eaw) + ew <= maxWidth);
      assert ESC !in base[..k] by {
        forall i | 0 <= i < k ensures base[..k][i] != ESC { assert base[..k][i] == base[i]; }
      }
      StripAnsiPlainPrefix(base[..k], ellipsis);
      RawWidthAppend(base[..k], StripAnsi(ellipsis), eaw);
    }
  }

  /** When even the ellipsis is too wide, a string that does not fit becomes the ellipsis. */
  lemma TruncateOnlyEllipsis(s: string, maxWidth: int, ellipsis: string, eaw: char -> EastAsianWidth)
    requires 0 <= maxWidth < StrWidth(CutBase(s), eaw)
    requires StrWidth(ellipsis, eaw) > maxWidth
    ensures Truncate(s, maxWidth, ellipsis, eaw) == ellipsis
  {
    TruncateCuts(s, maxWidth, ellipsis, eaw);
    var base := CutBase(s);
    var ew := StrWidth(ellipsis, eaw);
    var k :| 0 <= k < |base| &&
      Truncate(s, maxWidth, ellipsis, eaw) == base[..k] + ellipsis &&
      (k == 0 || RawWidth(base[..k], eaw) + ew <= maxWidth);
    assert k == 0;
    assert base[..0] + ellipsis == ellipsis;
  }

  /**
   * The renderer's column cells: cutting to `width` and padding to `width` with a
   * one-cell fill gives exactly `width` cells whenever the ellipsis fits.
   */
  lemma CutThenPadWidth(s: string, width: int, ellipsis: string, fill: string, eaw: char -> EastAsianWidth)
    requires EscapesWellFormed(s)
    requires OneCellFill(fill, eaw)
    requires StrWidth(ellipsis, eaw) <= width
    ensures StrWidth(StrPad(Truncate(s, width, ellipsis, eaw), width, Left, fill, eaw), eaw) == width
  {
    var cut := Truncate(s, width, ellipsis, eaw);
    TruncateWidth(s, width, ellipsis, eaw);
    if StrWidth(cut, eaw) < width {
      PadExact(cut, width, Left, fill, eaw);
    }
  }

  /**
   * Only well-formed escapes are covered by TruncateWidth: str_cut compares the width
   * of `strip_ansi(s)` after stripping it once more, so a stray ESC that hides a
   * sequence behind it lets a string five cells wide through a limit of three.
   */
  lemma TruncateStrayEscape(eaw: char -> EastAsianWidth)
    requires forall c :: eaw(c) == Narrow
    ensures var s := [ESC, '['] + [ESC, '[', '0', 'm'] + "1mAB";
      Truncate(s, 3, "..", eaw) == s && StrWidth(s, eaw) == 5
  {
    StrayEscapeStrips();
    StrayEscapeWidths(eaw);
    TruncateNarrowEnough([ESC, '['] + [ESC, '[', '0', 'm'] + "1mAB", 3, "..", eaw);
  }

  /** The widths the example needs: the once-stripped text, the twice-stripped one, and an ESC in the input. */
  lemma StrayEscapeWidths(eaw: char -> EastAsianWidth)
    requires forall c :: eaw(c) == Narrow
    ensures RawWidth([ESC, '['] + "1mAB", eaw) == 5
    ensures RawWidth("AB", eaw) == 2
    ensures ESC in [ESC, '['] + [ESC, '[', '0', 'm'] + "1mAB"
  {
    NarrowWidth("AB", eaw);
    NarrowWidthAfterControl([ESC, '['] + "1mAB", eaw);
    assert ([ESC, '['] + [ESC, '[', '0', 'm'] + "1mAB")[0] == ESC;
  }

  /** Text with an escape whose stripped form already fits comes back unchanged. */
  lemma TruncateNarrowEnough(s: string, maxWidth: int, ellipsis: string, eaw: char -> EastAsianWidth)
    requires ESC in s && StrWidth(StripAnsi(s), eaw) <= maxWidth
    ensures Truncate(s, maxWidth, ellipsis, eaw) == s
  {
  }

  lemma NarrowWidthAfterControl(x: string, eaw: char -> EastAsianWidth)
    requires forall c :: eaw(c) == Narrow
    requires x != [] && x[0] < ' '
    requires forall i :: 1 <= i < |x| ==> x[i] >= ' '
    ensures RawWidth(x, eaw) == |x| - 1
  {
    NarrowWidth(x[1..], eaw);
  }

  /** With every character narrow, a string of printable characters is as wide as it is long. */
  lemma {:induction false} NarrowWidth(x: string, eaw: char -> EastAsianWidth)
    requires forall c :: eaw(c) == Narrow
    requires forall i :: 0 <= i < |x| ==> x[i] >= ' '
    ensures RawWidth(x, eaw) == |x|
  {
    if x != [] {
      NarrowWidth(x[1..], eaw);
    }
  }

  /** Stripping the stray-escape string once leaves a well-formed sequence, which a second strip removes. */
  lemma StrayEscapeStrips()
    ensures StripAnsi([ESC, '['] + [ESC, '[', '0', 'm'] + "1mAB") == [ESC, '['] + "1mAB"
    ensures StripAnsi([ESC, '['] + "1mAB") == "AB"
  {
    StrayEscapeHides("1mAB");
    StrayEscapeTail([ESC, '['] + "1mAB");
  }

  /** An ESC '[' in front of a complete sequence is kept, and hides nothing: only the sequence goes. */
  lemma StrayEscapeHides(u: string)
    requires ESC !in u
    ensures StripAnsi([ESC, '['] + [ESC, '[', '0', 'm'] + u) == [ESC, '['] + u
  {
    var t := [ESC, '[', '0', 'm'] + u;
    assert [ESC, '['] + [ESC, '[', '0', 'm'] + u == [ESC, '['] + t;
    StrayHead(t);
    assert t[4..] == u;
    StrayEscapeTail(t);
  }

  /** "ESC [" followed by another ESC starts no sequence, so both characters are kept. */
  lemma StrayHead(t: string)
    requires t != [] && t[0] == ESC
    ensures StripAnsi([ESC, '['] + t) == [ESC, '['] + StripAnsi(t)
  {
    var w := [ESC, '['] + t;
    assert w[2..] == t;
    assert SgrLen(w) == 0;
    StripAnsiKeep(w);
    var v := w[1..];
    assert v == ['['] + t;
    StripAnsiCons('[', t);
    ConsAssoc2(ESC, '[', StripAnsi(t));
  }

  lemma StripAnsiCons(c: char, x: string)
    requires c != ESC
    ensures StripAnsi([c] + x) == [c] + StripAnsi(x)
  {
    assert ([c] + x)[1..] == x;
  }

  lemma ConsAssoc2(a: char, b: char, x: string)
    ensures [a] + ([b] + x) == [a, b] + x
  {
  }

  /** A reset-like sequence "ESC [ d m" in front of plain text is removed. */
  lemma StrayEscapeTail(t: string)
    requires |t| >= 4 && t[0] == ESC && t[1] == '[' && IsParam(t[2]) && t[3] == 'm'
    requires ESC !in t[4..]
    ensures StripAnsi(t) == t[4..]
  {
    assert t[2..] == [t[2]] + t[3..];
    ParamRunAll([t[2]], t[3..]);
    assert SgrLen(t) == 4;
    StripAnsiPlain(t[4..]);
  }
}
