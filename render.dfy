/**
 * What `App.draw` puts on the screen, by meaning: the window height and column
 * widths it derives from the terminal size, the view normalisation it performs
 * first, and the frame of lines (title, rules, search box, list rows, padding,
 * status and help bar). Colours, icons and the localised texts are not modelled.
 */
module Render {
  import opened Common
  import opened TextMetrics
  import opened KeyDecode
  import opened Projects
  import opened Picker
  import opened PickerProperties

  // ---------------------------------------------------------------------------
  // Layout
  // ---------------------------------------------------------------------------

  /** Eight lines go to the title, the search box, the status line, the help bar and their rules. */
  function ListHeightFor(rows: int): (h: int)
    ensures h >= 3
    ensures h == Max(3, rows - 8)
  {
    var h := rows - 8;
    if h < 3 then 3 else h
  }

  /** The name column takes 40% of the width, between 25 and 45 cells. */
  function NameWidth(cols: int): (w: int)
    ensures 25 <= w <= 45
    ensures cols < 63 ==> w == 25
    ensures cols >= 63 && cols < 113 ==> w == cols * 40 / 100
    ensures cols >= 113 ==> w == 45
  {
    Min(45, Max(25, cols * 40 / 100))
  }

  /** The path column takes what the name column and the 14 cells of prefix leave, at least 15. */
  function PathWidth(cols: int): (w: int)
    ensures w >= 15
    ensures cols - NameWidth(cols) - 14 >= 15 ==> NameWidth(cols) + 14 + w == cols
    ensures cols - NameWidth(cols) - 14 < 15 ==> w == 15
  {
    var w := cols - NameWidth(cols) - 14;
    if w < 15 then 15 else w
  }

  /**
   * The normalisation `App.draw` performs: the window height follows the terminal,
   * and on a non-empty view the cursor is clamped to it, the window scrolled to the
   * cursor and then pulled back so that it does not run past the last item.
   */
  function NormalizeView(s: AppState, rows: int): AppState
  {
    var h := ListHeightFor(rows);
    var n := |s.visible|;
    if n > 0 then
      var c := if s.cursor >= n then n - 1 else s.cursor;
      var sc := ScrollTo(c, s.scroll, h);
      var maxScroll := Max(0, n - h);
      s.(listHeight := h, cursor := c, scroll := if sc > maxScroll then maxScroll else sc)
    else s.(listHeight := h)
  }

  /**
   * After the normalisation the state is still valid, and on a non-empty view the
   * cursor row is in the window and the window ends no later than the full last window.
   */
  lemma NormalizeViewWindow(s: AppState, rows: int, lower: string -> string)
    requires Valid(s, lower)
    ensures var t := NormalizeView(s, rows);
      Valid(t, lower) && t.listHeight == ListHeightFor(rows) &&
      t == s.(listHeight := t.listHeight, cursor := t.cursor, scroll := t.scroll) &&
      (t.visible != [] ==>
        t.scroll <= t.cursor < t.scroll + t.listHeight &&
        t.scroll <= Max(0, |t.visible| - t.listHeight))
  {
  }

  // ---------------------------------------------------------------------------
  // Lines of a frame
  // ---------------------------------------------------------------------------

  datatype SearchBox = Typing(query: string) | Filtered(query: string) | Placeholder

  datatype Status =
    | ShowMessage(message: Message)
    | ShowPath(path: string, converted: bool)
    | MissingPath(path: string)
    | NoMatches

  datatype Help = ConfirmHelp | SearchHelp | WideHelp(undo: bool) | NarrowHelp(undo: bool)

  /** One list row: markers, the kind icon, and the padded name and path cells. */
  datatype Row = Row(isCursor: bool, isSelected: bool, kind: ProjectKind, invalid: bool,
                     tagged: bool, nameCell: string, pathCell: string)

  datatype Line =
    | Title(selectedCount: nat, position: Option<(int, int)>)
    | Rule(width: int)
    | Search(box: SearchBox)
    | Item(row: Row)
    | Blank
    | StatusLine(status: Status)
    | HelpLine(help: Help)

  /** A drawn frame, or the IndexError the row loop raises on a negative index into an empty view. */
  datatype Frame = Frame(lines: seq<Line>) | IndexError

  /** The marker appended to entries whose path no longer exists. */
  const InvalidMark: string := " [\U{65E0}\U{6548}]"

  /** The name shown for a project: its name, its tag in brackets, and the invalid marker. */
  function Label(p: Project): (text: string)
    ensures StartsWith(text, p.name)
    ensures |text| == |p.name| + (if p.tag != [] then |p.tag| + 3 else 0) + (if p.pathExists then 0 else |InvalidMark|)
    ensures p.tag != [] ==> text[|p.name|..|p.name| + |p.tag| + 3] == " [" + p.tag + "]"
    ensures !p.pathExists ==> text[|text| - |InvalidMark|..] == InvalidMark
    ensures p.tag == [] && p.pathExists ==> text == p.name
  {
    var tagged := if p.tag != [] then p.name + " [" + p.tag + "]" else p.name;
    if !p.pathExists then tagged + InvalidMark else tagged
  }

  /** The path shown in the list: the directory of the converted path when there is one. */
  function ShownPath(p: Project): string
  {
    if p.displayPath != [] then
      var d := Dirname(p.displayPath);
      if d == [] then "/" else d
    else p.path
  }

  /** A column cell: cut to the width with ".." and padded with spaces on the right. */
  function Cell(text: string, width: int, eaw: char -> EastAsianWidth): string
  {
    StrPad(Truncate(text, width, "..", eaw), width, Align.Left, " ", eaw)
  }

  function RowAt(s: AppState, i: int, nameW: int, pathW: int, eaw: char -> EastAsianWidth): Row
    requires -|s.visible| <= i < |s.visible|
    requires forall k :: 0 <= k < |s.visible| ==> 0 <= s.visible[k] < |s.projects|
  {
    var idx := PyIndex(s.visible, i);
    var p := s.projects[idx];
    Row(i == s.cursor, idx in s.selected, p.kind, !p.pathExists, p.tag != [],
        Cell(Label(p), nameW, eaw), Cell(ShownPath(p), pathW, eaw))
  }

  /** The rows for view positions `lo .. hi - 1`. */
  function ListRows(s: AppState, lo: int, hi: int, nameW: int, pathW: int, eaw: char -> EastAsianWidth):
    seq<Line>
    requires hi <= lo || (-|s.visible| <= lo && hi <= |s.visible|)
    requires forall k :: 0 <= k < |s.visible| ==> 0 <= s.visible[k] < |s.projects|
  {
    seq(Max(0, hi - lo), j requires 0 <= j < Max(0, hi - lo) => Item(RowAt(s, lo + j, nameW, pathW, eaw)))
  }

  function Blanks(n: int): seq<Line>
  {
    seq(Max(0, n), _ => Blank)
  }

  /** One more row at the end of the window range appends that row. */
  lemma ListRowsSnoc(s: AppState, lo: int, hi: int, nameW: int, pathW: int, eaw: char -> EastAsianWidth)
    requires lo <= hi && -|s.visible| <= lo && hi < |s.visible|
    requires forall k :: 0 <= k < |s.visible| ==> 0 <= s.visible[k] < |s.projects|
    ensures ListRows(s, lo, hi + 1, nameW, pathW, eaw) ==
      ListRows(s, lo, hi, nameW, pathW, eaw) + [Item(RowAt(s, hi, nameW, pathW, eaw))]
  {
  }

  lemma BlanksSnoc(n: nat)
    ensures Blanks(n + 1) == Blanks(n) + [Blank]
  {
  }

  function Header(s: AppState, cols: int): seq<Line>
  {
    var n := |s.visible|;
    var box := if s.searchMode then Typing(s.query) else if s.query != [] then Filtered(s.query) else Placeholder;
    [Title(|s.selected|, if n > 0 then Some((s.cursor + 1, n)) else None), Rule(cols - 1),
     Search(box), Rule(cols - 1)]
  }

  function StatusOf(s: AppState): Status
    requires CursorInRange(s)
    requires forall k :: 0 <= k < |s.visible| ==> 0 <= s.visible[k] < |s.projects|
  {
    if s.message != NoMessage then ShowMessage(s.message)
    else if s.visible != [] then
      var p := s.projects[PyIndex(s.visible, s.cursor)];
      var shown := if p.displayPath != [] then p.displayPath else p.fullPath;
      if !p.pathExists then MissingPath(shown) else ShowPath(shown, p.displayPath != [])
    else NoMatches
  }

  function HelpOf(s: AppState, cols: int): Help
  {
    if s.confirmDelete then ConfirmHelp
    else if s.searchMode then SearchHelp
    else if cols >= 100 then WideHelp(s.lastDeleted != [])
    else NarrowHelp(s.lastDeleted != [])
  }

  function Footer(s: AppState, cols: int): seq<Line>
    requires CursorInRange(s)
    requires forall k :: 0 <= k < |s.visible| ==> 0 <= s.visible[k] < |s.projects|
  {
    [Rule(cols - 1), StatusLine(StatusOf(s)), Rule(cols - 1), HelpLine(HelpOf(s, cols))]
  }

  /** The row loop reaches a negative index that the view cannot serve. */
  predicate RowLoopFails(s: AppState)
  {
    s.scroll < Min(s.scroll + s.listHeight, |s.visible|) && s.scroll < -|s.visible|
  }

  /** What drawing needs of a state: a window, a cursor in range, and a view of real indices. */
  predicate Drawable(s: AppState)
  {
    CursorInRange(s) && s.listHeight >= 1 &&
    forall k :: 0 <= k < |s.visible| ==> 0 <= s.visible[k] < |s.projects|
  }

  /** The frame `App.draw` builds from a normalised state. */
  function FrameOf(s: AppState, cols: int, eaw: char -> EastAsianWidth): Frame
    requires Drawable(s)
  {
    if RowLoopFails(s) then Frame.IndexError
    else
      var end := Min(s.scroll + s.listHeight, |s.visible|);
      var rows := ListRows(s, s.scroll, end, NameWidth(cols), PathWidth(cols), eaw);
      Frame(Header(s, cols) + rows + Blanks(s.listHeight - |rows|) + Footer(s, cols))
  }

  // ---------------------------------------------------------------------------
  // Properties of frames
  // ---------------------------------------------------------------------------

  /** Drawing fails exactly when the view is empty and the scroll offset is -1. */
  lemma FrameFailsIff(s: AppState, cols: int, eaw: char -> EastAsianWidth, lower: string -> string)
    requires Valid(s, lower)
    ensures FrameOf(s, cols, eaw).IndexError? <==> s.visible == [] && s.scroll == -1
  {
  }

  /** The number of list rows a frame shows: the visible items from the scroll offset to the window's end. */
  function RowCount(s: AppState): int
  {
    Max(0, Min(s.scroll + s.listHeight, |s.visible|) - s.scroll)
  }

  /**
   * A frame has the window height plus eight lines: four header lines, one row per
   * visible item of the window (from the scroll offset on), blank padding, and four
   * footer lines with the status and the help bar of the current mode.
   */
  lemma FrameShape(s: AppState, cols: int, eaw: char -> EastAsianWidth)
    requires Drawable(s) && !RowLoopFails(s)
    ensures FrameOf(s, cols, eaw).Frame?
    ensures |FrameOf(s, cols, eaw).lines| == s.listHeight + 8
    ensures FrameOf(s, cols, eaw).lines[..4] == Header(s, cols)
    ensures RowCount(s) <= s.listHeight
    ensures FrameOf(s, cols, eaw).lines[4..4 + RowCount(s)] ==
      ListRows(s, s.scroll, s.scroll + RowCount(s), NameWidth(cols), PathWidth(cols), eaw)
    ensures forall j :: 4 + RowCount(s) <= j < 4 + s.listHeight ==> FrameOf(s, cols, eaw).lines[j] == Blank
    ensures FrameOf(s, cols, eaw).lines[s.listHeight + 4..] == Footer(s, cols)
  {
    var end := Min(s.scroll + s.listHeight, |s.visible|);
    var rows := ListRows(s, s.scroll, end, NameWidth(cols), PathWidth(cols), eaw);
    var head := Header(s, cols);
    var pad := Blanks(s.listHeight - |rows|);
    var foot := Footer(s, cols);
    assert FrameOf(s, cols, eaw).lines == head + rows + pad + foot;
    assert |rows| == RowCount(s);
    StackedLines(head, rows, s.listHeight, foot);
  }

  /** Four header lines, the rows, blank padding up to `height`, and the footer, stacked. */
  lemma StackedLines(head: seq<Line>, rows: seq<Line>, height: int, foot: seq<Line>)
    requires |head| == 4 && |rows| <= height
    ensures var lines := head + rows + Blanks(height - |rows|) + foot;
      |lines| == height + 4 + |foot| &&
      lines[..4] == head && lines[4..4 + |rows|] == rows && lines[height + 4..] == foot &&
      forall j :: 4 + |rows| <= j < 4 + height ==> lines[j] == Blank
  {
    var pad := Blanks(height - |rows|);
    var lines := head + rows + pad + foot;
    assert lines[..4] == head;
    assert lines[4..4 + |rows|] == rows;
    assert lines[height + 4..] == foot;
    forall j | 4 + |rows| <= j < 4 + height ensures lines[j] == Blank {
      assert lines[j] == pad[j - 4 - |rows|];
    }
  }

  /** The help bar follows the mode: confirmation first, then search, then the width of the terminal. */
  lemma HelpFollowsMode(s: AppState, cols: int)
    ensures s.confirmDelete ==> HelpOf(s, cols) == ConfirmHelp
    ensures !s.confirmDelete && s.searchMode ==> HelpOf(s, cols) == SearchHelp
    ensures !s.confirmDelete && !s.searchMode ==>
      HelpOf(s, cols) == (if cols >= 100 then WideHelp(s.lastDeleted != []) else NarrowHelp(s.lastDeleted != []))
  {
  }

  /**
   * Every cell of a row is exactly as wide as its column, when the text's escapes
   * are well formed and '.' and ' ' are one cell wide.
   */
  lemma RowCellsFit(s: AppState, i: int, cols: int, eaw: char -> EastAsianWidth)
    requires -|s.visible| <= i < |s.visible|
    requires forall k :: 0 <= k < |s.visible| ==> 0 <= s.visible[k] < |s.projects|
    requires eaw('.') !in {Fullwidth, Wide, Ambiguous} && eaw(' ') !in {Fullwidth, Wide, Ambiguous}
    requires var p := s.projects[PyIndex(s.visible, i)];
      EscapesWellFormed(Label(p)) && EscapesWellFormed(ShownPath(p))
    ensures var r := RowAt(s, i, NameWidth(cols), PathWidth(cols), eaw);
      StrWidth(r.nameCell, eaw) == NameWidth(cols) && StrWidth(r.pathCell, eaw) == PathWidth(cols)
  {
    var p := s.projects[PyIndex(s.visible, i)];
    assert ESC !in "..";
    StripAnsiPlain("..");
    StripAnsiPlain(" ");
    assert StrWidth("..", eaw) == 2;
    assert OneCellFill(" ", eaw);
    CutThenPadWidth(Label(p), NameWidth(cols), "..", " ", eaw);
    CutThenPadWidth(ShownPath(p), PathWidth(cols), "..", " ", eaw);
  }

  // ---------------------------------------------------------------------------
  // The empty-view crash
  // ---------------------------------------------------------------------------

  /** '/' in normal mode enters search mode and changes nothing else. */
  lemma SlashStartsSearch(s: AppState, env: Env, uni: Unicode)
    requires Valid(s, uni.lower) && !s.searchMode && !s.confirmDelete
    ensures Step(s, Some(Char('/')), env, uni) == s.(message := NoMessage, searchMode := true)
  {
  }

  /**
   * A character typed into an empty view after PgDn leaves the view empty, and the
   * refilter scrolls the window to the cursor at -1.
   */
  lemma TypingKeepsEmptyView(s: AppState, c: char, env: Env, uni: Unicode)
    requires Valid(s, uni.lower) && s.searchMode && s.visible == [] && s.cursor == -1 && s.scroll == 0
    requires uni.isPrintable(c)
    requires uni.lower(s.query + [c]) == uni.lower(s.query) + uni.lower([c])
    ensures var t := Step(s, Some(Char(c)), env, uni);
      Valid(t, uni.lower) && t.visible == [] && t.cursor == -1 && t.scroll == -1
  {
    EmptyStaysEmpty(s.projects, s.query, c, uni.lower);
    StepValid(s, Some(Char(c)), env, uni);
  }

  /** A query that lists nothing lists nothing once it is extended. */
  lemma EmptyStaysEmpty(ps: seq<Project>, q: string, c: char, lower: string -> string)
    requires FilterIndices(ps, q, lower) == []
    requires lower(q + [c]) == lower(q) + lower([c])
    ensures FilterIndices(ps, q + [c], lower) == []
  {
    QueryNarrows(ps, q, c, lower);
    var vis := FilterIndices(ps, q + [c], lower);
    IncreasingCardinality(vis);
    assert (set x | x in vis) == {};
  }

  /**
   * On an empty view (every project filtered out), PgDn, '/' and one more printable
   * character put the scroll offset at -1, and the next draw raises an IndexError:
   * its row loop reads position -1 of the empty view. PgDn sets the cursor to -1,
   * and the refilter after the character scrolls to it.
   */
  lemma EmptyViewDrawFails(s: AppState, c: char, env: Env, uni: Unicode, rows: int, cols: int,
                           eaw: char -> EastAsianWidth)
    requires Valid(s, uni.lower) && !s.searchMode && !s.confirmDelete && s.visible == []
    requires uni.isPrintable(c)
    requires uni.lower(s.query + [c]) == uni.lower(s.query) + uni.lower([c])
    ensures var t1 := Step(s, Some(PageDown), env, uni);
      Valid(t1, uni.lower) && t1.searchMode == s.searchMode && t1.confirmDelete == s.confirmDelete &&
      var t2 := Step(t1, Some(Char('/')), env, uni);
      Valid(t2, uni.lower) && t2.query == s.query &&
      var t3 := Step(t2, Some(Char(c)), env, uni);
      Valid(t3, uni.lower) &&
      var t := NormalizeView(t3, rows);
      Valid(t, uni.lower) && FrameOf(t, cols, eaw) == Frame.IndexError
  {
    EmptyViewSearch(s, env, uni);
    var t2 := Step(Step(s, Some(PageDown), env, uni), Some(Char('/')), env, uni);
    EmptySearchTypingFails(t2, c, env, uni, rows, cols, eaw);
  }

  /** PgDn then `/` on an empty view: search mode with the cursor at -1 and the window at 0. */
  lemma EmptyViewSearch(s: AppState, env: Env, uni: Unicode)
    requires Valid(s, uni.lower) && !s.searchMode && !s.confirmDelete && s.visible == []
    ensures var t1 := Step(s, Some(PageDown), env, uni);
      Valid(t1, uni.lower) && t1.searchMode == s.searchMode && t1.confirmDelete == s.confirmDelete &&
      var t2 := Step(t1, Some(Char('/')), env, uni);
      Valid(t2, uni.lower) && t2.query == s.query && t2.searchMode &&
      t2.visible == [] && t2.cursor == -1 && t2.scroll == 0
  {
    var t1 := Step(s, Some(PageDown), env, uni);
    StepValid(s, Some(PageDown), env, uni);
    PageDownOnEmpty(s, env, uni);
    SlashStartsSearch(t1, env, uni);
    StepValid(t1, Some(Char('/')), env, uni);
  }

  /** From there a printable character leaves the view empty and the next frame fails. */
  lemma EmptySearchTypingFails(s: AppState, c: char, env: Env, uni: Unicode, rows: int, cols: int,
                               eaw: char -> EastAsianWidth)
    requires Valid(s, uni.lower) && s.searchMode && s.visible == [] && s.cursor == -1 && s.scroll == 0
    requires uni.isPrintable(c)
    requires uni.lower(s.query + [c]) == uni.lower(s.query) + uni.lower([c])
    ensures var t3 := Step(s, Some(Char(c)), env, uni);
      Valid(t3, uni.lower) &&
      var t := NormalizeView(t3, rows);
      Valid(t, uni.lower) && FrameOf(t, cols, eaw) == Frame.IndexError
  {
    TypingKeepsEmptyView(s, c, env, uni);
    var t3 := Step(s, Some(Char(c)), env, uni);
    NormalizeViewWindow(t3, rows, uni.lower);
    FrameFailsIff(NormalizeView(t3, rows), cols, eaw, uni.lower);
  }

  /**
   * PgDn on an empty view, then Esc, leaves the scroll offset at -1 on a view that is
   * no longer empty: Esc clears the query and the refilter scrolls to the cursor that
   * PgDn left at -1. The normalisation of the next draw keeps both at -1, so its row
   * loop starts at position -1: the last item is drawn first, marked as the cursor,
   * ahead of the first item, and the title counts the cursor as item 0.
   */
  lemma ScrollNegativeOnFullView(s: AppState, env: Env, uni: Unicode, rows: int)
    requires Valid(s, uni.lower) && !s.searchMode && !s.confirmDelete
    requires s.visible == [] && s.query != [] && s.projects != []
    ensures var t1 := Step(s, Some(PageDown), env, uni);
      Valid(t1, uni.lower) && !t1.searchMode && !t1.confirmDelete &&
      var t2 := Step(t1, Some(Escape), env, uni);
      Valid(t2, uni.lower) &&
      var t := NormalizeView(t2, rows);
      Valid(t, uni.lower) && t.visible != [] && t.cursor == -1 && t.scroll == -1
  {
    var t1 := Step(s, Some(PageDown), env, uni);
    StepValid(s, Some(PageDown), env, uni);
    PageDownOnEmpty(s, env, uni);
    EscapeRefillsView(t1, env, uni);
    var t2 := Step(t1, Some(Escape), env, uni);
    StepValid(t1, Some(Escape), env, uni);
    NormalizeViewWindow(t2, rows, uni.lower);
  }

  /** Esc on a query that lists nothing, with the cursor at -1 and the window at 0, lists every project and scrolls to -1. */
  lemma EscapeRefillsView(s: AppState, env: Env, uni: Unicode)
    requires Valid(s, uni.lower) && !s.searchMode && !s.confirmDelete
    requires s.query != [] && s.projects != [] && s.cursor == -1 && s.scroll == 0
    ensures var t := Step(s, Some(Escape), env, uni);
      t.visible == seq(|s.projects|, i => i) && t.cursor == -1 && t.scroll == -1
  {
    EmptyQueryListsAll(s.projects, uni.lower);
  }
}
