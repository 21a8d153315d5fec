/**
 * The picker's state machine: the project list, its filtered view, the cursor and
 * scroll window, the multi-selection, the search and delete-confirmation modes, and
 * the undo buffer, with one pure transition function per handler of `App`.
 *
 * Side effects (opening editors, saving to the database, the clipboard, the file
 * manager, reloading) are recorded as `Intent`s in the state; what the outside world
 * answers (the reloaded list, whether the clipboard worked) comes in through `Env`.
 */
module Picker {
  import opened Common
  import opened TextMetrics
  import opened KeyDecode
  import opened Projects

  /** The bottom-line message, by meaning rather than by its localised text. */
  datatype Message =
    | NoMessage
    | CancelledDelete
    | Deleted(count: nat)
    | NothingToUndo
    | Restored(count: nat)
    | ConfirmPrompt(names: seq<string>, count: nat)
    | OpenedSelectedInNewWindow(count: nat)
    | OpenedInNewWindow(name: string)
    | OpenedAsWorkspace(count: nat)
    | Opened(name: string)
    | Reloaded
    | CopiedPath(name: string)
    | CopyFailed
    | Revealed(name: string)
    | RevealFailed

  /** An effect the key handler asks the outside world to perform. */
  datatype Intent =
    | OpenProjects(items: seq<Project>, newWindow: bool, asWorkspace: bool)
    | SaveProjects(kept: seq<Project>)
    | SaveAllProjects(all: seq<Project>)
    | CopyToClipboard(text: string)
    | OpenInFileManager(path: string)
    | LoadProjects

  /** What the outside world answers: the list a reload reads, and whether the helpers succeed. */
  datatype Env = Env(reloaded: seq<Project>, clipboardOk: bool, fileManagerOk: bool)

  datatype AppState = AppState(
    projects: seq<Project>,
    visible: seq<int>,
    selected: set<int>,
    query: string,
    cursor: int,
    scroll: int,
    listHeight: int,
    running: bool,
    message: Message,
    searchMode: bool,
    lastDeleted: seq<Project>,
    confirmDelete: bool,
    pendingDelete: seq<int>,
    intents: seq<Intent>)

  /** The state `App.__init__` builds. */
  function Initial(): AppState
  {
    AppState([], [], {}, "", 0, 0, 10, true, NoMessage, false, [], false, [], [])
  }

  // ---------------------------------------------------------------------------
  // Filtering
  // ---------------------------------------------------------------------------

  /** A project matches a lower-cased query when its lower-cased name or path contains it. */
  predicate Matches(p: Project, q: string, lower: string -> string)
  {
    Contains(lower(p.name), q) || Contains(lower(p.path), q)
  }

  /** Whether project `i` is listed for `query`: every project when the query is empty. */
  predicate Listed(projects: seq<Project>, query: string, lower: string -> string, i: int)
  {
    0 <= i < |projects| && (query == [] || Matches(projects[i], lower(query), lower))
  }

  /** The indices below `n` of the listed projects, ascending. */
  function ListedBelow(projects: seq<Project>, query: string, lower: string -> string, n: nat): (r: seq<int>)
    requires n <= |projects|
    ensures StrictlyIncreasing(r)
    ensures forall i :: i in r <==> i < n && Listed(projects, query, lower, i)
    ensures forall k :: 0 <= k < |r| ==> 0 <= r[k] < n
  {
    if n == 0 then [] else
      var r := ListedBelow(projects, query, lower, n - 1);
      assert forall k :: 0 <= k < |r| ==> r[k] in r;
      if Listed(projects, query, lower, n - 1) then r + [n - 1] else r
  }

  /** The filtered view `App.filter` computes: the listed indices in list order. */
  function FilterIndices(projects: seq<Project>, query: string, lower: string -> string): (r: seq<int>)
    ensures StrictlyIncreasing(r)
    ensures forall i :: i in r <==> Listed(projects, query, lower, i)
    ensures forall k :: 0 <= k < |r| ==> 0 <= r[k] < |projects|
  {
    ListedBelow(projects, query, lower, |projects|)
  }

  /** Clamp the scroll offset so that the cursor row is inside the window. */
  function ScrollTo(cursor: int, scroll: int, height: int): int
  {
    if cursor < scroll then cursor
    else if cursor >= scroll + height then cursor - height + 1
    else scroll
  }

  /** `App.filter`: recompute the view, clamp the cursor to it, scroll to the cursor. */
  function Refilter(s: AppState, lower: string -> string): AppState
  {
    var visible := FilterIndices(s.projects, s.query, lower);
    var cursor := if s.cursor >= |visible| then Max(0, |visible| - 1) else s.cursor;
    s.(visible := visible, cursor := cursor, scroll := ScrollTo(cursor, s.scroll, s.listHeight))
  }

  // ---------------------------------------------------------------------------
  // The invariant
  // ---------------------------------------------------------------------------

  /** The cursor is on the view (or -1 / 0 when the view allows it) and in the scroll window's range. */
  predicate CursorInRange(s: AppState)
  {
    -1 <= s.cursor <= Max(0, |s.visible| - 1) && -1 <= s.scroll
  }

  /** Every index the state keeps points into the project list. */
  predicate IndicesInRange(s: AppState)
  {
    (forall i :: i in s.selected ==> 0 <= i < |s.projects|) &&
    (forall k :: 0 <= k < |s.pendingDelete| ==> 0 <= s.pendingDelete[k] < |s.projects|)
  }

  /** What every handler keeps: the view is the filter of the list, indices are in range, modes exclude each other. */
  predicate Valid(s: AppState, lower: string -> string)
  {
    s.listHeight >= 1 &&
    s.visible == FilterIndices(s.projects, s.query, lower) &&
    CursorInRange(s) &&
    IndicesInRange(s) &&
    StrictlyIncreasing(s.pendingDelete) &&
    (s.confirmDelete <==> s.pendingDelete != []) &&
    !(s.searchMode && s.confirmDelete)
  }

  /** `App.filter` keeps the cursor within the view and the scroll window on the cursor. */
  lemma RefilterKeepsWindow(s: AppState, lower: string -> string)
    requires s.listHeight >= 1 && -1 <= s.cursor && -1 <= s.scroll
    ensures var t := Refilter(s, lower);
      t.visible == FilterIndices(s.projects, s.query, lower) &&
      CursorInRange(t) &&
      t.scroll <= t.cursor < t.scroll + t.listHeight &&
      (s.cursor < |t.visible| ==> t.cursor == s.cursor) &&
      (s.cursor >= |t.visible| ==> t.cursor == Max(0, |t.visible| - 1))
  {
  }

  // ---------------------------------------------------------------------------
  // Handlers
  // ---------------------------------------------------------------------------

  /** Toggle membership of `i`, as `remove` / `add` on a Python set. */
  function Toggle(selected: set<int>, i: int): (r: set<int>)
    ensures i in r <==> i !in selected
    ensures forall j :: j != i ==> (j in r <==> j in selected)
  {
    if i in selected then selected - {i} else selected + {i}
  }

  /** The first row of the list on screen (title, rule, search box and rule come first). */
  const ListStartRow: int := 5

  /** A mouse click: on a list row that shows an item, move there and toggle that item. */
  function Click(s: AppState, x: int, y: int): AppState
  {
    if ListStartRow <= y < ListStartRow + s.listHeight && s.visible != [] then
      var clicked := y - ListStartRow + s.scroll;
      if 0 <= clicked < |s.visible| then
        s.(cursor := clicked, selected := Toggle(s.selected, s.visible[clicked]))
      else s
    else s
  }

  /** Keys while the search box has focus. */
  function SearchKey(s: AppState, k: Key, uni: Unicode): AppState
  {
    match k
    case Escape => s.(searchMode := false)
    case Enter => s.(searchMode := false)
    case Backspace => EraseChar(s, uni.lower)
    case CtrlC => ClearSearch(s, uni.lower)
    case Char(c) => TypeChar(s, c, uni)
    case _ => s
  }

  /** Backspace in search mode: drop the last query character, or leave the mode on an empty query. */
  function EraseChar(s: AppState, lower: string -> string): AppState
  {
    if s.query != [] then Refilter(s.(query := s.query[..|s.query| - 1]), lower)
    else s.(searchMode := false)
  }

  /** Ctrl-C in search mode: empty the query, leave the mode, refilter. */
  function ClearSearch(s: AppState, lower: string -> string): AppState
  {
    Refilter(s.(query := [], searchMode := false), lower)
  }

  /** A character in search mode: a printable one extends the query, any other is ignored. */
  function TypeChar(s: AppState, c: char, uni: Unicode): AppState
  {
    if uni.isPrintable(c) then Refilter(s.(query := s.query + [c]), uni.lower) else s
  }

  /** `[self.projects[i] for i in indices]`. */
  function Pick(projects: seq<Project>, indices: seq<int>): (r: seq<Project>)
    requires forall k :: 0 <= k < |indices| ==> 0 <= indices[k] < |projects|
    ensures |r| == |indices|
    ensures forall k :: 0 <= k < |indices| ==> r[k] == projects[indices[k]]
  {
    seq(|indices|, k requires 0 <= k < |indices| => projects[indices[k]])
  }

  /** The uris of the projects at `indices`. */
  function UrisAt(projects: seq<Project>, indices: seq<int>): (uris: set<string>)
    requires forall k :: 0 <= k < |indices| ==> 0 <= indices[k] < |projects|
  {
    set k | 0 <= k < |indices| :: projects[indices[k]].uri
  }

  /** The indices below `n` of the projects whose uri is not in `uris`, ascending. */
  function KeptBelow(projects: seq<Project>, uris: set<string>, n: nat): (r: seq<int>)
    requires n <= |projects|
    ensures StrictlyIncreasing(r)
    ensures forall i :: i in r <==> 0 <= i < n && projects[i].uri !in uris
    ensures forall k :: 0 <= k < |r| ==> 0 <= r[k] < n
  {
    if n == 0 then [] else
      var r := KeptBelow(projects, uris, n - 1);
      assert forall k :: 0 <= k < |r| ==> r[k] in r;
      if projects[n - 1].uri !in uris then r + [n - 1] else r
  }

  /** The kept list below `n + 1` is the one below `n`, with project `n` appended when its uri is kept. */
  lemma KeptStep(projects: seq<Project>, uris: set<string>, n: nat)
    requires n < |projects|
    ensures KeptPrefix(projects, uris, n + 1) ==
      if projects[n].uri !in uris then KeptPrefix(projects, uris, n) + [projects[n]]
      else KeptPrefix(projects, uris, n)
  {
    if projects[n].uri !in uris {
      PickSnoc(projects, KeptBelow(projects, uris, n), n);
    }
  }

  /** Picking one more index appends that project. */
  lemma PickSnoc(projects: seq<Project>, indices: seq<int>, j: int)
    requires forall k :: 0 <= k < |indices| ==> 0 <= indices[k] < |projects|
    requires 0 <= j < |projects|
    ensures Pick(projects, indices + [j]) == Pick(projects, indices) + [projects[j]]
  {
    assert forall k :: 0 <= k < |indices| ==> (indices + [j])[k] == indices[k];
  }

  /** The kept projects among the first `n`. */
  function KeptPrefix(projects: seq<Project>, uris: set<string>, n: nat): seq<Project>
    requires n <= |projects|
  {
    Pick(projects, KeptBelow(projects, uris, n))
  }

  /** `[p for p in projects if p['uri'] not in uris]`. */
  function WithoutUris(projects: seq<Project>, uris: set<string>): seq<Project>
  {
    KeptPrefix(projects, uris, |projects|)
  }

  /** `App._do_delete`: remember the deleted items, drop every project sharing their uris, save, refilter. */
  function DoDelete(s: AppState, indices: seq<int>, lower: string -> string): AppState
    requires forall k :: 0 <= k < |indices| ==> 0 <= indices[k] < |s.projects|
  {
    if indices == [] then s
    else
      var deleted := Pick(s.projects, indices);
      var kept := WithoutUris(s.projects, UrisAt(s.projects, indices));
      var t := s.(lastDeleted := deleted, projects := kept, selected := {},
                  intents := s.intents + [SaveProjects(kept)]);
      Refilter(t, lower).(message := Deleted(|indices|))
  }

  /** `App.undo_delete`: put the last deleted items back at the head of the list. */
  function UndoDelete(s: AppState, lower: string -> string): AppState
  {
    if s.lastDeleted == [] then s.(message := NothingToUndo)
    else
      var restored := s.lastDeleted;
      var all := restored + s.projects;
      var t := s.(projects := all, lastDeleted := [], intents := s.intents + [SaveAllProjects(all)]);
      Refilter(t, lower).(cursor := 0, scroll := 0, message := Restored(|restored|))
  }

  /** Keys while a delete waits for confirmation: y commits, n / Esc / Ctrl-C cancel, the rest are ignored. */
  function ConfirmKey(s: AppState, k: Key, lower: string -> string): AppState
    requires forall j :: 0 <= j < |s.pendingDelete| ==> 0 <= s.pendingDelete[j] < |s.projects|
  {
    if k == Char('y') || k == Char('Y') then ConfirmYes(s, lower)
    else if k == Char('n') || k == Char('N') || k == Escape || k == CtrlC then CancelDelete(s)
    else s
  }

  /** `y`: delete the pending items and leave confirmation mode with nothing pending. */
  function ConfirmYes(s: AppState, lower: string -> string): AppState
    requires forall j :: 0 <= j < |s.pendingDelete| ==> 0 <= s.pendingDelete[j] < |s.projects|
  {
    DoDelete(s, s.pendingDelete, lower).(confirmDelete := false, pendingDelete := [])
  }

  /** `n`, Esc or Ctrl-C: leave confirmation mode, forget the pending items, say so. */
  function CancelDelete(s: AppState): AppState
  {
    s.(confirmDelete := false, pendingDelete := [], message := CancelledDelete)
  }

  /** The project under the cursor (`self.visible[self.cursor]`, where -1 is the last one). */
  function Current(s: AppState): (p: Project)
    requires s.visible != [] && CursorInRange(s)
    requires forall i :: i in s.visible ==> 0 <= i < |s.projects|
  {
    s.projects[PyIndex(s.visible, s.cursor)]
  }

  /** The selected projects, in ascending index order. */
  function SelectedItems(s: AppState): seq<Project>
    requires forall i :: i in s.selected ==> 0 <= i < |s.projects|
  {
    Pick(s.projects, SortedElements(s.selected, |s.projects|))
  }

  /** The names shown in the confirmation prompt: those of the first three pending items. */
  function PromptNames(projects: seq<Project>, pending: seq<int>): (names: seq<string>)
    requires forall k :: 0 <= k < |pending| ==> 0 <= pending[k] < |projects|
    ensures |names| == Min(3, |pending|)
    ensures forall k :: 0 <= k < |names| ==> names[k] == projects[pending[k]].name
  {
    var first := pending[..Min(3, |pending|)];
    seq(|first|, k requires 0 <= k < |first| => projects[first[k]].name)
  }

  function Quit(s: AppState): AppState { s.(running := false) }

  /** Esc in normal mode: clear the query, else clear the selection, else quit. */
  function EscapeKey(s: AppState, lower: string -> string): AppState
  {
    if s.query != [] then Refilter(s.(query := []), lower)
    else if s.selected != {} then s.(selected := {})
    else Quit(s)
  }

  /** Up / k: one line up, scrolling when the cursor leaves the window at the top. */
  function LineUp(s: AppState): AppState
  {
    if s.cursor > 0 then
      var c := s.cursor - 1;
      s.(cursor := c, scroll := if c < s.scroll then c else s.scroll)
    else s
  }

  /** Down / j: one line down, scrolling when the cursor leaves the window at the bottom. */
  function LineDown(s: AppState): AppState
  {
    if s.cursor < |s.visible| - 1 then
      var c := s.cursor + 1;
      s.(cursor := c, scroll := if c >= s.scroll + s.listHeight then c - s.listHeight + 1 else s.scroll)
    else s
  }

  /** PgUp: cursor and window one window height up, stopping at 0. */
  function PageBack(s: AppState): AppState
  {
    s.(cursor := Max(0, s.cursor - s.listHeight), scroll := Max(0, s.scroll - s.listHeight))
  }

  /** PgDn: cursor and window one window height down, stopping at the last item and the last full window. */
  function PageForward(s: AppState): AppState
  {
    var n := |s.visible|;
    s.(cursor := Min(n - 1, s.cursor + s.listHeight),
       scroll := Min(Max(0, n - s.listHeight), s.scroll + s.listHeight))
  }

  /** End / G: the last item, with the last full window. */
  function ToLast(s: AppState): AppState
  {
    s.(cursor := Max(0, |s.visible| - 1), scroll := Max(0, |s.visible| - s.listHeight))
  }

  /** The cursor movements: line, page, first and last item. */
  function Navigate(s: AppState, k: Key): AppState
  {
    match k
    case Up | Char('k') => LineUp(s)
    case Down | Char('j') => LineDown(s)
    case PageUp => PageBack(s)
    case PageDown => PageForward(s)
    case Home | Char('g') => s.(cursor := 0, scroll := 0)
    case End | Char('G') => ToLast(s)
    case _ => s
  }

  /**
   * Space toggles the item under the cursor; `a` clears the selection when it has as
   * many members as the view has items, and otherwise selects the whole view.
   */
  function SelectKey(s: AppState, k: Key): AppState
    requires CursorInRange(s)
  {
    if k == Char(' ') then
      if s.visible != [] then s.(selected := Toggle(s.selected, PyIndex(s.visible, s.cursor))) else s
    else if |s.selected| == |s.visible| then s.(selected := {})
    else s.(selected := set i | i in s.visible)
  }

  /** Enter opens here and quits; `n` opens in a new window; `w` opens the selection as one workspace. */
  function OpenKey(s: AppState, k: Key): AppState
    requires CursorInRange(s) && IndicesInRange(s)
    requires forall i :: i in s.visible ==> 0 <= i < |s.projects|
  {
    if k == Enter then OpenHere(s)
    else if k == Char('n') || k == Char('N') then OpenInNewWindow(s)
    else OpenAsWorkspace(s)
  }

  /** Enter: the selection opens in a new window, or the current item here, and the picker quits. */
  function OpenHere(s: AppState): AppState
    requires CursorInRange(s) && IndicesInRange(s)
    requires forall i :: i in s.visible ==> 0 <= i < |s.projects|
  {
    if s.visible == [] then s
    else if s.selected != {} then
      Quit(s.(intents := s.intents + [OpenProjects(SelectedItems(s), true, false)]))
    else
      Quit(s.(intents := s.intents + [OpenProjects([Current(s)], false, false)]))
  }

  /** `n`: the selection, or the current item, opens in a new window; the selection is cleared. */
  function OpenInNewWindow(s: AppState): AppState
    requires CursorInRange(s) && IndicesInRange(s)
    requires forall i :: i in s.visible ==> 0 <= i < |s.projects|
  {
    if s.visible == [] then s
    else if s.selected != {} then
      s.(intents := s.intents + [OpenProjects(SelectedItems(s), true, false)],
         message := OpenedSelectedInNewWindow(|s.selected|), selected := {})
    else
      s.(intents := s.intents + [OpenProjects([Current(s)], true, false)],
         message := OpenedInNewWindow(Current(s).name))
  }

  /** `w`: the selection opens as one workspace, or the current item in a new window. */
  function OpenAsWorkspace(s: AppState): AppState
    requires CursorInRange(s) && IndicesInRange(s)
    requires forall i :: i in s.visible ==> 0 <= i < |s.projects|
  {
    if s.selected != {} then
      s.(intents := s.intents + [OpenProjects(SelectedItems(s), false, true)],
         message := OpenedAsWorkspace(|s.selected|), selected := {})
    else if s.visible != [] then
      s.(intents := s.intents + [OpenProjects([Current(s)], true, false)],
         message := Opened(Current(s).name))
    else s
  }

  /** `d`: ask to confirm deleting the selection, or the item under the cursor. */
  function RequestDelete(s: AppState): AppState
    requires CursorInRange(s) && IndicesInRange(s)
    requires forall i :: i in s.visible ==> 0 <= i < |s.projects|
  {
    if s.visible == [] then s
    else
      var pending := if s.selected != {} then SortedElements(s.selected, |s.projects|)
                     else [PyIndex(s.visible, s.cursor)];
      s.(pendingDelete := pending, confirmDelete := true,
         message := ConfirmPrompt(PromptNames(s.projects, pending), |pending|))
  }

  /** `r`: replace the list by a fresh load, drop the selection and the undo buffer. */
  function Reload(s: AppState, env: Env, lower: string -> string): AppState
  {
    var t := s.(projects := env.reloaded, selected := {}, lastDeleted := [],
                intents := s.intents + [LoadProjects]);
    Refilter(t, lower).(message := Reloaded)
  }

  /** `y` copies the full path of the current item; `o` shows it in the file manager. */
  function ToolKey(s: AppState, k: Key, env: Env): AppState
    requires CursorInRange(s)
    requires forall i :: i in s.visible ==> 0 <= i < |s.projects|
  {
    if s.visible == [] then s
    else
      var p := Current(s);
      if k == Char('y') || k == Char('Y') then
        s.(intents := s.intents + [CopyToClipboard(p.fullPath)],
           message := if env.clipboardOk then CopiedPath(p.name) else CopyFailed)
      else
        var path := if p.kind == Folder then p.fullPath else p.path;
        s.(intents := s.intents + [OpenInFileManager(path)],
           message := if env.fileManagerOk then Revealed(p.name) else RevealFailed)
  }

  /**
   * Keys in normal mode. `App.handle_key` tests them one by one; the groups below are
   * disjoint, so dispatching on the key first gives the same answers.
   */
  function NormalKey(s: AppState, k: Key, env: Env, lower: string -> string): AppState
    requires Valid(s, lower)
  {
    match k
    case Up | Down | PageUp | PageDown | Home | End => Navigate(s, k)
    case Char(c) => CharKey(s, c, env, lower)
    case _ => ControlKey(s, k, lower)
  }

  /** The keys of normal mode that are neither letters nor navigation: quit, escape, open, clear the query. */
  function ControlKey(s: AppState, k: Key, lower: string -> string): AppState
    requires Valid(s, lower)
  {
    if k == CtrlC || k == CtrlD then Quit(s)
    else if k == Escape then EscapeKey(s, lower)
    else if k == Enter then OpenHere(s)
    else if k == Backspace then ClearQuery(s, lower)
    else s
  }

  /** Backspace in normal mode: an active query is emptied and the list refiltered. */
  function ClearQuery(s: AppState, lower: string -> string): AppState
  {
    if s.query != [] then Refilter(s.(query := []), lower) else s
  }

  /** The letters of normal mode: quit, move, search, select, or one of the item commands. */
  function CharKey(s: AppState, c: char, env: Env, lower: string -> string): AppState
    requires Valid(s, lower)
  {
    if (c == 'q' || c == 'Q') then Quit(s)
    else if (c == 'k' || c == 'j' || c == 'g' || c == 'G') then Navigate(s, Char(c))
    else if c == '/' then s.(searchMode := true)
    else if (c == ' ' || c == 'a' || c == 'A') then SelectKey(s, Char(c))
    else CommandKey(s, c, env, lower)
  }

  /** The letters that act on items: open, delete, reload, copy, reveal, undo; any other does nothing. */
  function CommandKey(s: AppState, c: char, env: Env, lower: string -> string): AppState
    requires Valid(s, lower)
  {
    if (c == 'n' || c == 'N' || c == 'w' || c == 'W') then OpenKey(s, Char(c))
    else if (c == 'd' || c == 'D') then RequestDelete(s)
    else if (c == 'r' || c == 'R') then Reload(s, env, lower)
    else if (c == 'y' || c == 'Y' || c == 'o' || c == 'O') then ToolKey(s, Char(c), env)
    else if (c == 'u' || c == 'U') then UndoDelete(s, lower)
    else s
  }

  /**
   * `App.handle_key`: no key changes nothing; otherwise the message is cleared, then a
   * mouse click is handled whatever the mode, then search mode, confirmation mode and
   * normal mode are tried in that order.
   */
  function Step(s: AppState, key: Option<Key>, env: Env, uni: Unicode): AppState
    requires Valid(s, uni.lower)
  {
    match key
    case None => s
    case Some(k) => Dispatch(s.(message := NoMessage), k, env, uni)
  }

  /** A key, once the message is cleared: a click in any mode, else by the mode the picker is in. */
  function Dispatch(s: AppState, k: Key, env: Env, uni: Unicode): AppState
    requires Valid(s, uni.lower)
  {
    if k.MouseClick? then Click(s, k.x, k.y)
    else if s.searchMode then SearchKey(s, k, uni)
    else if s.confirmDelete then ConfirmKey(s, k, uni.lower)
    else NormalKey(s, k, env, uni.lower)
  }
}
