/**
 * The picker object itself: `App` keeps the list, the view and the modes in fields
 * that its methods update in place. Each method is proved against the transition
 * function of `Picker` (or the frame function of `Render`) that says what it does,
 * so the properties proved there carry over to the object.
 */
module Application {
  import opened Common
  import opened TextMetrics
  import opened KeyDecode
  import opened Projects
  import opened Picker
  import opened PickerProperties
  import opened Render

  class App {
    var projects: seq<Project>
    var visible: seq<int>
    var selected: set<int>
    var query: string
    var cursor: int
    var scroll: int
    var listHeight: int
    var running: bool
    var message: Message
    var searchMode: bool
    var lastDeleted: seq<Project>
    var confirmDelete: bool
    var pendingDelete: seq<int>
    /** The effects asked for so far, oldest first. */
    var intents: seq<Intent>
    /** The character database behind `lower()`, `isprintable()` and the width table. */
    const uni: Unicode

    /** The object's state as a value. */
    function Model(): AppState
      reads this
    {
      AppState(projects, visible, selected, query, cursor, scroll, listHeight, running, message,
               searchMode, lastDeleted, confirmDelete, pendingDelete, intents)
    }

    constructor(uni: Unicode)
      ensures Model() == Initial() && this.uni == uni
    {
      this.uni := uni;
      projects := [];
      visible := [];
      selected := {};
      query := "";
      cursor := 0;
      scroll := 0;
      listHeight := 10;
      running := true;
      message := NoMessage;
      searchMode := false;
      lastDeleted := [];
      confirmDelete := false;
      pendingDelete := [];
      intents := [];
    }

    /**
     * `run` before its loop: take the loaded list, give up when it is empty, and
     * otherwise compute the first view.
     */
    method Start(loaded: seq<Project>) returns (started: bool)
      requires Model() == Initial()
      modifies this
      ensures started <==> loaded != []
      ensures started ==> Model() == Refilter(Initial().(projects := loaded), uni.lower)
      ensures started ==> Valid(Model(), uni.lower) && Model().visible == seq(|loaded|, i => i)
    {
      projects := loaded;
      if loaded == [] {
        return false;
      }
      Filter();
      started := true;
      EmptyQueryListsAll(loaded, uni.lower);
    }

    /** `filter`: recompute the view from the query, then clamp the cursor and scroll to it. */
    method Filter()
      modifies this
      ensures Model() == Refilter(old(Model()), uni.lower)
    {
      visible := FilteredIndices(projects, query, uni.lower);
      if cursor >= |visible| {
        cursor := Max(0, |visible| - 1);
      }
      if cursor < scroll {
        scroll := cursor;
      } else if cursor >= scroll + listHeight {
        scroll := cursor - listHeight + 1;
      }
    }

    /** `_do_delete`: keep the deleted items for undo, drop every project sharing their uris, save, refilter. */
    method DoDelete(indices: seq<int>)
      requires forall k :: 0 <= k < |indices| ==> 0 <= indices[k] < |projects|
      modifies this
      ensures Model() == Picker.DoDelete(old(Model()), indices, uni.lower)
    {
      if indices == [] {
        return;
      }
      DropProjects(indices);
      Filter();
      message := Deleted(|indices|);
    }

    /** The part of `_do_delete` before the refilter: remember, remove and save. */
    method DropProjects(indices: seq<int>)
      requires forall k :: 0 <= k < |indices| ==> 0 <= indices[k] < |projects|
      modifies this
      ensures var kept := WithoutUris(old(projects), UrisAt(old(projects), indices));
        Model() == old(Model()).(lastDeleted := Pick(old(projects), indices), projects := kept,
                                 selected := {}, intents := old(intents) + [SaveProjects(kept)])
    {
      ghost var m := Model();
      var deleted := Pick(projects, indices);
      var uris := UrisAt(projects, indices);
      var kept := KeepOthers(projects, uris);
      lastDeleted, projects, selected, intents := deleted, kept, {}, intents + [SaveProjects(kept)];
      assert Model() == m.(lastDeleted := deleted, projects := kept, selected := {}, intents := m.intents + [SaveProjects(kept)]);
    }

    /** `undo_delete`: put the last deleted items back at the head of the list, save, refilter, go to the top. */
    method UndoDelete()
      modifies this
      ensures Model() == Picker.UndoDelete(old(Model()), uni.lower)
    {
      if lastDeleted == [] {
        message := NothingToUndo;
        return;
      }
      var count := |lastDeleted|;
      RestoreProjects();
      Filter();
      cursor := 0;
      scroll := 0;
      message := Restored(count);
    }

    /** The part of `undo_delete` before the refilter: prepend the deleted items, forget them, save. */
    method RestoreProjects()
      modifies this
      ensures var all := old(lastDeleted) + old(projects);
        Model() == old(Model()).(projects := all, lastDeleted := [], intents := old(intents) + [SaveAllProjects(all)])
    {
      projects := lastDeleted + projects;
      lastDeleted := [];
      intents := intents + [SaveAllProjects(projects)];
    }

    /**
     * `handle_key`: no key changes nothing; any other key clears the message, and is
     * then handled as a click, in search mode, in confirmation mode or in normal mode.
     */
    method HandleKey(key: Option<Key>, env: Env)
      requires Valid(Model(), uni.lower)
      modifies this
      ensures Model() == Step(old(Model()), key, env, uni)
      ensures Valid(Model(), uni.lower)
    {
      StepValid(Model(), key, env, uni);
      if key.None? {
        return;
      }
      message := NoMessage;
      Dispatch(key.value, env);
    }

    /** A key after the message is cleared: a click in any mode, else by the current mode. */
    method Dispatch(k: Key, env: Env)
      requires Valid(Model(), uni.lower)
      modifies this
      ensures Model() == Picker.Dispatch(old(Model()), k, env, uni)
    {
      if k.MouseClick? {
        Click(k.x, k.y);
      } else if searchMode {
        SearchKey(k);
      } else if confirmDelete {
        ConfirmKey(k);
      } else {
        NormalKey(k, env);
      }
    }

    method Click(x: int, y: int)
      modifies this
      ensures Model() == Picker.Click(old(Model()), x, y)
    {
      if ListStartRow <= y < ListStartRow + listHeight && visible != [] {
        var clicked := y - ListStartRow + scroll;
        if 0 <= clicked < |visible| {
          cursor := clicked;
          selected := Toggle(selected, visible[clicked]);
        }
      }
    }

    method SearchKey(k: Key)
      modifies this
      ensures Model() == Picker.SearchKey(old(Model()), k, uni)
    {
      if k == Escape || k == Enter {
        searchMode := false;
      } else {
        EditQuery(k);
      }
    }

    /** The search-mode keys that edit the query: Backspace, Ctrl-C and characters. */
    method EditQuery(k: Key)
      requires k != Escape && k != Enter
      modifies this
      ensures Model() == Picker.SearchKey(old(Model()), k, uni)
    {
      if k == Backspace {
        EraseChar();
      } else if k == CtrlC {
        ClearSearch();
      } else if k.Char? {
        TypeChar(k.c);
      }
    }

    /** Ctrl-C in search mode empties the query and leaves the mode. */
    method ClearSearch()
      modifies this
      ensures Model() == Picker.ClearSearch(old(Model()), uni.lower)
    {
      query := [];
      searchMode := false;
      Filter();
    }

    /** A printable character typed in search mode extends the query. */
    method TypeChar(c: char)
      modifies this
      ensures Model() == Picker.TypeChar(old(Model()), c, uni)
    {
      if uni.isPrintable(c) {
        query := query + [c];
        Filter();
      }
    }

    /** Backspace in search mode drops the last query character, or leaves search mode on an empty query. */
    method EraseChar()
      modifies this
      ensures Model() == Picker.EraseChar(old(Model()), uni.lower)
    {
      if query != [] {
        query := query[..|query| - 1];
        Filter();
      } else {
        searchMode := false;
      }
    }

    method ConfirmKey(k: Key)
      requires forall j :: 0 <= j < |pendingDelete| ==> 0 <= pendingDelete[j] < |projects|
      modifies this
      ensures Model() == Picker.ConfirmKey(old(Model()), k, uni.lower)
    {
      if k == Char('y') || k == Char('Y') {
        ConfirmDelete();
      } else if k == Char('n') || k == Char('N') || k == Escape || k == CtrlC {
        CancelDelete();
      }
    }

    /** `n`, Esc or Ctrl-C in confirmation mode cancels the deletion. */
    method CancelDelete()
      modifies this
      ensures Model() == Picker.CancelDelete(old(Model()))
    {
      confirmDelete, pendingDelete, message := false, [], CancelledDelete;
    }

    /** `y` in confirmation mode deletes the pending items and leaves the mode. */
    method ConfirmDelete()
      requires forall j :: 0 <= j < |pendingDelete| ==> 0 <= pendingDelete[j] < |projects|
      modifies this
      ensures Model() == Picker.ConfirmYes(old(Model()), uni.lower)
    {
      DoDelete(pendingDelete);
      confirmDelete := false;
      pendingDelete := [];
    }

    method NormalKey(k: Key, env: Env)
      requires Valid(Model(), uni.lower)
      modifies this
      ensures Model() == Picker.NormalKey(old(Model()), k, env, uni.lower)
    {
      if k.Char? {
        CharKey(k.c, env);
      } else if k.Up? || k.Down? || k.PageUp? || k.PageDown? || k.Home? || k.End? {
        Navigate(k);
      } else {
        ControlKey(k);
      }
    }

    /** The keys of normal mode that are neither characters nor navigation. */
    method ControlKey(k: Key)
      requires Valid(Model(), uni.lower)
      modifies this
      ensures Model() == Picker.ControlKey(old(Model()), k, uni.lower)
    {
      if k == CtrlC || k == CtrlD {
        running := false;
      } else if k == Escape {
        EscapeKey();
      } else if k == Enter {
        OpenHere();
      } else if k == Backspace {
        ClearQuery();
      }
    }

    /** Backspace in normal mode empties an active query. */
    method ClearQuery()
      modifies this
      ensures Model() == Picker.ClearQuery(old(Model()), uni.lower)
    {
      if query != [] {
        query := [];
        Filter();
      }
    }

    method CharKey(c: char, env: Env)
      requires Valid(Model(), uni.lower)
      modifies this
      ensures Model() == Picker.CharKey(old(Model()), c, env, uni.lower)
    {
      if c == 'q' || c == 'Q' {
        running := false;
      } else if c == 'k' || c == 'j' || c == 'g' || c == 'G' {
        Navigate(Char(c));
      } else if c == '/' {
        searchMode := true;
      } else if c == ' ' || c == 'a' || c == 'A' {
        SelectKey(Char(c));
      } else {
        CommandKey(c, env);
      }
    }

    /** The letters that act on items: open, delete, reload, copy, reveal, undo. */
    method CommandKey(c: char, env: Env)
      requires Valid(Model(), uni.lower)
      modifies this
      ensures Model() == Picker.CommandKey(old(Model()), c, env, uni.lower)
    {
      if c == 'n' || c == 'N' || c == 'w' || c == 'W' {
        OpenKey(Char(c));
      } else if c == 'd' || c == 'D' {
        RequestDelete();
      } else if c == 'r' || c == 'R' {
        Reload(env);
      } else if c == 'y' || c == 'Y' || c == 'o' || c == 'O' {
        ToolKey(Char(c), env);
      } else if c == 'u' || c == 'U' {
        UndoDelete();
      }
    }

    method EscapeKey()
      modifies this
      ensures Model() == Picker.EscapeKey(old(Model()), uni.lower)
    {
      if query != [] {
        query := [];
        Filter();
      } else if selected != {} {
        selected := {};
      } else {
        running := false;
      }
    }

    method Navigate(k: Key)
      modifies this
      ensures Model() == Picker.Navigate(old(Model()), k)
    {
      if k == Up || k == Char('k') || k == Down || k == Char('j') {
        LineMove(k);
      } else {
        JumpMove(k);
      }
    }

    /** One row up or down, scrolling the window when the cursor leaves it. */
    method LineMove(k: Key)
      requires k == Up || k == Char('k') || k == Down || k == Char('j')
      modifies this
      ensures Model() == Picker.Navigate(old(Model()), k)
    {
      if k == Up || k == Char('k') {
        LineUp();
      } else {
        LineDown();
      }
    }

    /** Up / `k`: one row up, scrolling when the cursor leaves the window at the top. */
    method LineUp()
      modifies this
      ensures Model() == Picker.LineUp(old(Model()))
    {
      if cursor > 0 {
        cursor := cursor - 1;
        if cursor < scroll {
          scroll := cursor;
        }
      }
    }

    /** Down / `j`: one row down, scrolling when the cursor leaves the window at the bottom. */
    method LineDown()
      modifies this
      ensures Model() == Picker.LineDown(old(Model()))
    {
      if cursor < |visible| - 1 {
        cursor := cursor + 1;
        if cursor >= scroll + listHeight {
          scroll := cursor - listHeight + 1;
        }
      }
    }

    /** A page back or forward, or a jump to the first or last item. */
    method JumpMove(k: Key)
      requires !(k == Up || k == Char('k') || k == Down || k == Char('j'))
      modifies this
      ensures Model() == Picker.Navigate(old(Model()), k)
    {
      match k
      case PageUp =>
        cursor := Max(0, cursor - listHeight);
        scroll := Max(0, scroll - listHeight);
      case PageDown =>
        cursor := Min(|visible| - 1, cursor + listHeight);
        scroll := Min(Max(0, |visible| - listHeight), scroll + listHeight);
      case Home | Char('g') =>
        cursor := 0;
        scroll := 0;
      case End | Char('G') =>
        cursor := Max(0, |visible| - 1);
        scroll := Max(0, |visible| - listHeight);
      case _ =>
    }

    method SelectKey(k: Key)
      requires CursorInRange(Model())
      modifies this
      ensures Model() == Picker.SelectKey(old(Model()), k)
    {
      if k == Char(' ') {
        if visible != [] {
          selected := Toggle(selected, PyIndex(visible, cursor));
        }
      } else if |selected| == |visible| {
        selected := {};
      } else {
        selected := set i | i in visible;
      }
    }

    method OpenKey(k: Key)
      requires CursorInRange(Model()) && IndicesInRange(Model())
      requires forall i :: i in visible ==> 0 <= i < |projects|
      modifies this
      ensures Model() == Picker.OpenKey(old(Model()), k)
    {
      if k == Enter {
        OpenHere();
      } else if k == Char('n') || k == Char('N') {
        OpenInNewWindow();
      } else {
        OpenAsWorkspace();
      }
    }

    /** Enter: open the selection in a new window, or the current item here, and quit. */
    method OpenHere()
      requires CursorInRange(Model()) && IndicesInRange(Model())
      requires forall i :: i in visible ==> 0 <= i < |projects|
      modifies this
      ensures Model() == Picker.OpenHere(old(Model()))
    {
      if visible != [] {
        if selected != {} {
          intents := intents + [OpenProjects(SelectedItems(Model()), true, false)];
        } else {
          intents := intents + [OpenProjects([Current(Model())], false, false)];
        }
        running := false;
      }
    }

    /** `n`: open the selection, or the current item, in a new window. */
    method OpenInNewWindow()
      requires CursorInRange(Model()) && IndicesInRange(Model())
      requires forall i :: i in visible ==> 0 <= i < |projects|
      modifies this
      ensures Model() == Picker.OpenInNewWindow(old(Model()))
    {
      if visible != [] {
        if selected != {} {
          intents := intents + [OpenProjects(SelectedItems(Model()), true, false)];
          message := OpenedSelectedInNewWindow(|selected|);
          selected := {};
        } else {
          var p := Current(Model());
          intents := intents + [OpenProjects([p], true, false)];
          message := OpenedInNewWindow(p.name);
        }
      }
    }

    /** `w`: open the selection as one workspace, or the current item in a new window. */
    method OpenAsWorkspace()
      requires CursorInRange(Model()) && IndicesInRange(Model())
      requires forall i :: i in visible ==> 0 <= i < |projects|
      modifies this
      ensures Model() == Picker.OpenAsWorkspace(old(Model()))
    {
      if selected != {} {
        intents := intents + [OpenProjects(SelectedItems(Model()), false, true)];
        message := OpenedAsWorkspace(|selected|);
        selected := {};
      } else if visible != [] {
        var p := Current(Model());
        intents := intents + [OpenProjects([p], true, false)];
        message := Opened(p.name);
      }
    }

    method RequestDelete()
      requires CursorInRange(Model()) && IndicesInRange(Model())
      requires forall i :: i in visible ==> 0 <= i < |projects|
      modifies this
      ensures Model() == Picker.RequestDelete(old(Model()))
    {
      if visible != [] {
        var pending := if selected != {} then SortedElements(selected, |projects|)
                       else [PyIndex(visible, cursor)];
        pendingDelete := pending;
        confirmDelete := true;
        message := ConfirmPrompt(PromptNames(projects, pending), |pending|);
      }
    }

    method Reload(env: Env)
      modifies this
      ensures Model() == Picker.Reload(old(Model()), env, uni.lower)
    {
      ReplaceProjects(env.reloaded);
      Filter();
      message := Reloaded;
    }

    /** The part of `r` before the refilter: the fresh list, with no selection and no undo buffer. */
    method ReplaceProjects(loaded: seq<Project>)
      modifies this
      ensures Model() == old(Model()).(projects := loaded, selected := {}, lastDeleted := [],
                                       intents := old(intents) + [LoadProjects])
    {
      projects := loaded;
      selected := {};
      lastDeleted := [];
      intents := intents + [LoadProjects];
    }

    method ToolKey(k: Key, env: Env)
      requires CursorInRange(Model()) && IndicesInRange(Model())
      requires forall i :: i in visible ==> 0 <= i < |projects|
      modifies this
      ensures Model() == Picker.ToolKey(old(Model()), k, env)
    {
      if visible != [] {
        var p := Current(Model());
        if k == Char('y') || k == Char('Y') {
          intents := intents + [CopyToClipboard(p.fullPath)];
          message := if env.clipboardOk then CopiedPath(p.name) else CopyFailed;
        } else {
          var path := if p.kind == Folder then p.fullPath else p.path;
          intents := intents + [OpenInFileManager(path)];
          message := if env.fileManagerOk then Revealed(p.name) else RevealFailed;
        }
      }
    }

    /**
     * `draw`: fit the window to the terminal, make the cursor and window agree, then
     * build the frame line by line.
     */
    method Draw(rows: int, cols: int, eaw: char -> EastAsianWidth) returns (frame: Frame)
      requires Valid(Model(), uni.lower)
      modifies this
      ensures Model() == NormalizeView(old(Model()), rows)
      ensures Valid(Model(), uni.lower)
      ensures frame == FrameOf(Model(), cols, eaw)
    {
      NormalizeViewWindow(Model(), rows, uni.lower);
      Normalize(rows);
      frame := Compose(cols, eaw);
    }

    /** The first part of `draw`: the window height, then the cursor and scroll offset. */
    method Normalize(rows: int)
      modifies this
      ensures Model() == NormalizeView(old(Model()), rows)
    {
      listHeight := rows - 8;
      if listHeight < 3 {
        listHeight := 3;
      }
      if visible != [] {
        if cursor >= |visible| {
          cursor := |visible| - 1;
        }
        if cursor < scroll {
          scroll := cursor;
        } else if cursor >= scroll + listHeight {
          scroll := cursor - listHeight + 1;
        }
        var maxScroll := Max(0, |visible| - listHeight);
        if scroll > maxScroll {
          scroll := maxScroll;
        }
      }
    }

    /** The lines of `draw`: header, list rows, padding, footer; or the row loop's IndexError. */
    method Compose(cols: int, eaw: char -> EastAsianWidth) returns (frame: Frame)
      requires Drawable(Model())
      ensures frame == FrameOf(Model(), cols, eaw)
    {
      var nameW := Min(45, Max(25, cols * 40 / 100));
      var pathW := cols - nameW - 14;
      if pathW < 15 {
        pathW := 15;
      }
      var items := ListLines(nameW, pathW, eaw);
      if items.None? {
        return Frame.IndexError;
      }
      var head := HeaderLines(cols);
      var lines := PadLines(head + items.value, listHeight);
      var foot := FooterLines(cols);
      frame := Frame(lines + foot);
    }

    /** The title, the rule, the search box and the rule. */
    method HeaderLines(cols: int) returns (lines: seq<Line>)
      ensures lines == Header(Model(), cols)
    {
      var total := |visible|;
      var box := if searchMode then Typing(query) else if query != [] then Filtered(query) else Placeholder;
      lines := [Title(|selected|, if total > 0 then Some((cursor + 1, total)) else None), Rule(cols - 1),
                Search(box), Rule(cols - 1)];
    }

    /** The list rows from the scroll offset to the end of the window; `None` where `visible[i]` raises. */
    method ListLines(nameW: int, pathW: int, eaw: char -> EastAsianWidth) returns (r: Option<seq<Line>>)
      requires Drawable(Model())
      ensures r.None? <==> RowLoopFails(Model())
      ensures r.Some? ==> r.value == ListRows(Model(), scroll, Min(scroll + listHeight, |visible|), nameW, pathW, eaw)
    {
      ghost var m := Model();
      var lo, total := scroll, |visible|;
      var end := Min(lo + listHeight, total);
      var lines: seq<Line> := [];
      var i := lo;
      while i < end
        invariant lo <= i && (i > lo ==> i <= end && -total <= lo)
        invariant lines == ListRows(m, lo, i, nameW, pathW, eaw)
      {
        if i < -total {
          return None;
        }
        var row := RowLine(i, nameW, pathW, eaw);
        ListRowsSnoc(m, lo, i, nameW, pathW, eaw);
        lines := lines + [Item(row)];
        i := i + 1;
      }
      r := Some(lines);
    }

    /** One list row: cursor and selection markers, kind, and the cut and padded name and path. */
    method RowLine(i: int, nameW: int, pathW: int, eaw: char -> EastAsianWidth) returns (row: Row)
      requires -|visible| <= i < |visible|
      requires forall k :: 0 <= k < |visible| ==> 0 <= visible[k] < |projects|
      ensures row == RowAt(Model(), i, nameW, pathW, eaw)
    {
      var idx := PyIndex(visible, i);
      var p := projects[idx];
      var nameCut := StrCut(Label(p), nameW, "..", eaw);
      var pathCut := StrCut(ShownPath(p), pathW, "..", eaw);
      row := Row(i == cursor, idx in selected, p.kind, !p.pathExists, p.tag != [],
                 StrPad(nameCut, nameW, Align.Left, " ", eaw), StrPad(pathCut, pathW, Align.Left, " ", eaw));
    }

    /** The rule, the status line, the rule and the help bar of the current mode. */
    method FooterLines(cols: int) returns (lines: seq<Line>)
      requires CursorInRange(Model())
      requires forall k :: 0 <= k < |visible| ==> 0 <= visible[k] < |projects|
      ensures lines == Footer(Model(), cols)
    {
      var status;
      if message != NoMessage {
        status := ShowMessage(message);
      } else if visible != [] {
        var p := projects[PyIndex(visible, cursor)];
        var shownPath := if p.displayPath != [] then p.displayPath else p.fullPath;
        status := if !p.pathExists then MissingPath(shownPath) else ShowPath(shownPath, p.displayPath != []);
      } else {
        status := NoMatches;
      }
      var help;
      if confirmDelete {
        help := ConfirmHelp;
      } else if searchMode {
        help := SearchHelp;
      } else if cols >= 100 {
        help := WideHelp(lastDeleted != []);
      } else {
        help := NarrowHelp(lastDeleted != []);
      }
      lines := [Rule(cols - 1), StatusLine(status), Rule(cols - 1), HelpLine(help)];
    }
  }

  /** The padding loop of `draw`: blank lines until the four header lines and the window are filled. */
  method PadLines(lines: seq<Line>, height: int) returns (padded: seq<Line>)
    ensures padded == lines + Blanks(height + 4 - |lines|)
  {
    padded := lines;
    while |padded| - 4 < height
      invariant |lines| <= |padded| <= Max(|lines|, height + 4)
      invariant padded == lines + Blanks(|padded| - |lines|)
    {
      BlanksSnoc(|padded| - |lines|);
      padded := padded + [Blank];
    }
  }

  /** The comprehension of `filter`: every index when the query is empty, else those whose name or path contains it. */
  method FilteredIndices(projects: seq<Project>, query: string, lower: string -> string) returns (vis: seq<int>)
    ensures vis == FilterIndices(projects, query, lower)
  {
    if query == [] {
      vis := AllIndices(projects, lower);
    } else {
      vis := MatchingIndices(projects, query, lower);
    }
  }

  /** `list(range(len(projects)))`. */
  method AllIndices(projects: seq<Project>, lower: string -> string) returns (vis: seq<int>)
    ensures vis == FilterIndices(projects, [], lower)
  {
    vis := [];
    var i := 0;
    while i < |projects|
      invariant 0 <= i <= |projects|
      invariant vis == ListedBelow(projects, [], lower, i)
    {
      vis := vis + [i];
      i := i + 1;
    }
  }

  /** The indices whose lower-cased name or path contains the lower-cased query. */
  method MatchingIndices(projects: seq<Project>, query: string, lower: string -> string) returns (vis: seq<int>)
    requires query != []
    ensures vis == FilterIndices(projects, query, lower)
  {
    vis := [];
    var q := lower(query);
    var i := 0;
    while i < |projects|
      invariant 0 <= i <= |projects|
      invariant vis == ListedBelow(projects, query, lower, i)
    {
      var p := projects[i];
      if Contains(lower(p.name), q) || Contains(lower(p.path), q) {
        vis := vis + [i];
      }
      i := i + 1;
    }
  }

  /** The comprehension of `_do_delete`: the projects whose uri is not among those deleted, in order. */
  method KeepOthers(projects: seq<Project>, uris: set<string>) returns (kept: seq<Project>)
    ensures kept == WithoutUris(projects, uris)
  {
    kept := [];
    var i := 0;
    while i < |projects|
      invariant 0 <= i <= |projects|
      invariant kept == KeptPrefix(projects, uris, i)
    {
      KeptStep(projects, uris, i);
      if projects[i].uri !in uris {
        kept := kept + [projects[i]];
      }
      i := i + 1;
    }
  }
}
