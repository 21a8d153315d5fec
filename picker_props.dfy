/**
 * Properties of the picker's state machine: the invariant every key keeps, the
 * scroll window of the navigation keys, selection, deletion with confirmation, undo,
 * and the behaviours `App.handle_key` shows on edge inputs.
 */
module PickerProperties {
  import opened Common
  import opened TextMetrics
  import opened KeyDecode
  import opened Projects
  import opened Picker

  // ---------------------------------------------------------------------------
  // The invariant
  // ---------------------------------------------------------------------------

  /** The initial state is valid whatever the Unicode tables. */
  lemma InitialValid(lower: string -> string)
    ensures Valid(Initial(), lower)
  {
    assert FilterIndices([], "", lower) == [];
  }

  lemma ClickValid(s: AppState, x: int, y: int, lower: string -> string)
    requires Valid(s, lower)
    ensures Valid(Click(s, x, y), lower)
  {
    if ListStartRow <= y < ListStartRow + s.listHeight && s.visible != [] {
      var clicked := y - ListStartRow + s.scroll;
      if 0 <= clicked < |s.visible| {
        assert s.visible[clicked] in s.visible;
      }
    }
  }

  lemma SearchValid(s: AppState, k: Key, uni: Unicode)
    requires Valid(s, uni.lower) && s.searchMode
    ensures Valid(SearchKey(s, k, uni), uni.lower)
  {
    match k
    case Backspace =>
      if s.query != [] {
        RefilterKeepsWindow(s.(query := s.query[..|s.query| - 1]), uni.lower);
      }
    case CtrlC =>
      RefilterKeepsWindow(s.(query := [], searchMode := false), uni.lower);
    case Char(c) =>
      if uni.isPrintable(c) {
        RefilterKeepsWindow(s.(query := s.query + [c]), uni.lower);
      }
    case _ =>
  }

  lemma DoDeleteWindow(s: AppState, indices: seq<int>, lower: string -> string)
    requires Valid(s, lower)
    requires forall k :: 0 <= k < |indices| ==> 0 <= indices[k] < |s.projects|
    ensures var t := DoDelete(s, indices, lower);
      t.listHeight == s.listHeight &&
      t.visible == FilterIndices(t.projects, t.query, lower) &&
      CursorInRange(t) &&
      (indices != [] ==> t.selected == {}) &&
      (indices == [] ==> t == s)
  {
    if indices != [] {
      var deleted := Pick(s.projects, indices);
      var kept := WithoutUris(s.projects, UrisAt(s.projects, indices));
      var t := s.(lastDeleted := deleted, projects := kept, selected := {},
                  intents := s.intents + [SaveProjects(kept)]);
      RefilterKeepsWindow(t, lower);
    }
  }

  lemma ConfirmValid(s: AppState, k: Key, lower: string -> string)
    requires Valid(s, lower) && s.confirmDelete
    ensures Valid(ConfirmKey(s, k, lower), lower)
  {
    if k == Char('y') || k == Char('Y') {
      DoDeleteWindow(s, s.pendingDelete, lower);
    }
  }

  lemma UndoWindow(s: AppState, lower: string -> string)
    requires Valid(s, lower) && !s.confirmDelete
    ensures Valid(UndoDelete(s, lower), lower)
  {
    if s.lastDeleted != [] {
      var all := s.lastDeleted + s.projects;
      var t := s.(projects := all, lastDeleted := [], intents := s.intents + [SaveAllProjects(all)]);
      RefilterKeepsWindow(t, lower);
    }
  }

  /** Moving the cursor and the scroll offset within their ranges keeps the invariant. */
  lemma MoveValid(s: AppState, cursor: int, scroll: int, lower: string -> string)
    requires Valid(s, lower)
    requires -1 <= cursor <= Max(0, |s.visible| - 1) && -1 <= scroll
    ensures Valid(s.(cursor := cursor, scroll := scroll), lower)
  {
  }

  lemma NavigateValid(s: AppState, k: Key, lower: string -> string)
    requires Valid(s, lower)
    ensures Valid(Navigate(s, k), lower)
  {
    match k
    case Up | Char('k') => LineUpValid(s, lower);
    case Down | Char('j') => LineDownValid(s, lower);
    case PageUp => PageBackValid(s, lower);
    case PageDown => PageForwardValid(s, lower);
    case Home | Char('g') => MoveValid(s, 0, 0, lower);
    case End | Char('G') => ToLastValid(s, lower);
    case _ =>
  }

  lemma LineUpValid(s: AppState, lower: string -> string)
    requires Valid(s, lower)
    ensures Valid(LineUp(s), lower)
  {
    MoveValid(s, LineUp(s).cursor, LineUp(s).scroll, lower);
  }

  lemma LineDownValid(s: AppState, lower: string -> string)
    requires Valid(s, lower)
    ensures Valid(LineDown(s), lower)
  {
    MoveValid(s, LineDown(s).cursor, LineDown(s).scroll, lower);
  }

  lemma PageBackValid(s: AppState, lower: string -> string)
    requires Valid(s, lower)
    ensures Valid(PageBack(s), lower)
  {
    MoveValid(s, PageBack(s).cursor, PageBack(s).scroll, lower);
  }

  lemma PageForwardValid(s: AppState, lower: string -> string)
    requires Valid(s, lower)
    ensures Valid(PageForward(s), lower)
  {
    MoveValid(s, PageForward(s).cursor, PageForward(s).scroll, lower);
  }

  lemma ToLastValid(s: AppState, lower: string -> string)
    requires Valid(s, lower)
    ensures Valid(ToLast(s), lower)
  {
    MoveValid(s, ToLast(s).cursor, ToLast(s).scroll, lower);
  }

  lemma SelectValid(s: AppState, k: Key, lower: string -> string)
    requires Valid(s, lower)
    ensures Valid(SelectKey(s, k), lower)
  {
    if k == Char(' ') && s.visible != [] {
      assert PyIndex(s.visible, s.cursor) in s.visible;
    }
  }

  lemma RequestDeleteValid(s: AppState, lower: string -> string)
    requires Valid(s, lower) && !s.confirmDelete && !s.searchMode
    ensures Valid(RequestDelete(s), lower)
  {
    if s.visible != [] && s.selected == {} {
      assert PyIndex(s.visible, s.cursor) in s.visible;
    }
  }

  /** Changing only the effect log, the message, `running` and shrinking the selection keeps the invariant. */
  lemma EffectValid(s: AppState, t: AppState, lower: string -> string)
    requires Valid(s, lower)
    requires t == s.(intents := t.intents, message := t.message, running := t.running, selected := t.selected)
    requires t.selected <= s.selected
    ensures Valid(t, lower)
  {
  }

  lemma OpenValid(s: AppState, k: Key, lower: string -> string)
    requires Valid(s, lower)
    ensures Valid(OpenKey(s, k), lower)
  {
    if k == Enter {
      OpenHereValid(s, lower);
    } else if k == Char('n') || k == Char('N') {
      OpenInNewWindowValid(s, lower);
    } else {
      OpenAsWorkspaceValid(s, lower);
    }
  }

  lemma OpenHereValid(s: AppState, lower: string -> string)
    requires Valid(s, lower)
    ensures Valid(OpenHere(s), lower)
  {
    EffectValid(s, OpenHere(s), lower);
  }

  lemma OpenInNewWindowValid(s: AppState, lower: string -> string)
    requires Valid(s, lower)
    ensures Valid(OpenInNewWindow(s), lower)
  {
    EffectValid(s, OpenInNewWindow(s), lower);
  }

  lemma OpenAsWorkspaceValid(s: AppState, lower: string -> string)
    requires Valid(s, lower)
    ensures Valid(OpenAsWorkspace(s), lower)
  {
    EffectValid(s, OpenAsWorkspace(s), lower);
  }

  lemma ToolValid(s: AppState, k: Key, env: Env, lower: string -> string)
    requires Valid(s, lower)
    ensures Valid(ToolKey(s, k, env), lower)
  {
    var t := ToolKey(s, k, env);
    EffectValid(s, t, lower);
  }

  lemma ReloadValid(s: AppState, env: Env, lower: string -> string)
    requires Valid(s, lower) && !s.confirmDelete
    ensures Valid(Reload(s, env, lower), lower)
  {
    var r := s.(projects := env.reloaded, selected := {}, lastDeleted := [],
                intents := s.intents + [LoadProjects]);
    RefilterKeepsWindow(r, lower);
  }

  lemma ClearQueryValid(s: AppState, lower: string -> string)
    requires Valid(s, lower)
    ensures Valid(Refilter(s.(query := []), lower), lower)
  {
    RefilterKeepsWindow(s.(query := []), lower);
  }

  lemma NormalValid(s: AppState, k: Key, env: Env, lower: string -> string)
    requires Valid(s, lower) && !s.searchMode && !s.confirmDelete
    ensures Valid(NormalKey(s, k, env, lower), lower)
  {
    if k.Char? {
      CharValid(s, k.c, env, lower);
    } else if k.Up? || k.Down? || k.PageUp? || k.PageDown? || k.Home? || k.End? {
      NavigateValid(s, k, lower);
    } else {
      ControlValid(s, k, lower);
    }
  }

  lemma ControlValid(s: AppState, k: Key, lower: string -> string)
    requires Valid(s, lower) && !s.searchMode && !s.confirmDelete
    ensures Valid(Picker.ControlKey(s, k, lower), lower)
  {
    if k == Escape || k == Backspace {
      if s.query != [] {
        ClearQueryValid(s, lower);
      }
    } else if k == Enter {
      OpenHereValid(s, lower);
    }
  }

  lemma CharValid(s: AppState, c: char, env: Env, lower: string -> string)
    requires Valid(s, lower) && !s.searchMode && !s.confirmDelete
    ensures Valid(NormalKey(s, Char(c), env, lower), lower)
  {
    var k := Char(c);
    if (c == 'q' || c == 'Q') {
    } else if (c == 'k' || c == 'j' || c == 'g' || c == 'G') {
      NavigateValid(s, k, lower);
    } else if c == '/' {
    } else if (c == ' ' || c == 'a' || c == 'A') {
      SelectValid(s, k, lower);
    } else if (c == 'n' || c == 'N' || c == 'w' || c == 'W') {
      OpenValid(s, k, lower);
    } else if (c == 'd' || c == 'D') {
      RequestDeleteValid(s, lower);
    } else if (c == 'r' || c == 'R') {
      ReloadValid(s, env, lower);
    } else if (c == 'y' || c == 'Y' || c == 'o' || c == 'O') {
      ToolValid(s, k, env, lower);
    } else if (c == 'u' || c == 'U') {
      UndoWindow(s, lower);
    }
  }

  /** Every key, in every mode, keeps the invariant. */
  lemma StepValid(s: AppState, key: Option<Key>, env: Env, uni: Unicode)
    requires Valid(s, uni.lower)
    ensures Valid(Step(s, key, env, uni), uni.lower)
  {
    if key.Some? {
      var k := key.value;
      var t := s.(message := NoMessage);
      if k.MouseClick? {
        ClickValid(t, k.x, k.y, uni.lower);
      } else if t.searchMode {
        SearchValid(t, k, uni);
      } else if t.confirmDelete {
        ConfirmValid(t, k, uni.lower);
      } else {
        NormalValid(t, k, env, uni.lower);
      }
    }
  }

  // ---------------------------------------------------------------------------
  // Filtering and the scroll window
  // ---------------------------------------------------------------------------

  function Named(name: string, path: string): Project
  {
    Project("file://" + path, name, path, path, "", Folder, "", true)
  }

  /**
   * Typing one more character only narrows the view, when lower-casing keeps the
   * typed character on its own (as it does for text without special casing).
   */
  lemma QueryNarrows(projects: seq<Project>, query: string, c: char, lower: string -> string)
    requires lower(query + [c]) == lower(query) + lower([c])
    ensures forall i :: i in FilterIndices(projects, query + [c], lower) ==> i in FilterIndices(projects, query, lower)
  {
    forall i | Listed(projects, query + [c], lower, i) ensures Listed(projects, query, lower, i) {
      if query != [] {
        var p := projects[i];
        if Contains(lower(p.name), lower(query + [c])) {
          ContainsExtended(lower(p.name), lower(query), lower([c]));
        } else {
          ContainsExtended(lower(p.path), lower(query), lower([c]));
        }
      }
    }
  }

  /** With an empty query the view is the whole list, in order. */
  lemma {:induction false} EmptyQueryListsAll(projects: seq<Project>, lower: string -> string)
    ensures FilterIndices(projects, [], lower) == seq(|projects|, i => i)
  {
    EmptyQueryListsBelow(projects, lower, |projects|);
  }

  lemma {:induction false} EmptyQueryListsBelow(projects: seq<Project>, lower: string -> string, n: nat)
    requires n <= |projects|
    ensures ListedBelow(projects, [], lower, n) == seq(n, i => i)
  {
    if n > 0 {
      EmptyQueryListsBelow(projects, lower, n - 1);
      assert seq(n, i => i) == seq(n - 1, i => i) + [n - 1];
    }
  }

  /** A query keeps the items whose name contains it, in list order. */
  lemma FilterExample()
    ensures FilterIndices([Named("foo", "/a"), Named("bar", "/b"), Named("foobar", "/c")], "foo", s => s)
         == [0, 2]
  {
    FooBarBazView([Named("foo", "/a"), Named("bar", "/b"), Named("foobar", "/c")], s => s);
  }

  lemma FooBarBazView(ps: seq<Project>, lower: string -> string)
    requires ps == [Named("foo", "/a"), Named("bar", "/b"), Named("foobar", "/c")]
    requires forall t :: lower(t) == t
    ensures FilterIndices(ps, "foo", lower) == [0, 2]
  {
    FooListed(ps[0], lower);
    BarNotListed(ps[1], lower);
    FooBarListed(ps[2], lower);
    FirstAndThirdListed(ps, "foo", lower);
  }

  lemma FirstAndThirdListed(ps: seq<Project>, query: string, lower: string -> string)
    requires |ps| == 3
    requires Listed(ps, query, lower, 0) && !Listed(ps, query, lower, 1) && Listed(ps, query, lower, 2)
    ensures FilterIndices(ps, query, lower) == [0, 2]
  {
    ListedBelowStep(ps, query, lower, 0);
    ListedBelowStep(ps, query, lower, 1);
    ListedBelowStep(ps, query, lower, 2);
  }

  lemma FooListed(p: Project, lower: string -> string)
    requires p == Named("foo", "/a")
    requires forall t :: lower(t) == t
    ensures Matches(p, lower("foo"), lower)
  {
    assert Contains("foo", "foo");
  }

  lemma BarNotListed(p: Project, lower: string -> string)
    requires p == Named("bar", "/b")
    requires forall t :: lower(t) == t
    ensures !Matches(p, lower("foo"), lower)
  {
    ContainsLonger("ar", "foo");
    ContainsLonger("/b", "foo");
    assert !("foo" <= "bar") by { assert "bar"[0] != "foo"[0]; }
  }

  lemma FooBarListed(p: Project, lower: string -> string)
    requires p == Named("foobar", "/c")
    requires forall t :: lower(t) == t
    ensures Matches(p, lower("foo"), lower)
  {
    assert "foo" <= "foobar";
  }

  lemma ListedBelowStep(projects: seq<Project>, query: string, lower: string -> string, n: nat)
    requires n < |projects|
    ensures ListedBelow(projects, query, lower, n + 1) ==
      if Listed(projects, query, lower, n) then ListedBelow(projects, query, lower, n) + [n]
      else ListedBelow(projects, query, lower, n)
  {
  }

  /** The rows the list shows are `scroll .. scroll + listHeight - 1`; the cursor row is one of them. */
  predicate InWindow(s: AppState)
  {
    s.scroll <= s.cursor < s.scroll + s.listHeight
  }

  /**
   * Every navigation key keeps the cursor on an item of a non-empty view and keeps
   * the cursor row inside the scroll window.
   */
  /** The cursor is on an item and its row is inside the window. */
  predicate OnScreen(s: AppState)
  {
    s.listHeight >= 1 && 0 <= s.cursor < |s.visible| && InWindow(s)
  }

  lemma NavigateKeepsWindow(s: AppState, k: Key)
    requires OnScreen(s)
    ensures OnScreen(Navigate(s, k)) && Navigate(s, k).visible == s.visible
  {
    match k
    case Up | Char('k') => LineUpWindow(s);
    case Down | Char('j') => LineDownWindow(s);
    case PageUp => PageBackWindow(s);
    case PageDown => PageForwardWindow(s);
    case Home | Char('g') =>
    case End | Char('G') => ToLastWindow(s);
    case _ =>
  }

  lemma LineUpWindow(s: AppState)
    requires OnScreen(s)
    ensures OnScreen(LineUp(s)) && LineUp(s).visible == s.visible
  {
  }

  lemma LineDownWindow(s: AppState)
    requires OnScreen(s)
    ensures OnScreen(LineDown(s)) && LineDown(s).visible == s.visible
  {
  }

  lemma PageBackWindow(s: AppState)
    requires OnScreen(s)
    ensures OnScreen(PageBack(s)) && PageBack(s).visible == s.visible
  {
    var h := s.listHeight;
    assert Max(0, s.scroll - h) <= Max(0, s.cursor - h) < Max(0, s.scroll - h) + h;
  }

  lemma PageForwardWindow(s: AppState)
    requires OnScreen(s)
    ensures OnScreen(PageForward(s)) && PageForward(s).visible == s.visible
  {
    var n := |s.visible|;
    var h := s.listHeight;
    var c := Min(n - 1, s.cursor + h);
    var sc := Min(Max(0, n - h), s.scroll + h);
    assert 0 <= c < n && sc <= c < sc + h;
  }

  lemma ToLastWindow(s: AppState)
    requires OnScreen(s)
    ensures OnScreen(ToLast(s)) && ToLast(s).visible == s.visible
  {
  }

  /** Down from the top of five items in a three-row window: the window follows the cursor. */
  lemma FourDownsScroll(s: AppState)
    requires s.visible == [0, 1, 2, 3, 4] && s.listHeight == 3 && s.cursor == 0 && s.scroll == 0
    ensures var t := Navigate(Navigate(Navigate(Navigate(s, Down), Down), Down), Down);
      t.cursor == 4 && t.scroll == 2
  {
  }

  /** PgDn on an empty view sets the cursor to -1 (the view has no last item). */
  lemma PageDownOnEmpty(s: AppState, env: Env, uni: Unicode)
    requires Valid(s, uni.lower) && !s.searchMode && !s.confirmDelete && s.visible == []
    ensures var t := Step(s, Some(PageDown), env, uni);
      t.cursor == -1 && t.scroll == 0
  {
  }

  /** No key (a read that timed out) changes nothing, not even the message. */
  lemma NoKeyNoChange(s: AppState, env: Env, uni: Unicode)
    requires Valid(s, uni.lower)
    ensures Step(s, None, env, uni) == s
  {
  }

  /** The keys that normal mode has no binding for: sideways arrows, Tab, Delete and unused letters. */
  predicate UnboundInNormalMode(k: Key)
  {
    k == Key.Left || k == Key.Right || k == Key.Tab || k == Key.Delete ||
    (k.Char? && k.c !in {'q', 'Q', 'k', 'j', 'g', 'G', '/', ' ', 'a', 'A', 'n', 'N', 'w', 'W',
                         'd', 'D', 'r', 'R', 'y', 'Y', 'o', 'O', 'u', 'U'})
  }

  /** Any key clears the previous message; a key normal mode does not bind changes nothing else. */
  lemma KeyClearsMessage(s: AppState, k: Key, env: Env, uni: Unicode)
    requires Valid(s, uni.lower) && !s.searchMode && !s.confirmDelete
    requires UnboundInNormalMode(k)
    ensures Step(s, Some(k), env, uni) == s.(message := NoMessage)
  {
  }

  // ---------------------------------------------------------------------------
  // Selection
  // ---------------------------------------------------------------------------

  /** Space toggles exactly the item under the cursor and changes nothing else but the message. */
  lemma SpaceToggles(s: AppState, env: Env, uni: Unicode)
    requires Valid(s, uni.lower) && !s.searchMode && !s.confirmDelete
    ensures var t := Step(s, Some(Char(' ')), env, uni);
      t == s.(selected := t.selected, message := NoMessage) &&
      (s.visible == [] ==> t.selected == s.selected) &&
      (s.visible != [] ==>
        var i := PyIndex(s.visible, s.cursor);
        (i in t.selected <==> i !in s.selected) &&
        (forall j :: j != i ==> (j in t.selected <==> j in s.selected)))
  {
  }

  /** Space twice gives back the selection it started from. */
  lemma SpaceTwiceRestores(s: AppState, env: Env, uni: Unicode)
    requires Valid(s, uni.lower) && !s.searchMode && !s.confirmDelete
    ensures var t := Step(s, Some(Char(' ')), env, uni);
      Valid(t, uni.lower) && Step(t, Some(Char(' ')), env, uni).selected == s.selected
  {
    var t := Step(s, Some(Char(' ')), env, uni);
    SpaceToggles(s, env, uni);
    StepValid(s, Some(Char(' ')), env, uni);
    SpaceToggles(t, env, uni);
    var u := Step(t, Some(Char(' ')), env, uni);
    assert forall j :: j in u.selected <==> j in s.selected;
  }

  /**
   * A click on a row that shows an item moves the cursor there and toggles that item,
   * in every mode: the search box and a pending confirmation are left as they were.
   */
  lemma ClickSelects(s: AppState, x: int, y: int, env: Env, uni: Unicode)
    requires Valid(s, uni.lower)
    requires ListStartRow <= y < ListStartRow + s.listHeight
    requires 0 <= y - ListStartRow + s.scroll < |s.visible|
    ensures var t := Step(s, Some(MouseClick(x, y)), env, uni);
      var clicked := y - ListStartRow + s.scroll;
      t.cursor == clicked &&
      t.selected == Toggle(s.selected, s.visible[clicked]) &&
      t == s.(cursor := clicked, selected := t.selected, message := NoMessage)
  {
  }

  /** A click outside the list rows only clears the message. */
  lemma ClickOutsideList(s: AppState, x: int, y: int, env: Env, uni: Unicode)
    requires Valid(s, uni.lower)
    requires y < ListStartRow || ListStartRow + s.listHeight <= y
    ensures Step(s, Some(MouseClick(x, y)), env, uni) == s.(message := NoMessage)
  {
  }

  /** `a` on a selection smaller or larger than the view selects the whole view; a second `a` clears it. */
  lemma SelectAllTwice(s: AppState, env: Env, uni: Unicode)
    requires Valid(s, uni.lower) && !s.searchMode && !s.confirmDelete
    requires |s.selected| != |s.visible|
    ensures var t := Step(s, Some(Char('a')), env, uni);
      Valid(t, uni.lower) &&
      (forall i :: i in t.selected <==> i in s.visible) &&
      Step(t, Some(Char('a')), env, uni).selected == {}
  {
    StepValid(s, Some(Char('a')), env, uni);
    SelectAllStep(s, env, uni);
    var t := Step(s, Some(Char('a')), env, uni);
    IncreasingCardinality(s.visible);
    SelectAllComparesSizes(t, env, uni);
  }

  /** `a` on a selection of another size selects the whole view and changes nothing else. */
  lemma SelectAllStep(s: AppState, env: Env, uni: Unicode)
    requires Valid(s, uni.lower) && !s.searchMode && !s.confirmDelete
    requires |s.selected| != |s.visible|
    ensures Step(s, Some(Char('a')), env, uni) == s.(message := NoMessage, selected := set i | i in s.visible)
  {
  }

  /**
   * `a` compares sizes, not members: a selection with as many items as the view
   * is cleared even when it holds items outside the view.
   */
  lemma SelectAllComparesSizes(s: AppState, env: Env, uni: Unicode)
    requires Valid(s, uni.lower) && !s.searchMode && !s.confirmDelete
    requires |s.selected| == |s.visible|
    ensures Step(s, Some(Char('a')), env, uni).selected == {}
  {
  }

  lemma FooBarView(lower: string -> string)
    requires forall t :: lower(t) == t
    ensures FilterIndices([Named("foo", "/a"), Named("bar", "/b")], "foo", lower) == [0]
  {
    FooBarViewOn([Named("foo", "/a"), Named("bar", "/b")], lower);
  }

  lemma FooBarViewOn(ps: seq<Project>, lower: string -> string)
    requires ps == [Named("foo", "/a"), Named("bar", "/b")]
    requires forall t :: lower(t) == t
    ensures FilterIndices(ps, "foo", lower) == [0]
  {
    FooListed(ps[0], lower);
    BarNotListed(ps[1], lower);
    FirstListed(ps, "foo", lower);
  }

  lemma FirstListed(ps: seq<Project>, query: string, lower: string -> string)
    requires |ps| == 2
    requires Listed(ps, query, lower, 0) && !Listed(ps, query, lower, 1)
    ensures FilterIndices(ps, query, lower) == [0]
  {
    ListedBelowStep(ps, query, lower, 0);
    ListedBelowStep(ps, query, lower, 1);
  }

  /** An instance of the size comparison: item 1 selected, only item 0 in view. */
  lemma SelectAllClearsForeignSelection(env: Env, uni: Unicode)
    requires forall t :: uni.lower(t) == t
    ensures var s := Initial().(projects := [Named("foo", "/a"), Named("bar", "/b")],
                                visible := [0], selected := {1}, query := "foo");
      Valid(s, uni.lower) && 0 !in s.selected && Step(s, Some(Char('a')), env, uni).selected == {}
  {
    var s := Initial().(projects := [Named("foo", "/a"), Named("bar", "/b")],
                        visible := [0], selected := {1}, query := "foo");
    FooBarView(uni.lower);
    assert Valid(s, uni.lower);
    SelectAllComparesSizes(s, env, uni);
  }

  // ---------------------------------------------------------------------------
  // Opening
  // ---------------------------------------------------------------------------

  /** Enter with a selection opens the selected items, in index order, in new windows, and quits. */
  lemma EnterOpensSelection(s: AppState, env: Env, uni: Unicode)
    requires Valid(s, uni.lower) && !s.searchMode && !s.confirmDelete
    requires s.visible != [] && s.selected != {}
    ensures var t := Step(s, Some(Enter), env, uni);
      !t.running &&
      |t.intents| == |s.intents| + 1 && t.intents[..|s.intents|] == s.intents &&
      t.intents[|s.intents|].OpenProjects? &&
      var items := t.intents[|s.intents|].items;
      |items| == |s.selected| &&
      (forall p :: p in items <==> exists i :: i in s.selected && s.projects[i] == p) &&
      t.intents[|s.intents|].newWindow && !t.intents[|s.intents|].asWorkspace
  {
    var order := SortedElements(s.selected, |s.projects|);
    var items := Pick(s.projects, order);
    forall p ensures p in items <==> exists i :: i in s.selected && s.projects[i] == p {
      if p in items {
        var k :| 0 <= k < |items| && items[k] == p;
        assert order[k] in s.selected;
      }
      if exists i :: i in s.selected && s.projects[i] == p {
        var i :| i in s.selected && s.projects[i] == p;
        assert i in order;
        var k :| 0 <= k < |order| && order[k] == i;
        assert items[k] == p;
      }
    }
  }

  /** Enter without a selection opens the current item in the current window and quits. */
  lemma EnterOpensCurrent(s: AppState, env: Env, uni: Unicode)
    requires Valid(s, uni.lower) && !s.searchMode && !s.confirmDelete
    requires s.visible != [] && s.selected == {}
    ensures var t := Step(s, Some(Enter), env, uni);
      !t.running && t.intents == s.intents + [OpenProjects([Current(s)], false, false)]
  {
  }

  /** `w` on a single item opens it by itself: a workspace file is only written for two or more. */
  lemma WorkspaceOfOne(vscode: string, p: Project, newWindow: bool, uriPath: string -> string)
    ensures OpenCommands(vscode, [p], newWindow, true, uriPath) == [Argv(OpenArgv(vscode, p, 0, newWindow, uriPath))]
  {
  }

  // ---------------------------------------------------------------------------
  // Deleting, confirming and undoing
  // ---------------------------------------------------------------------------

  /** `d` asks for confirmation of the selection, or of the current item, and deletes nothing yet. */
  lemma DeleteAsksFirst(s: AppState, env: Env, uni: Unicode)
    requires Valid(s, uni.lower) && !s.searchMode && !s.confirmDelete && s.visible != []
    ensures var t := Step(s, Some(Char('d')), env, uni);
      t.confirmDelete && t.projects == s.projects &&
      (s.selected != {} ==> (forall i :: i in t.pendingDelete <==> i in s.selected)) &&
      (s.selected == {} ==> t.pendingDelete == [PyIndex(s.visible, s.cursor)]) &&
      t.message.ConfirmPrompt? && t.message.count == |t.pendingDelete| &&
      |t.message.names| == Min(3, |t.pendingDelete|)
  {
  }

  /** While a confirmation is pending every key but y, n, Esc, Ctrl-C and a click only clears the message. */
  lemma ConfirmIgnoresOtherKeys(s: AppState, k: Key, env: Env, uni: Unicode)
    requires Valid(s, uni.lower) && s.confirmDelete
    requires !k.MouseClick? && k !in {Char('y'), Char('Y'), Char('n'), Char('N'), Escape, CtrlC}
    ensures Step(s, Some(k), env, uni) == s.(message := NoMessage)
  {
  }

  /** n, Esc or Ctrl-C cancels: nothing is deleted and normal mode comes back. */
  lemma ConfirmCancels(s: AppState, k: Key, env: Env, uni: Unicode)
    requires Valid(s, uni.lower) && s.confirmDelete
    requires k in {Char('n'), Char('N'), Escape, CtrlC}
    ensures var t := Step(s, Some(k), env, uni);
      t == s.(confirmDelete := false, pendingDelete := [], message := CancelledDelete)
  {
  }

  /** `idx` lists positions in `b`, ascending, whose items are `a`: `a` is `b` with some items left out. */
  predicate SubsequenceAt(a: seq<Project>, b: seq<Project>, idx: seq<int>)
  {
    |idx| == |a| && StrictlyIncreasing(idx) &&
    (forall k :: 0 <= k < |idx| ==> 0 <= idx[k] < |b| && a[k] == b[idx[k]])
  }

  /**
   * The survivors of a delete are exactly the projects whose uri is not deleted,
   * in their original relative order.
   */
  lemma WithoutUrisKeeps(ps: seq<Project>, uris: set<string>)
    ensures forall p :: p in WithoutUris(ps, uris) <==> p in ps && p.uri !in uris
    ensures SubsequenceAt(WithoutUris(ps, uris), ps, KeptBelow(ps, uris, |ps|))
  {
    var keep := KeptBelow(ps, uris, |ps|);
    var kept := WithoutUris(ps, uris);
    forall p ensures p in kept <==> p in ps && p.uri !in uris {
      if p in kept {
        var j :| 0 <= j < |kept| && kept[j] == p;
        assert keep[j] in keep;
      }
      if p in ps && p.uri !in uris {
        var i :| 0 <= i < |ps| && ps[i] == p;
        assert i in keep;
        var j :| 0 <= j < |keep| && keep[j] == i;
        assert kept[j] == p;
      }
    }
  }

  /**
   * y commits: the deleted items go to the undo buffer, every project sharing a uri
   * with one of them is dropped (see `WithoutUrisKeeps`), the list is saved, and
   * normal mode comes back with an empty selection.
   */
  lemma ConfirmDeletes(s: AppState, k: Key, env: Env, uni: Unicode)
    requires Valid(s, uni.lower) && s.confirmDelete
    requires k == Char('y') || k == Char('Y')
    ensures var t := Step(s, Some(k), env, uni);
      t.lastDeleted == Pick(s.projects, s.pendingDelete) &&
      t.projects == WithoutUris(s.projects, UrisAt(s.projects, s.pendingDelete)) &&
      t.intents == s.intents + [SaveProjects(t.projects)] &&
      t.selected == {} && !t.confirmDelete && t.pendingDelete == [] && !t.searchMode &&
      t.message == Deleted(|s.pendingDelete|)
  {
  }

  /** With no undo buffer, u only reports that there is nothing to undo. */
  lemma UndoNothing(s: AppState, env: Env, uni: Unicode)
    requires Valid(s, uni.lower) && !s.searchMode && !s.confirmDelete && s.lastDeleted == []
    ensures Step(s, Some(Char('u')), env, uni) == s.(message := NothingToUndo)
  {
  }

  /**
   * u puts the buffer back at the head of the list, saves everything, and moves to
   * the top. It keeps the selection: its indices now point at shifted items.
   */
  lemma UndoRestores(s: AppState, env: Env, uni: Unicode)
    requires Valid(s, uni.lower) && !s.searchMode && !s.confirmDelete && s.lastDeleted != []
    ensures var t := Step(s, Some(Char('u')), env, uni);
      t.projects == s.lastDeleted + s.projects && t.lastDeleted == [] &&
      t.intents == s.intents + [SaveAllProjects(t.projects)] &&
      t.cursor == 0 && t.scroll == 0 && t.selected == s.selected &&
      t.message == Restored(|s.lastDeleted|)
  {
  }

  /** No two projects share a uri (the recently-opened list keeps one entry per uri). */
  predicate DistinctUris(ps: seq<Project>)
  {
    forall i, j :: 0 <= i < j < |ps| ==> ps[i].uri != ps[j].uri
  }

  /** Two ascending index lists that split `0 .. n-1` between them, each index in exactly one. */
  predicate SplitBelow(d: seq<int>, k: seq<int>, n: nat)
  {
    StrictlyIncreasing(d) && StrictlyIncreasing(k) &&
    (forall j :: 0 <= j < |d| ==> 0 <= d[j] < n) &&
    (forall j :: 0 <= j < |k| ==> 0 <= k[j] < n) &&
    (forall x :: 0 <= x < n ==> x in d || x in k) &&
    (forall x :: !(x in d && x in k))
  }

  /** Two index lists that split `0 .. n-1` between them pick, together, the first `n` items. */
  lemma {:induction false} PartitionMultiset(ps: seq<Project>, d: seq<int>, k: seq<int>, n: nat)
    requires n <= |ps|
    requires SplitBelow(d, k, n)
    ensures multiset(Pick(ps, d)) + multiset(Pick(ps, k)) == multiset(ps[..n])
    decreases n, 1
  {
    if n == 0 {
      assert d == [] && k == [];
    } else if n - 1 in d {
      PartitionStep(ps, d, k, n);
    } else {
      assert SplitBelow(k, d, n);
      PartitionStep(ps, k, d, n);
    }
  }

  lemma {:induction false} PartitionStep(ps: seq<Project>, d: seq<int>, k: seq<int>, n: nat)
    requires 0 < n <= |ps|
    requires SplitBelow(d, k, n) && n - 1 in d
    ensures multiset(Pick(ps, d)) + multiset(Pick(ps, k)) == multiset(ps[..n])
    decreases n, 0
  {
    LastIsTop(d, n);
    var front := d[..|d| - 1];
    FrontPartition(d, k, n);
    PartitionMultiset(ps, front, k, n - 1);
    PickSnoc(ps, front, n - 1);
    SnocMultiset(ps, Pick(ps, front), Pick(ps, k), n);
  }

  /** An ascending list of indices below `n` that holds `n - 1` ends with it. */
  lemma LastIsTop(d: seq<int>, n: nat)
    requires StrictlyIncreasing(d)
    requires forall j :: 0 <= j < |d| ==> d[j] < n
    requires n - 1 in d
    ensures d != [] && d[|d| - 1] == n - 1 && d == d[..|d| - 1] + [n - 1]
  {
    var j :| 0 <= j < |d| && d[j] == n - 1;
    var last := |d| - 1;
    assert j <= last;
    assert d[j] <= d[last];
  }

  /** Without its last entry `n - 1`, `d` still splits `0 .. n-2` with `k`. */
  lemma FrontPartition(d: seq<int>, k: seq<int>, n: nat)
    requires 0 < n && SplitBelow(d, k, n)
    requires d != [] && d[|d| - 1] == n - 1
    ensures SplitBelow(d[..|d| - 1], k, n - 1)
  {
    var last := |d| - 1;
    var front := d[..last];
    forall j | 0 <= j < |front| ensures front[j] < n - 1 {
      assert d[j] < d[last];
    }
    forall x | 0 <= x < n - 1 ensures x in front || x in k {
      if x in d {
        var i :| 0 <= i < |d| && d[i] == x;
        assert i != last;
        assert front[i] == x;
      }
    }
    forall x ensures !(x in front && x in k) {
      if x in front {
        var i :| 0 <= i < |front| && front[i] == x;
        assert d[i] == x;
      }
    }
    assert n - 1 !in k;
    forall j | 0 <= j < |k| ensures k[j] < n - 1 {
      assert k[j] in k;
    }
  }

  lemma SnocMultiset(ps: seq<Project>, a: seq<Project>, b: seq<Project>, n: nat)
    requires 0 < n <= |ps|
    requires multiset(a) + multiset(b) == multiset(ps[..n - 1])
    ensures multiset(a + [ps[n - 1]]) + multiset(b) == multiset(ps[..n])
  {
    assert ps[..n] == ps[..n - 1] + [ps[n - 1]];
  }

  /** With distinct uris, the kept indices are exactly the ones not deleted. */
  lemma KeptComplement(ps: seq<Project>, d: seq<int>)
    requires DistinctUris(ps)
    requires forall j :: 0 <= j < |d| ==> 0 <= d[j] < |ps|
    ensures var keep := KeptBelow(ps, UrisAt(ps, d), |ps|);
      (forall x :: 0 <= x < |ps| ==> x in d || x in keep) &&
      (forall x :: !(x in d && x in keep))
  {
    var uris := UrisAt(ps, d);
    var keep := KeptBelow(ps, uris, |ps|);
    forall x | 0 <= x < |ps| ensures x in d || x in keep {
      if ps[x].uri in uris {
        var j :| 0 <= j < |d| && ps[d[j]].uri == ps[x].uri;
        assert d[j] == x;
      }
    }
    forall x ensures !(x in d && x in keep) {
      if x in d {
        var j :| 0 <= j < |d| && d[j] == x;
        assert ps[x].uri in uris;
      }
    }
  }

  /**
   * Confirming a delete and then undoing it gives back the same projects (as a
   * multiset, with the restored ones first), when no two projects share a uri.
   * `ConfirmDeletes` and `UndoRestores` show that the keys y and u reach these handlers.
   */
  lemma DeleteThenUndo(s: AppState, lower: string -> string)
    requires Valid(s, lower) && s.confirmDelete && DistinctUris(s.projects)
    ensures var t := ConfirmKey(s, Char('y'), lower);
      var u := UndoDelete(t, lower);
      multiset(u.projects) == multiset(s.projects) &&
      u.projects[..|s.pendingDelete|] == Pick(s.projects, s.pendingDelete) &&
      u.lastDeleted == []
  {
    var t := ConfirmKey(s, Char('y'), lower);
    var u := UndoDelete(t, lower);
    WithoutUrisKeeps(s.projects, UrisAt(s.projects, s.pendingDelete));
    RestoredProjects(s.projects, s.pendingDelete, t.projects, u.projects);
  }

  /** The list after undoing: the deleted items, then the survivors, hold the items the list held before. */
  lemma RestoredProjects(ps: seq<Project>, d: seq<int>, kept: seq<Project>, restored: seq<Project>)
    requires DistinctUris(ps) && StrictlyIncreasing(d)
    requires forall j :: 0 <= j < |d| ==> 0 <= d[j] < |ps|
    requires SubsequenceAt(kept, ps, KeptBelow(ps, UrisAt(ps, d), |ps|))
    requires restored == Pick(ps, d) + kept
    ensures multiset(restored) == multiset(ps)
    ensures restored[..|d|] == Pick(ps, d)
  {
    var keep := KeptBelow(ps, UrisAt(ps, d), |ps|);
    KeptComplement(ps, d);
    assert SplitBelow(d, keep, |ps|);
    PartitionMultiset(ps, d, keep, |ps|);
    assert ps[..|ps|] == ps;
    assert kept == Pick(ps, keep);
  }
}
