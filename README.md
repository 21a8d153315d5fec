# vscode-projects: a verified model of the picker core

`vscode-projects.py` is a terminal picker over the editor's recently-opened
projects. It reads the list from the editor's state database, shows it as a
filterable list, and lets the user do the following:

- move through the list and select several items with the keyboard or the mouse;
- open items in the current window, in new windows or as one workspace;
- copy an item's path or open it in the file manager;
- delete entries from the history, with a confirmation step and one level of undo.

This project models the logic of that program that does not depend on outside
systems, and proves properties of the model.

- `common.dfy` (module `Common`): the string and sequence helpers the other
  modules share. These are substring search (Python's `in`), Python's negative
  indexing and the ordered list of a set.
- `text.dfy` (module `TextMetrics`): display-width text metrics. It covers the
  following:
  - removing SGR escapes (`ESC [ [0-9;]* m`);
  - per-character cell width from the East Asian Width class;
  - `str_pad`;
  - `str_cut` and its truncation loop, as a method proved against the
    function `Truncate`.

  Python's Unicode tables (`east_asian_width`, `lower`, `upper`, `isalpha`,
  `isprintable`) are left uninterpreted. They are passed in as a `Unicode`
  record of functions.
- `keys.dfy` (module `KeyDecode`): the input decoders, written as pure
  functions from what was already read to an optional key. It covers the
  following:
  - the SGR mouse-report parser;
  - the Unix ESC/CSI/SS3 table;
  - the Windows console-record mapping, with the reader loop as a method;
  - the msvcrt fallback.
- `projects.dfy` (module `Projects`): the path and tag helpers that
  `load_projects`, `open_in_file_manager` and `open_projects` use. It covers
  the following:
  - the remote tag and the `[...]` label override;
  - the `/C:` strip;
  - extension-based file detection;
  - the WSL ↔ Windows drive conversions;
  - the command lines `open_projects` starts.
- `picker.dfy` (module `Picker`): the state of `App` as a value, with one pure
  transition function per branch of `handle_key`, plus `filter`, `_do_delete`
  and `undo_delete`. Effects (opening, saving, the clipboard, the file manager,
  reloading) are recorded as `Intent`s. The outside world's answers (the
  reloaded list, whether a helper succeeded) come in through `Env`.
- `picker_props.dfy` (module `PickerProperties`): the properties of the state
  machine. These include:
  - the invariant every handler keeps;
  - the scroll window;
  - selection and select-all;
  - confirm and cancel;
  - the delete/undo round trip.
- `render.dfy` (module `Render`): the arithmetic at the top of `draw` and the
  shape of the frame it builds. A frame is a list of abstract lines.
- `app.dfy` (module `Application`): the class `App`. It has the program's
  mutable fields. Its methods update those fields in place, and each method is
  proved to match the transition function of `Picker`. The filter, delete and
  padding loops are methods with loop invariants.

The dispatch order of `handle_key` is modelled as the code has it:

1. No key returns at once, before the message is cleared.
2. The message is cleared.
3. A mouse click is handled before any mode is looked at.
4. Search mode comes next.
5. Then delete confirmation.
6. Then the normal keys.

The quirks of the code are kept:

- `a` compares the sizes of the selection and the view.
- `PGDN` on an empty view sets the cursor to -1.
- `undo_delete` keeps the selection.
- `[3~` is not recognised on the Unix path.
- Wheel events become plain Up/Down.
- `ESC [1;5H` decodes to no key.

One consequence is proved in `Render.EmptyViewDrawFails`; the sequence is:

1. The view is empty: every project is filtered out.
2. `PGDN` sets the cursor to -1.
3. `/` enters search mode.
4. A typed character refilters and scrolls to the cursor, which puts the
   scroll offset at -1.
5. The next `draw` reads position -1 of the empty view and raises an
   `IndexError`.

The model draws this as `Frame.IndexError`.

A second consequence is proved in `Render.ScrollNegativeOnFullView`. The
validity invariant of the model allows a scroll offset of -1 for this reason.

1. The view is empty and the query is not; some project exists.
2. `PGDN` sets the cursor to -1 and the scroll offset to 0.
3. `ESC` clears the query, and the refilter lists every project. The cursor
   stays at -1, so the scroll offset follows it to -1.
4. The normalisation in `draw` keeps both at -1 on the now full view. The row
   loop starts at position -1, so the last item is drawn first and marked as
   the cursor, and the title counts the cursor as item 0.

## Model

| member | source | states |
|---|---|---|
| Common.ContainsIffOccurs | vscode-projects.py:955-959 | Python's substring test holds exactly when the needle occurs at some position of the haystack |
| Common.ContainsExtended | vscode-projects.py:955-959 | a haystack that contains a longer needle contains each of its prefixes |
| Common.PyIndex | vscode-projects.py:1029-1030 | `s[i]` for `-len(s) <= i < len(s)`: a member of `s`, counted from the end for negative `i` |
| Common.SortedElements | vscode-projects.py:1483 | `list(selected)`: a strictly increasing list with exactly the set's members, as many as the set has |
| TextMetrics.CharWidth | vscode-projects.py:102-107 | width is 0 exactly for characters below U+0020, 2 exactly for the F, W and A classes, otherwise 1 |
| TextMetrics.RawWidthAppend | vscode-projects.py:110-112 | the width of a concatenation is the sum of the widths |
| TextMetrics.SgrLenMatches | vscode-projects.py:95 | the escape length found at the head of a string is exactly the length of the pattern's match there |
| TextMetrics.StripAnsiPlain | vscode-projects.py:97-99 | strip_ansi leaves a string without ESC unchanged |
| TextMetrics.StripAnsiPlainPrefix | vscode-projects.py:97-99 | an ESC-free prefix passes through strip_ansi unchanged |
| TextMetrics.StripAnsiAppend | vscode-projects.py:97-99 | strip_ansi distributes over a concatenation whose second part cannot continue a pending sequence |
| TextMetrics.StripAnsiNarrows | vscode-projects.py:110-112 | stripping escapes never makes the raw width larger |
| TextMetrics.StyledWidth | vscode-projects.py:110-112 | text wrapped in an SGR colour and a reset is as wide as the text |
| TextMetrics.StripWellFormed | vscode-projects.py:97-99 | when every ESC starts an SGR sequence, strip_ansi leaves no ESC behind |
| TextMetrics.PadWideEnough | vscode-projects.py:117-119 | str_pad returns the string unchanged when it is already as wide as the target |
| TextMetrics.PadExact | vscode-projects.py:115-128 | with a one-cell fill, a narrower string is padded to exactly the target width; left alignment keeps it as a prefix, right alignment as a suffix |
| TextMetrics.PadSplit | vscode-projects.py:125-128 | centre padding adds exactly its left and right fill widths |
| TextMetrics.FitLenLongest | vscode-projects.py:142-148 | the number of characters kept is the longest prefix whose width fits the room left beside the ellipsis |
| TextMetrics.TakeFitting | vscode-projects.py:138-148 | the truncation loop takes exactly that longest fitting prefix and reports whether it stopped early |
| TextMetrics.StrCut | vscode-projects.py:131-167 | the str_cut method computes Truncate, for both the ESC-free and the styled branch |
| TextMetrics.TruncateFits | vscode-projects.py:134-153 | a string whose measured width fits is returned unchanged |
| TextMetrics.TruncateCuts | vscode-projects.py:131-167 | a string whose text (stripped when it holds ESC) is wider than the limit becomes the longest prefix of that text that fits beside the ellipsis, then the ellipsis, and one more character would not fit; any escapes, stray ones included |
| TextMetrics.TruncateWidth | vscode-projects.py:131-167 | when the ellipsis fits, the result fits in the maximum width |
| TextMetrics.TruncateOnlyEllipsis | vscode-projects.py:131-167 | when the text does not fit and even the ellipsis is too wide, the result is the ellipsis alone, whatever escapes the string holds |
| TextMetrics.CutThenPadWidth | vscode-projects.py:1074-1075 | cutting and then left-padding to the same width gives exactly that width |
| TextMetrics.TruncateStrayEscape | vscode-projects.py:151-153 | a stray ESC that hides a sequence behind it lets a five-cell string through a limit of three |
| KeyDecode.Split | vscode-projects.py:891 | `split(';')` gives at least one part, no part holds the separator, and joining the parts gives the input back |
| KeyDecode.SplitJoin | vscode-projects.py:891 | splitting a join of separator-free parts gives the parts back |
| KeyDecode.ParseNatToString | vscode-projects.py:895-897 | `int` of the decimal digits of a number gives the number back |
| KeyDecode.ParseMouseSgrReport | vscode-projects.py:878-910 | every well-formed report decodes as follows: a press of button 0 is a click at (x, y); buttons 64 and 65 are Up and Down with either terminator; anything else is no key |
| KeyDecode.MouseReleaseIgnored | vscode-projects.py:901-908 | the release of button 0 decodes to no key |
| KeyDecode.MouseMalformed | vscode-projects.py:882-893 | a report with neither terminator, or without exactly three fields before it, decodes to no key |
| KeyDecode.UnixLoneEscape | vscode-projects.py:825-826 | ESC with nothing after it is the Escape key |
| KeyDecode.UnixCsiCursor | vscode-projects.py:837-842 | `ESC [` and A, B, C, D, H or F give Up, Down, Right, Left, Home or End |
| KeyDecode.UnixSs3Cursor | vscode-projects.py:854-862 | `ESC O` and the same letters give the same keys |
| KeyDecode.UnixTilde | vscode-projects.py:843-846 | `[5~`, `[6~`, `[1~`/`[7~` and `[4~`/`[8~` give PgUp, PgDn, Home and End |
| KeyDecode.UnixTildeUnrecognised | vscode-projects.py:843-852 | `[3~` (Delete), `[0~`, `[2~` and `[9~` decode to no key |
| KeyDecode.UnixModifiedArrow | vscode-projects.py:848-851 | a modified arrow `[1;<mods>A..D` gives the plain direction |
| KeyDecode.UnixModifiedHomeEnd | vscode-projects.py:848-852 | a modified Home or End `[1;<mods>H/F` decodes to no key |
| KeyDecode.UnixMouse | vscode-projects.py:833-834 | `ESC [ <` hands the rest to the SGR mouse parser |
| KeyDecode.UnixOtherEscape | vscode-projects.py:864 | ESC followed by anything other than `[` or `O` decodes to no key |
| KeyDecode.UnixControlCharacters | vscode-projects.py:870-876 | CR/LF, TAB, DEL/BS, ^C and ^D give Enter, Tab, Backspace, CtrlC and CtrlD; any other character is itself |
| KeyDecode.WheelDelta | vscode-projects.py:729 | the high word of the button state, read as a signed 16-bit value |
| KeyDecode.VirtualKeyRoundTrip | vscode-projects.py:697-709 | each named key's virtual-key code decodes to that key on key-down, whatever character comes with it |
| KeyDecode.KeyReleaseIgnored | vscode-projects.py:690-691 | key-up records are skipped |
| KeyDecode.WheelDirection | vscode-projects.py:728-733 | the signed wheel delta is recovered from the button state; a positive delta is Up, any other is Down |
| KeyDecode.ConsoleClick | vscode-projects.py:736-740 | a left press with no event flags is a click at the 1-based cell; other mouse records are skipped |
| KeyDecode.ReadConsoleKey | vscode-projects.py:680-744 | the reader returns the first record that decodes to a key, after skipping only records that decode to nothing |
| KeyDecode.MsvcrtExtended | vscode-projects.py:750-763 | after either prefix, each scan code of the table gives its key |
| KeyDecode.MsvcrtUnknownEscape | vscode-projects.py:766-784 | ESC not followed by `[<` or a sequence naming A-D is the Escape key |
| KeyDecode.MsvcrtControlCharacters | vscode-projects.py:787-806 | other characters decode as on the Unix path |
| KeyDecode.MsvcrtMouse | vscode-projects.py:775-779 | `ESC [ <` goes to the SGR mouse parser on this path too |
| Projects.RFind | vscode-projects.py:433-434 | `rfind`: -1 or a position holding the character, with none after it |
| Projects.AfterLast | vscode-projects.py:433-434 | the text after the last occurrence of a character does not contain it |
| Projects.RFindConcat | vscode-projects.py:423 | in `a + c + b` with no `c` in `b`, the last `c` is at position `len(a)` |
| Projects.Replace | vscode-projects.py:452 | `replace` of one character maps each position and keeps the length |
| Projects.ReplaceAbsent | vscode-projects.py:452 | replacing a character that does not occur changes nothing |
| Projects.RemoteTag | vscode-projects.py:401-417 | every remote netloc gets a non-empty tag |
| Projects.RemoteTagWsl | vscode-projects.py:401-406 | `wsl+distro` becomes `WSL: Distro` with the first letter upper-cased, or `WSL` without a distribution |
| Projects.RemoteTagSsh | vscode-projects.py:409-411 | `ssh-remote+host` becomes `SSH: host`, or `SSH` without a host |
| Projects.RemoteTagBareWsl | vscode-projects.py:407-408 | a netloc that lower-cases to `wsl` is `WSL` |
| Projects.RemoteTagSshInside | vscode-projects.py:412-413 | any other netloc holding `ssh` is `SSH`, even one that also holds `dev-container`, since that test comes first |
| Projects.RemoteTagContainer | vscode-projects.py:414-415 | a netloc holding `dev-container` and no `ssh`, and not a WSL one, is `Container` |
| Projects.RemoteTagOther | vscode-projects.py:412-417 | a netloc naming none of the known kinds is `Remote` |
| Projects.LabelTagSuffix | vscode-projects.py:432-436 | a label ending in `[tag]` sets the tag to the bracketed text |
| Projects.LabelTagUnbracketed | vscode-projects.py:432 | a label without both brackets keeps the tag |
| Projects.StripDriveSlash | vscode-projects.py:393-394 | the path is kept, or exactly its leading `/` is dropped when a drive colon follows |
| Projects.StripDriveSlashDrive | vscode-projects.py:393-394 | `/C:rest` becomes `C:rest`, and `C:rest` stays as it is |
| Projects.Basename | vscode-projects.py:438 | the base name is the longest slash-free suffix of the path: it is the whole path or follows a `/` |
| Projects.StripTrailingSlashes | vscode-projects.py:439 | a prefix of the path that does not end in `/`, and everything dropped is `/` |
| Projects.DirnameBasename | vscode-projects.py:438-439 | `dir/base` splits into `dir` and `base` |
| Projects.Extension | vscode-projects.py:423 | the extension is the text after the last `.`: a dot-free suffix that is the whole name or follows a `.` |
| Projects.RemoteKind | vscode-projects.py:420-427 | the kind is kept, except that a folder may become a file |
| Projects.RemoteKindByExtension | vscode-projects.py:420-427 | a remote folder `dir/stem.ext` is a file exactly when the lower-cased extension is a listed code extension |
| Projects.NamedFile | vscode-projects.py:421-423 | the base name of `dir/stem.ext` is `stem.ext`, and its extension is `ext` |
| Projects.RemoteKindDotFile | vscode-projects.py:422 | dot-files and names without a dot stay folders |
| Projects.WslToWindows | vscode-projects.py:456-462 | a Windows-side conversion is produced only for `/mnt/<x>/...` paths |
| Projects.WindowsToWsl | vscode-projects.py:447-453 | a WSL-side conversion always starts with `/mnt/` |
| Projects.WslShownOnWindows | vscode-projects.py:456-462 | `/mnt/d/rest` shows on a host that is not WSL as `D:/rest` when rest holds no ':' |
| Projects.WindowsShownOnWsl | vscode-projects.py:447-453 | `D:/rest` shows on WSL as `/mnt/d/rest` when rest holds no backslash |
| Projects.WslWindowsRoundTrip | vscode-projects.py:447-462 | `/mnt/d/rest` shows as `D:/rest`, and converting that back gives the original path |
| Projects.WindowsWslRoundTrip | vscode-projects.py:447-462 | `D:/rest` shows as `/mnt/d/rest`, and converting that back gives the original path |
| Projects.ExplorerTargetMounted | vscode-projects.py:315-318 | `/mnt/c/x/y` opens as `C:\x\y`, with no `/` left after the drive |
| Projects.ExplorerTargetBareMount | vscode-projects.py:317 | exactly `/mnt/` raises an IndexError |
| Projects.WorkspaceFolders | vscode-projects.py:1206-1214 | the workspace lists at most one folder per item, and none exactly when no item is a `file://` URI |
| Projects.WorkspaceFoldersAppend | vscode-projects.py:1206-1214 | the folders of a concatenation are the folders of its parts, in order |
| Projects.WorkspaceFoldersOne | vscode-projects.py:1207-1214 | a local item contributes its URI path with the drive slash stripped; a remote item contributes nothing |
| Projects.WorkspaceFoldersLocal | vscode-projects.py:1206-1214 | when every item is local there is one folder per item, and folder i is item i's path with the drive slash stripped |
| Projects.OpenWorkspace | vscode-projects.py:1204-1223 | two or more items opened as a workspace give exactly one launch on the workspace file of their folders when some item is local, and no launch exactly when none is |
| Projects.OpenEach | vscode-projects.py:1227-1246 | one command line per item, each built for its position in the list |
| Projects.OpenCommandsWindows | vscode-projects.py:1227-1246 | the following holds: each item gets a command starting with the editor; a remote item gets `--folder-uri uri`, with `--new-window` unless it is first and no new window was asked for; a local item gets its stripped path, with `-r` exactly in that case and `-n` otherwise |
| PickerProperties.WorkspaceOfOne | vscode-projects.py:1204 | a workspace of one item is opened like a single item |
| Picker.ListedBelow | vscode-projects.py:956-959 | the listed indices below `n`, strictly increasing |
| Picker.FilterIndices | vscode-projects.py:950-959 | the view is strictly increasing and holds exactly those indices whose lower-cased name or path contains the lower-cased query (every index when the query is empty) |
| Picker.RefilterKeepsWindow | vscode-projects.py:962-969 | after filter: the view is the filter; a cursor past the view is clamped to `max(0, len-1)`, and any other cursor is kept; the cursor row is inside the scroll window |
| Picker.Toggle | vscode-projects.py:1353-1356 | remove-if-present/add: only the given index changes membership |
| Picker.Pick | vscode-projects.py:1259 | `[projects[i] for i in indices]` |
| Picker.KeptBelow | vscode-projects.py:1264 | the indices whose uri is not deleted, ascending |
| Picker.PromptNames | vscode-projects.py:1530-1531 | the prompt lists the names of the first three pending items (all of them when fewer), in pending order |
| PickerProperties.InitialValid | vscode-projects.py:932-948 | the initial state satisfies the invariant |
| PickerProperties.ClickValid | vscode-projects.py:1338-1357 | a click keeps the invariant |
| PickerProperties.SearchValid | vscode-projects.py:1362-1380 | every key in search mode keeps the invariant |
| PickerProperties.DoDeleteWindow | vscode-projects.py:1253-1274 | delete refilters the view and clamps the cursor, and clears the selection; an empty list of indices changes nothing |
| PickerProperties.ConfirmValid | vscode-projects.py:1385-1397 | every key in confirmation mode keeps the invariant |
| PickerProperties.UndoWindow | vscode-projects.py:1276-1293 | undo keeps the invariant |
| PickerProperties.NavigateValid | vscode-projects.py:1419-1453 | every navigation key keeps the invariant |
| PickerProperties.LineUpValid | vscode-projects.py:1419-1424 | Up keeps the invariant |
| PickerProperties.LineDownValid | vscode-projects.py:1426-1431 | Down keeps the invariant |
| PickerProperties.PageBackValid | vscode-projects.py:1433-1436 | PgUp keeps the invariant |
| PickerProperties.PageForwardValid | vscode-projects.py:1438-1443 | PgDn keeps the invariant, even on an empty view |
| PickerProperties.ToLastValid | vscode-projects.py:1450-1453 | End keeps the invariant |
| PickerProperties.SelectValid | vscode-projects.py:1461-1476 | Space and `a` keep the invariant |
| PickerProperties.RequestDeleteValid | vscode-projects.py:1521-1535 | `d` keeps the invariant: the confirmation mode holds exactly while indices are pending |
| PickerProperties.OpenValid | vscode-projects.py:1479-1518 | the open keys keep the invariant |
| PickerProperties.ToolValid | vscode-projects.py:1547-1569 | the clipboard and file-manager keys keep the invariant |
| PickerProperties.ReloadValid | vscode-projects.py:1538-1544 | reload keeps the invariant |
| PickerProperties.ClearQueryValid | vscode-projects.py:1577-1581 | clearing the query keeps the invariant |
| PickerProperties.NormalValid | vscode-projects.py:1404-1581 | every normal-mode key keeps the invariant |
| PickerProperties.CharValid | vscode-projects.py:1404-1581 | every character key in normal mode keeps the invariant |
| PickerProperties.StepValid | vscode-projects.py:1328-1581 | handle_key keeps the invariant for every key in every mode |
| PickerProperties.QueryNarrows | vscode-projects.py:955-959 | typing one more character can only remove items from the view |
| PickerProperties.EmptyQueryListsAll | vscode-projects.py:952-953 | an empty query lists every index in order |
| PickerProperties.FilterExample | vscode-projects.py:950-959 | names foo, bar and foobar with query `foo` give the view `[0, 2]` |
| PickerProperties.NavigateKeepsWindow | vscode-projects.py:1419-1453 | on a non-empty view with the cursor in the window, every navigation key keeps the cursor on an item and inside the window |
| PickerProperties.LineUpWindow | vscode-projects.py:1419-1424 | Up keeps the cursor on screen |
| PickerProperties.LineDownWindow | vscode-projects.py:1426-1431 | Down keeps the cursor on screen |
| PickerProperties.PageBackWindow | vscode-projects.py:1433-1436 | PgUp keeps the cursor on screen |
| PickerProperties.PageForwardWindow | vscode-projects.py:1438-1443 | PgDn keeps the cursor on screen |
| PickerProperties.ToLastWindow | vscode-projects.py:1450-1453 | End keeps the cursor on screen |
| PickerProperties.FourDownsScroll | vscode-projects.py:1426-1431 | five items, height 3: four Downs give cursor 4 and scroll 2 |
| PickerProperties.PageDownOnEmpty | vscode-projects.py:1438-1443 | PgDn on an empty view sets the cursor to -1 and the scroll to 0 |
| PickerProperties.NoKeyNoChange | vscode-projects.py:1330-1331 | no key changes nothing, not even the message |
| PickerProperties.KeyClearsMessage | vscode-projects.py:1333-1581 | in normal mode, a key with no binding there (Left, Right, Tab, Delete, or a letter other than `qQkjgG/ aAnNwWdDrRyYoOuU`) clears the message and changes nothing else |
| PickerProperties.SpaceToggles | vscode-projects.py:1461-1468 | Space toggles exactly the current item, and does nothing on an empty view |
| PickerProperties.SpaceTwiceRestores | vscode-projects.py:1461-1468 | Space twice gives back the original selection |
| PickerProperties.ClickSelects | vscode-projects.py:1338-1357 | a click on an item row moves the cursor there and toggles that item; the query and both modes are left as they were |
| PickerProperties.ClickOutsideList | vscode-projects.py:1342-1357 | a click outside the list rows only clears the message |
| PickerProperties.SelectAllTwice | vscode-projects.py:1471-1476 | when the sizes differ, `a` selects exactly the view, and a second `a` empties the selection |
| PickerProperties.SelectAllComparesSizes | vscode-projects.py:1471-1473 | `a` clears the selection whenever its size equals the view's |
| PickerProperties.SelectAllClearsForeignSelection | vscode-projects.py:1471-1476 | a selection of one hidden item beside a view of one item is cleared by `a`, not extended |
| PickerProperties.EnterOpensSelection | vscode-projects.py:1479-1488 | Enter with a selection opens exactly the selected projects in new windows and quits |
| PickerProperties.EnterOpensCurrent | vscode-projects.py:1485-1488 | Enter without a selection opens the current project in the current window and quits |
| PickerProperties.DeleteAsksFirst | vscode-projects.py:1521-1535 | `d` enters confirmation with the selection (or the current item) pending, and deletes nothing |
| PickerProperties.ConfirmIgnoresOtherKeys | vscode-projects.py:1385-1397 | in confirmation mode, keys other than y/Y/n/N/Esc/^C only clear the message |
| PickerProperties.ConfirmCancels | vscode-projects.py:1391-1395 | n/N/Esc/^C leave confirmation, empty the pending list and report the cancellation |
| PickerProperties.WithoutUrisKeeps | vscode-projects.py:1263-1264 | the kept list holds exactly the projects whose uri is not deleted, in their original order |
| PickerProperties.ConfirmDeletes | vscode-projects.py:1386-1390 | y/Y removes every project sharing a pending uri, keeps the removed ones for undo, saves the rest, clears the selection and leaves confirmation |
| PickerProperties.UndoNothing | vscode-projects.py:1278-1280 | undo with an empty buffer only reports that there is nothing to undo |
| PickerProperties.UndoRestores | vscode-projects.py:1276-1293 | undo prepends the buffer, empties it, saves everything and moves to the top, keeping the selection |
| PickerProperties.DeleteThenUndo | vscode-projects.py:1253-1293 | with distinct uris, confirm then undo restores the multiset of projects, with the deleted ones first |
| PickerProperties.RestoredProjects | vscode-projects.py:1284 | putting the picked items back before the kept ones restores the multiset |
| Render.ListHeightFor | vscode-projects.py:974-976 | the window height is `max(3, rows - 8)` |
| Render.NameWidth | vscode-projects.py:991 | the name column is 25 cells below 63 columns, 45 from 113 columns, and 40% of the width (rounded down) in between |
| Render.PathWidth | vscode-projects.py:992-994 | the path column takes what the name column and 14 cells leave when that is at least 15, and is 15 otherwise |
| Render.NormalizeViewWindow | vscode-projects.py:973-988 | draw's normalisation keeps the invariant and changes only the height, cursor and scroll; on a non-empty view it puts the cursor inside the window and the scroll at most `max(0, len - height)` |
| Render.Label | vscode-projects.py:1064-1072 | the shown name is the project's name, then ` [tag]` when there is a tag, then the invalid mark when the path is gone; the plain name otherwise |
| Render.FrameFailsIff | vscode-projects.py:1026-1030 | drawing raises exactly when the view is empty and the scroll offset is -1 |
| Render.FrameShape | vscode-projects.py:996-1182 | a frame has height + 8 lines: four header lines, one row per visible item from the scroll offset to the end of the window, blank padding, and four footer lines |
| Render.HelpFollowsMode | vscode-projects.py:1157-1180 | the help bar is the confirmation help, else the search help, else the wide or narrow bar by terminal width, with the undo hint when the buffer is full |
| Render.RowCellsFit | vscode-projects.py:1074-1082 | every name and path cell of a row is exactly as wide as its column |
| Render.SlashStartsSearch | vscode-projects.py:1456-1458 | `/` enters search mode and changes nothing else |
| Render.TypingKeepsEmptyView | vscode-projects.py:1377-1379 | a character typed into an empty view with the cursor at -1 leaves it empty and scrolls to -1 |
| Render.EmptyViewDrawFails | vscode-projects.py:1438-1443 | on an empty view, PgDn, `/` and a character lead to a draw that raises an IndexError |
| Render.ScrollNegativeOnFullView | vscode-projects.py:1438-1443 | on an empty view with a query, PgDn then Esc gives a valid state whose normalised view is not empty, with cursor and scroll offset both -1 |
| Render.EscapeRefillsView | vscode-projects.py:1408-1411 | Esc on a query, with the cursor at -1 and the window at 0, lists every project and scrolls to -1 |
| Application.App.constructor | vscode-projects.py:932-948 | a new App is in the initial state |
| Application.App.Start | vscode-projects.py:1603-1609 | an empty list stops the run; otherwise the list is loaded and filtered, and the view is every index |
| Application.App.Filter | vscode-projects.py:950-969 | the fields become the refiltered state |
| Application.FilteredIndices | vscode-projects.py:952-959 | the filter loop computes the view |
| Application.AllIndices | vscode-projects.py:952-953 | with an empty query, the loop lists every index |
| Application.MatchingIndices | vscode-projects.py:954-959 | with a query, the loop lists the matching indices |
| Application.App.DoDelete | vscode-projects.py:1253-1274 | the fields become the state after the delete |
| Application.App.DropProjects | vscode-projects.py:1259-1271 | the list loses every project with a deleted uri, the buffer holds the deleted items, and the selection is cleared |
| Application.KeepOthers | vscode-projects.py:1263-1264 | the loop keeps the projects whose uri is not deleted |
| Application.App.UndoDelete | vscode-projects.py:1276-1293 | the fields become the state after undo |
| Application.App.RestoreProjects | vscode-projects.py:1283-1288 | the buffer is put back before the list and emptied |
| Application.App.HandleKey | vscode-projects.py:1328-1581 | the fields become the handled state for every key, and the invariant is kept |
| Application.App.Dispatch | vscode-projects.py:1338-1581 | the fields become `Picker.Dispatch` of the old state: a click whatever the mode, else search, confirmation or normal mode in that order |
| Application.App.Click | vscode-projects.py:1338-1357 | the fields become `Picker.Click` of the old state |
| Application.App.SearchKey | vscode-projects.py:1362-1380 | the fields become `Picker.SearchKey` of the old state |
| Application.App.EditQuery | vscode-projects.py:1367-1379 | Backspace, Ctrl-C and characters edit the query as `Picker.SearchKey` says; other keys change nothing |
| Application.App.ClearSearch | vscode-projects.py:1373-1376 | Ctrl-C empties the query, leaves search mode and refilters |
| Application.App.TypeChar | vscode-projects.py:1377-1379 | a printable character extends the query and refilters; any other changes nothing |
| Application.App.EraseChar | vscode-projects.py:1367-1372 | Backspace drops the last query character and refilters, or leaves search mode on an empty query |
| Application.App.ConfirmKey | vscode-projects.py:1385-1397 | the fields become `Picker.ConfirmKey` of the old state |
| Application.App.ConfirmDelete | vscode-projects.py:1386-1390 | `y` deletes the pending items and leaves confirmation mode with nothing pending |
| Application.App.CancelDelete | vscode-projects.py:1391-1395 | `n`, Esc or Ctrl-C leaves confirmation mode with nothing pending and the cancelled message set |
| Application.App.NormalKey | vscode-projects.py:1404-1581 | the fields become `Picker.NormalKey` of the old state |
| Application.App.ControlKey | vscode-projects.py:1404-1581 | Ctrl-C and Ctrl-D quit, Esc, Enter and Backspace act as `Picker.ControlKey` says, and the remaining keys change nothing |
| Application.App.CharKey | vscode-projects.py:1404-1581 | the fields become `Picker.CharKey` of the old state: the normal-mode answer to a character key |
| Application.App.CommandKey | vscode-projects.py:1479-1581 | the fields become `Picker.CommandKey` of the old state: the normal-mode answer to the item-command letters |
| Application.App.EscapeKey | vscode-projects.py:1408-1416 | the fields become `Picker.EscapeKey` of the old state: Esc clears the query, else the selection, else quits |
| Application.App.ClearQuery | vscode-projects.py:1577-1581 | the fields become `Picker.ClearQuery` of the old state: Backspace in normal mode empties an active query and refilters, and changes nothing when there is none |
| Application.App.Navigate | vscode-projects.py:1419-1453 | the fields become `Picker.Navigate` of the old state |
| Application.App.LineMove | vscode-projects.py:1419-1431 | Up/`k` and Down/`j` move one row within the view and scroll the window to the cursor |
| Application.App.LineUp | vscode-projects.py:1418-1423 | the fields become `Picker.LineUp` of the old state: the cursor moves up one row unless at the top, and the window follows it |
| Application.App.LineDown | vscode-projects.py:1425-1430 | the fields become `Picker.LineDown` of the old state: the cursor moves down one row unless at the last item, and the window follows it |
| Application.App.JumpMove | vscode-projects.py:1433-1453 | PgUp, PgDn, Home/`g` and End/`G` set cursor and scroll as `Picker.Navigate` says |
| Application.App.SelectKey | vscode-projects.py:1461-1476 | the fields become `Picker.SelectKey` of the old state |
| Application.App.OpenKey | vscode-projects.py:1479-1518 | the fields become `Picker.OpenKey` of the old state |
| Application.App.OpenHere | vscode-projects.py:1479-1489 | the fields become `Picker.OpenHere` of the old state: with a non-empty view, the selection opens in a new window or the current item here, and the picker quits |
| Application.App.OpenInNewWindow | vscode-projects.py:1492-1504 | the fields become `Picker.OpenInNewWindow` of the old state: the selection or the current item opens in a new window, and the selection is cleared |
| Application.App.OpenAsWorkspace | vscode-projects.py:1507-1518 | the fields become `Picker.OpenAsWorkspace` of the old state: the selection opens as one workspace, else the current item in a new window |
| Application.App.RequestDelete | vscode-projects.py:1521-1535 | the fields become `Picker.RequestDelete` of the old state |
| Application.App.Reload | vscode-projects.py:1538-1544 | the fields become `Picker.Reload` of the old state, with the reloaded list from the environment |
| Application.App.ReplaceProjects | vscode-projects.py:1539-1541 | the list is replaced, and the selection and undo buffer are cleared |
| Application.App.ToolKey | vscode-projects.py:1547-1569 | the fields become `Picker.ToolKey` of the old state |
| Application.App.Draw | vscode-projects.py:971-1182 | the fields become the normalised state, which keeps the invariant, and the frame returned is its frame |
| Application.App.Normalize | vscode-projects.py:973-988 | the fields become the normalised state |
| Application.App.Compose | vscode-projects.py:996-1182 | the lines built are the frame |
| Application.App.HeaderLines | vscode-projects.py:1001-1021 | the four header lines |
| Application.App.ListLines | vscode-projects.py:1026-1117 | the row loop yields the rows of the window, and fails exactly where the model's frame does |
| Application.App.RowLine | vscode-projects.py:1029-1082 | one row, with its cells cut and padded by the str_cut method |
| Application.App.FooterLines | vscode-projects.py:1126-1182 | the four footer lines |
| Application.PadLines | vscode-projects.py:1120-1121 | the padding loop fills the window with blank lines |

## Left out

- Terminal I/O: raw mode, the non-blocking reads, screen output and the
  `try/finally` of `run`. The decoders take what was read as input, and `draw`
  returns an abstract frame instead of writing escape strings.
- Colours and localised text: messages and help bars are datatype values, not
  strings. The colour split of a tagged name at `find('[')` is not modelled,
  and neither are the emoji icons.
- Unicode tables: `east_asian_width`, `str.lower`/`upper`, `isalpha` and
  `isprintable` are uninterpreted functions passed in, and
  `unquote(urlparse(uri).path)` is a `uriPath` parameter. Two proofs need a
  property of `lower` as an assumption they state: `Render.EmptyViewDrawFails`,
  `Render.TypingKeepsEmptyView` and `PickerProperties.QueryNarrows` assume that lower-casing distributes
  over appending one character. Python's `str.lower` does not always do so:
  its final-sigma rule gives `'ΑΣ'.lower() == 'ας'` but `'ΑΣΑ'.lower() == 'ασα'`,
  so in such a query typing one more letter can change the earlier letters and
  widen the view instead of narrowing it.
- KeyDecode.ParseNatToString: `int()` is modelled on decimal digit strings
  only. Python also accepts signs, surrounding whitespace and underscores.
- The msvcrt pass through `kbhit` and the 10 ms wait are not modelled. The
  characters read after ESC are an input.
- Common.SortedElements: `list(selected)` has an order fixed by the set's
  implementation. This model takes ascending index order.
- Persistence and processes are not modelled, apart from intents recording
  what they are asked:
  - `load_projects` (SQLite, JSON), `save_projects`, `_save_all_projects`;
  - `os.path.exists`;
  - `wslpath`, the clipboard tools, the file manager and `subprocess`.
  
  Reload takes the new list as input. Success of the clipboard and file
  manager is an `Env` flag.
- Projects: the whole of `load_projects` is not put together as one function.
  Its pure parts (tags, label override, drive strip, kind, base name and
  directory, drive conversions) are modelled one by one. The `or path` /
  `or '/'` fallbacks around `basename` and `dirname` are not modelled.
- Projects.Basename and Projects.Dirname follow POSIX `os.path` on `/`
  separators only.
- TextMetrics.TruncateWidth: stated only for strings whose every ESC starts
  an SGR sequence. `str_cut` measures `strip_ansi(s)` after stripping it a
  second time, so a stray ESC can let a wider string through;
  TextMetrics.TruncateStrayEscape exhibits this.
- TextMetrics.CutThenPadWidth: same restriction as TruncateWidth.
- Render.RowCellsFit: same restriction, for the name and path texts of the
  row.
- PickerProperties.DeleteThenUndo: stated on the confirm and undo handlers
  (`ConfirmKey` then `UndoDelete`), not on a full `handle_key` step. It needs
  projects with distinct uris: duplicates are all removed by one delete but
  only the picked ones are restored.
- The modes: the code checks search mode before confirmation mode. The model
  does the same, and the invariant proves that both are never on at once.
- The normal-mode key chain of `handle_key` is modelled as one dispatch over
  disjoint key groups, which picks the same branch as the chain of `if`s.
- `show_help`, `list_projects`, `main`, `get_db_path`, `get_vscode_cmd` and
  `detect_os` are not modelled: they are printing and environment probing. The
  host kind is a choice between the two conversion functions.
