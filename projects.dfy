/**
 * Projects as the picker loads them, and the string helpers that derive their
 * fields: remote tags, label overrides, drive-path conversions, file detection,
 * and the command lines that open them (vscode-projects.py:306-462, 1196-1246).
 * URI parsing (urlparse/unquote) is not modelled: the helpers receive the parts.
 */
module Projects {
  import opened Common
  import opened TextMetrics

  datatype ProjectKind = Folder | File | Workspace

  /** One entry of the recently-opened list, with the fields load_projects computes. */
  datatype Project = Project(
    uri: string,
    name: string,
    path: string,
    fullPath: string,
    displayPath: string,
    kind: ProjectKind,
    tag: string,
    pathExists: bool)

  // ---------------------------------------------------------------------------
  // Small string operations of Python that the helpers use
  // ---------------------------------------------------------------------------

  /** Python's `s[k:]`, which is empty when `k` is past the end. */
  function SliceFrom(s: string, k: nat): string
  {
    if k <= |s| then s[k..] else []
  }

  /** Python's `s.rfind(c)`: the last index of `c`, or -1. */
  function RFind(s: string, c: char): (i: int)
    ensures -1 <= i < |s|
    ensures i >= 0 ==> s[i] == c
    ensures forall j :: i < j < |s| ==> s[j] != c
  {
    if s == [] then -1
    else if s[|s| - 1] == c then |s| - 1
    else RFind(s[..|s| - 1], c)
  }

  /** Nothing after the last occurrence of `c` is a `c`. */
  lemma AfterLast(s: string, c: char)
    ensures c !in s[RFind(s, c) + 1..]
  {
    var i := RFind(s, c);
    var t := s[i + 1..];
    forall k | 0 <= k < |t| ensures t[k] != c {
      assert t[k] == s[i + 1 + k];
    }
  }

  /** In `a + [c] + b` with no `c` in b, the last `c` is the one between them. */
  lemma RFindConcat(a: string, c: char, b: string)
    requires c !in b
    ensures RFind(a + [c] + b, c) == |a|
  {
    var s := a + [c] + b;
    assert s[|a|] == c;
    assert s[|a| + 1..] == b;
    RFindLast(s, c, |a|);
  }

  lemma RFindLast(s: string, c: char, i: nat)
    requires i < |s| && s[i] == c
    requires c !in s[i + 1..]
    ensures RFind(s, c) == i
  {
  }

  /** Python's `s.replace(a, b)` for single characters. */
  function Replace(s: string, a: char, b: char): (r: string)
    ensures |r| == |s|
    ensures forall i :: 0 <= i < |s| ==> r[i] == if s[i] == a then b else s[i]
  {
    if s == [] then [] else [if s[0] == a then b else s[0]] + Replace(s[1..], a, b)
  }

  lemma ReplaceAbsent(s: string, a: char, b: char)
    requires a !in s
    ensures Replace(s, a, b) == s
  {
  }

  // ---------------------------------------------------------------------------
  // Remote tag from the netloc of a vscode-remote URI
  // ---------------------------------------------------------------------------

  /** The tag load_projects derives from an (unquoted) vscode-remote netloc. */
  function RemoteTag(netloc: string, uni: Unicode): (tag: string)
    ensures tag != []
  {
    var low := uni.lower(netloc);
    if StartsWith(low, "wsl+") then
      var distro := SliceFrom(netloc, 4);
      if distro != [] then "WSL: " + uni.upper([distro[0]]) + distro[1..] else "WSL"
    else if low == "wsl" then "WSL"
    else if StartsWith(low, "ssh-remote+") then
      var host := SliceFrom(netloc, 11);
      if host != [] then "SSH: " + host else "SSH"
    else if Contains(low, "ssh") then "SSH"
    else if Contains(low, "dev-container") then "Container"
    else "Remote"
  }

  /** `wsl+ubuntu` becomes `WSL: Ubuntu`: the distribution, first letter upper-cased. */
  lemma RemoteTagWsl(distro: string, uni: Unicode)
    requires StartsWith(uni.lower("wsl+" + distro), "wsl+")
    ensures RemoteTag("wsl+" + distro, uni) ==
      if distro == [] then "WSL" else "WSL: " + uni.upper([distro[0]]) + distro[1..]
  {
    assert SliceFrom("wsl+" + distro, 4) == distro;
  }

  /** `ssh-remote+host` becomes `SSH: host`, the host as written. */
  lemma RemoteTagSsh(host: string, uni: Unicode)
    requires StartsWith(uni.lower("ssh-remote+" + host), "ssh-remote+")
    ensures RemoteTag("ssh-remote+" + host, uni) == if host == [] then "SSH" else "SSH: " + host
  {
    var low := uni.lower("ssh-remote+" + host);
    assert !StartsWith(low, "wsl+") by {
      assert low[0] == 's';
    }
    assert low != "wsl" by {
      assert |low| >= 11;
    }
    assert SliceFrom("ssh-remote+" + host, 11) == host;
  }

  /** A bare `wsl` netloc, in any case, is `WSL`. */
  lemma RemoteTagBareWsl(netloc: string, uni: Unicode)
    requires uni.lower(netloc) == "wsl"
    ensures RemoteTag(netloc, uni) == "WSL"
  {
  }

  /**
   * Any other netloc holding `ssh` is `SSH`; this test comes before the one for
   * `dev-container`, so a netloc holding both is `SSH` too.
   */
  lemma RemoteTagSshInside(netloc: string, uni: Unicode)
    requires var low := uni.lower(netloc);
      !StartsWith(low, "wsl+") && low != "wsl" && !StartsWith(low, "ssh-remote+") && Contains(low, "ssh")
    ensures RemoteTag(netloc, uni) == "SSH"
  {
  }

  /** A netloc holding `dev-container` but no `ssh` (and not a WSL one) is `Container`. */
  lemma RemoteTagContainer(netloc: string, uni: Unicode)
    requires var low := uni.lower(netloc);
      !StartsWith(low, "wsl+") && low != "wsl" && !Contains(low, "ssh") && Contains(low, "dev-container")
    ensures RemoteTag(netloc, uni) == "Container"
  {
    var low := uni.lower(netloc);
    assert StartsWith(low, "ssh-remote+") ==> "ssh" <= low;
  }

  /** A netloc that names none of the known kinds is just `Remote`. */
  lemma RemoteTagOther(netloc: string, uni: Unicode)
    requires var low := uni.lower(netloc);
      !StartsWith(low, "wsl+") && low != "wsl" && !Contains(low, "ssh") && !Contains(low, "dev-container")
    ensures RemoteTag(netloc, uni) == "Remote"
  {
  }

  // ---------------------------------------------------------------------------
  // Label override: the text between the last '[' and the last ']'
  // ---------------------------------------------------------------------------

  /** The tag after load_projects consults the entry's label. */
  function LabelTag(labelText: string, tag: string): string
  {
    if labelText != [] && '[' in labelText && ']' in labelText then
      var ts := RFind(labelText, '[');
      var te := RFind(labelText, ']');
      if ts < te then
        assert ts >= 0 by {
          var k :| 0 <= k < |labelText| && labelText[k] == '[';
        }
        labelText[ts + 1..te]
      else tag
    else tag
  }

  /** A label ending in "[t]", with no brackets inside t, gives the tag t. */
  lemma LabelTagSuffix(prefix: string, t: string, tag: string)
    requires ']' !in prefix
    requires '[' !in t && ']' !in t
    ensures LabelTag(prefix + "[" + t + "]", tag) == t
  {
    var labelText := prefix + "[" + t + "]";
    var ts, te := |prefix|, |labelText| - 1;
    assert labelText[ts] == '[' && labelText[te] == ']';
    assert forall j :: ts < j < |labelText| - 1 ==> labelText[j] == t[j - ts - 1];
    assert RFind(labelText, ']') == te;
    assert RFind(labelText, '[') == ts;
    assert labelText[ts + 1..te] == t;
  }

  /** A labelText without a bracket pair in order keeps the tag from the URI. */
  lemma LabelTagUnbracketed(labelText: string, tag: string)
    requires '[' !in labelText || ']' !in labelText
    ensures LabelTag(labelText, tag) == tag
  {
  }

  // ---------------------------------------------------------------------------
  // Paths
  // ---------------------------------------------------------------------------

  /** "/C:/x" (a file URI's path for a Windows drive) loses its leading '/'. */
  function StripDriveSlash(path: string): (r: string)
    ensures r == path || (|path| > 2 && path[0] == '/' && path[2] == ':' && r == path[1..])
  {
    if |path| > 2 && path[0] == '/' && path[2] == ':' then path[1..] else path
  }

  lemma StripDriveSlashDrive(drive: char, rest: string)
    requires drive != '/'
    ensures StripDriveSlash(['/', drive, ':'] + rest) == [drive, ':'] + rest
    ensures StripDriveSlash([drive, ':'] + rest) == [drive, ':'] + rest
  {
    assert (['/', drive, ':'] + rest)[1..] == [drive, ':'] + rest;
  }

  /** posixpath.basename: what follows the last '/'. */
  function Basename(path: string): (r: string)
    ensures '/' !in r
    ensures |r| <= |path| && r == path[|path| - |r|..]
    ensures r == path || path[|path| - |r| - 1] == '/'
  {
    var i := RFind(path, '/');
    AfterLast(path, '/');
    var r := path[i + 1..];
    assert |path| - |r| == i + 1;
    r
  }

  /** posixpath.dirname: up to the last '/', trailing slashes removed unless only slashes. */
  function Dirname(path: string): string
  {
    var head := path[..RFind(path, '/') + 1];
    if head != [] && !AllSlashes(head) then StripTrailingSlashes(head) else head
  }

  predicate AllSlashes(s: string)
  {
    forall i :: 0 <= i < |s| ==> s[i] == '/'
  }

  function StripTrailingSlashes(s: string): (r: string)
    ensures r <= s
    ensures r == [] || r[|r| - 1] != '/'
    ensures forall i :: |r| <= i < |s| ==> s[i] == '/'
  {
    if s != [] && s[|s| - 1] == '/' then StripTrailingSlashes(s[..|s| - 1]) else s
  }

  /** A path is its directory, a '/', and its base name. */
  lemma DirnameBasename(dir: string, base: string)
    requires dir != [] && dir[|dir| - 1] != '/' && '/' !in base
    ensures Basename(dir + "/" + base) == base
    ensures Dirname(dir + "/" + base) == dir
  {
    var path := dir + "/" + base;
    RFindConcat(dir, '/', base);
    assert path[|dir| + 1..] == base;
    var head := path[..|dir| + 1];
    assert head == dir + "/";
    assert head[..|head| - 1] == dir;
    assert !AllSlashes(head) by {
      assert head[|dir| - 1] == dir[|dir| - 1];
    }
    assert StripTrailingSlashes(head) == StripTrailingSlashes(dir) == dir;
  }

  /** The extensions load_projects takes for files on a remote. */
  const CodeExtensions: seq<string> :=
    ["py", "js", "ts", "jsx", "tsx", "vue", "json", "sh", "md",
     "txt", "html", "css", "scss", "yaml", "yml", "toml", "xml"]

  /** The text after the last '.', as `rsplit('.', 1)[-1]`. */
  function Extension(name: string): (ext: string)
    ensures '.' !in ext
    ensures |ext| <= |name| && ext == name[|name| - |ext|..]
    ensures ext == name || name[|name| - |ext| - 1] == '.'
  {
    var i := RFind(name, '.');
    AfterLast(name, '.');
    var r := name[i + 1..];
    assert |name| - |r| == i + 1;
    r
  }

  /** A remote entry recorded as a folder whose path has a code extension is really a file. */
  function RemoteKind(kind: ProjectKind, path: string, uni: Unicode): (k: ProjectKind)
    ensures k == kind || (kind == Folder && k == File)
  {
    if kind == Folder then
      var base := Basename(path);
      if '.' in base && !StartsWith(base, ".") && uni.lower(Extension(base)) in CodeExtensions then File
      else kind
    else kind
  }

  /** "dir/main.py" and the like are files; dot-files and extension-less names stay folders. */
  lemma RemoteKindByExtension(dir: string, stem: string, ext: string, uni: Unicode)
    requires dir != [] && dir[|dir| - 1] != '/'
    requires stem != [] && stem[0] != '.' && '/' !in stem && '/' !in ext && '.' !in ext
    ensures RemoteKind(Folder, dir + "/" + stem + "." + ext, uni) ==
      if uni.lower(ext) in CodeExtensions then File else Folder
  {
    NamedFile(dir, stem, ext);
    DottedName(stem, ext);
  }

  lemma DottedName(stem: string, ext: string)
    requires stem != [] && stem[0] != '.'
    ensures '.' in stem + "." + ext && !StartsWith(stem + "." + ext, ".")
  {
    var base := stem + "." + ext;
    assert base[|stem|] == '.';
    assert base[0] == stem[0];
  }

  /** The base name of "dir/stem.ext" is "stem.ext", and its extension is "ext". */
  lemma NamedFile(dir: string, stem: string, ext: string)
    requires dir != [] && dir[|dir| - 1] != '/'
    requires stem != [] && '/' !in stem && '/' !in ext && '.' !in ext
    ensures Basename(dir + "/" + stem + "." + ext) == stem + "." + ext
    ensures Extension(stem + "." + ext) == ext
  {
    var base := stem + "." + ext;
    assert dir + "/" + stem + "." + ext == dir + "/" + base;
    DirnameBasename(dir, base);
    RFindConcat(stem, '.', ext);
    assert base[|stem| + 1..] == ext;
  }

  lemma RemoteKindDotFile(dir: string, name: string, uni: Unicode)
    requires dir != [] && dir[|dir| - 1] != '/' && '/' !in name
    requires name == [] || name[0] == '.' || '.' !in name
    ensures RemoteKind(Folder, dir + "/" + name, uni) == Folder
  {
    DirnameBasename(dir, name);
  }

  // ---------------------------------------------------------------------------
  // Drive paths between Windows and WSL
  // ---------------------------------------------------------------------------

  /** On a host that is not WSL (Windows, Linux, macOS), "/mnt/d/x" is shown as "D:/x" (and nothing else is converted). */
  function WslToWindows(path: string, uni: Unicode): (display: string)
    ensures display == [] || (|path| > 6 && StartsWith(path, "/mnt/") && path[6] == '/')
  {
    if StartsWith(path, "/mnt/") && |path| > 6 then
      if path[6] == '/' && uni.isAlpha(path[5]) then
        var drive := uni.upper([path[5]]);
        var rest := path[7..];
        if ':' !in rest then drive + ":/" + rest else []
      else []
    else []
  }

  /** On a WSL host, "D:\x" is shown as "/mnt/d/x". */
  function WindowsToWsl(path: string, uni: Unicode): (display: string)
    ensures display == [] || StartsWith(display, "/mnt/")
  {
    if |path| > 2 && path[1] == ':' then
      "/mnt/" + uni.lower([path[0]]) + Replace(path[2..], '\\', '/')
    else []
  }

  /** A drive letter the Unicode tables treat as an ASCII letter pair `lower`/`upper`. */
  ghost predicate DriveLetter(lower: char, upper: char, uni: Unicode)
  {
    uni.isAlpha(lower) && uni.upper([lower]) == [upper] && uni.lower([upper]) == [lower]
  }

  /** A WSL mount path shown on a host that is not WSL converts back to itself on WSL. */
  lemma WslWindowsRoundTrip(lower: char, upper: char, rest: string, uni: Unicode)
    requires DriveLetter(lower, upper, uni)
    requires ':' !in rest && '\\' !in rest
    ensures WslToWindows("/mnt/" + [lower] + "/" + rest, uni) == [upper] + ":/" + rest
    ensures WindowsToWsl(WslToWindows("/mnt/" + [lower] + "/" + rest, uni), uni) == "/mnt/" + [lower] + "/" + rest
  {
    WslShownOnWindows(lower, upper, rest, uni);
    WindowsShownOnWsl(lower, upper, rest, uni);
  }

  /** On a host that is not WSL, `/mnt/d/rest` is shown as `D:/rest` when rest holds no ':'. */
  lemma WslShownOnWindows(lower: char, upper: char, rest: string, uni: Unicode)
    requires DriveLetter(lower, upper, uni)
    requires ':' !in rest
    ensures WslToWindows("/mnt/" + [lower] + "/" + rest, uni) == [upper] + ":/" + rest
  {
    var path := "/mnt/" + [lower] + "/" + rest;
    assert path[5] == lower && path[6] == '/';
    assert path[7..] == rest;
  }

  /** On a WSL host, `D:/rest` is shown as `/mnt/d/rest`. */
  lemma WindowsShownOnWsl(lower: char, upper: char, rest: string, uni: Unicode)
    requires DriveLetter(lower, upper, uni)
    requires '\\' !in rest
    ensures WindowsToWsl([upper] + ":/" + rest, uni) == "/mnt/" + [lower] + "/" + rest
  {
    var win := [upper] + ":/" + rest;
    assert win[2..] == "/" + rest;
    ReplaceAbsent("/" + rest, '\\', '/');
  }

  /** A Windows drive path shown on WSL converts back to itself on a host that is not WSL. */
  lemma WindowsWslRoundTrip(lower: char, upper: char, rest: string, uni: Unicode)
    requires DriveLetter(lower, upper, uni)
    requires ':' !in rest && '\\' !in rest
    ensures WindowsToWsl([upper] + ":/" + rest, uni) == "/mnt/" + [lower] + "/" + rest
    ensures WslToWindows(WindowsToWsl([upper] + ":/" + rest, uni), uni) == [upper] + ":/" + rest
  {
    WindowsShownOnWsl(lower, upper, rest, uni);
    WslShownOnWindows(lower, upper, rest, uni);
  }

  /** How open_in_file_manager on WSL names a path for explorer.exe. */
  datatype ExplorerTarget =
    | WindowsPath(path: string)
    | AskWslpath     // a path outside /mnt/: converted by the `wslpath` program
    | IndexError     // exactly "/mnt/": path[5] raises, and the call reports failure

  function WslExplorerTarget(path: string, uni: Unicode): ExplorerTarget
  {
    if StartsWith(path, "/mnt/") then
      if |path| > 5 then WindowsPath(uni.upper([path[5]]) + ":" + Replace(path[6..], '/', '\\'))
      else IndexError
    else AskWslpath
  }

  /** "/mnt/c/x/y" opens as "C:\x\y"; every '/' after the drive becomes a backslash. */
  lemma ExplorerTargetMounted(lower: char, upper: char, rest: string, uni: Unicode)
    requires uni.upper([lower]) == [upper] && upper != '/'
    ensures WslExplorerTarget("/mnt/" + [lower] + rest, uni) == WindowsPath([upper] + ":" + Replace(rest, '/', '\\'))
    ensures '/' !in WslExplorerTarget("/mnt/" + [lower] + rest, uni).path
  {
    var path := "/mnt/" + [lower] + rest;
    assert path[6..] == rest;
    assert path[5] == lower;
    var converted := Replace(rest, '/', '\\');
    var r := [upper] + ":" + converted;
    assert forall i :: 2 <= i < |r| ==> r[i] == converted[i - 2];
  }

  lemma ExplorerTargetBareMount(uni: Unicode)
    ensures WslExplorerTarget("/mnt/", uni) == IndexError
  {
  }

  // ---------------------------------------------------------------------------
  // Opening projects: the command lines open_projects starts
  // ---------------------------------------------------------------------------

  /** A process to start: a command line, or the editor on a fresh `.code-workspace` file. */
  datatype Launch =
    | Argv(args: seq<string>)
    | WorkspaceFile(folders: seq<string>)

  /** The folder paths of the `file://` items, for the workspace file. */
  function WorkspaceFolders(items: seq<Project>, uriPath: string -> string): (folders: seq<string>)
    ensures |folders| <= |items|
    ensures folders == [] <==> forall i :: 0 <= i < |items| ==> !StartsWith(items[i].uri, "file://")
  {
    if items == [] then []
    else
      var rest := WorkspaceFolders(items[1..], uriPath);
      assert forall i :: 1 <= i < |items| ==> items[1..][i - 1] == items[i];
      if StartsWith(items[0].uri, "file://") then [StripDriveSlash(uriPath(items[0].uri))] + rest else rest
  }

  /** The folders of a concatenation are those of its parts, in order. */
  lemma {:induction false} WorkspaceFoldersAppend(a: seq<Project>, b: seq<Project>, uriPath: string -> string)
    ensures WorkspaceFolders(a + b, uriPath) == WorkspaceFolders(a, uriPath) + WorkspaceFolders(b, uriPath)
  {
    if a == [] {
      assert a + b == b;
    } else {
      assert (a + b)[0] == a[0];
      assert (a + b)[1..] == a[1..] + b;
      WorkspaceFoldersAppend(a[1..], b, uriPath);
    }
  }

  /** A local item gives its path, drive slash stripped; a remote item gives nothing. */
  lemma WorkspaceFoldersOne(p: Project, uriPath: string -> string)
    ensures WorkspaceFolders([p], uriPath) ==
      if StartsWith(p.uri, "file://") then [StripDriveSlash(uriPath(p.uri))] else []
  {
  }

  /** When every item is local, the workspace lists each item's path, in order. */
  lemma {:induction false} WorkspaceFoldersLocal(items: seq<Project>, uriPath: string -> string)
    requires forall i :: 0 <= i < |items| ==> StartsWith(items[i].uri, "file://")
    ensures var folders := WorkspaceFolders(items, uriPath);
      |folders| == |items| &&
      forall i :: 0 <= i < |items| ==> folders[i] == StripDriveSlash(uriPath(items[i].uri))
  {
    if items != [] {
      var rest := items[1..];
      forall i | 0 <= i < |rest|
        ensures StartsWith(rest[i].uri, "file://")
      {
        assert rest[i] == items[i + 1];
      }
      WorkspaceFoldersLocal(rest, uriPath);
      var folders := WorkspaceFolders(items, uriPath);
      assert folders == [StripDriveSlash(uriPath(items[0].uri))] + WorkspaceFolders(rest, uriPath);
      forall i | 1 <= i < |items|
        ensures folders[i] == StripDriveSlash(uriPath(items[i].uri))
      {
        assert rest[i - 1] == items[i];
      }
    }
  }

  /** The command line for the item at position `i` of the list being opened. */
  function OpenArgv(vscode: string, p: Project, i: nat, newWindow: bool, uriPath: string -> string): seq<string>
  {
    if StartsWith(p.uri, "vscode-remote://") then
      if newWindow || i > 0 then [vscode, "--new-window", "--folder-uri", p.uri]
      else [vscode, "--folder-uri", p.uri]
    else
      [vscode, if newWindow || i > 0 then "-n" else "-r", StripDriveSlash(uriPath(p.uri))]
  }

  function OpenEach(vscode: string, items: seq<Project>, from: nat, newWindow: bool, uriPath: string -> string):
    (launches: seq<Launch>)
    ensures |launches| == |items|
    ensures forall i :: 0 <= i < |items| ==> launches[i] == Argv(OpenArgv(vscode, items[i], from + i, newWindow, uriPath))
  {
    if items == [] then []
    else [Argv(OpenArgv(vscode, items[0], from, newWindow, uriPath))] + OpenEach(vscode, items[1..], from + 1, newWindow, uriPath)
  }

  /**
   * open_projects: nothing for no items; one workspace file for several items
   * opened as a workspace (if any is a local folder); otherwise one command per item.
   * `uriPath` stands for `unquote(urlparse(uri).path)`.
   */
  function OpenCommands(vscode: string, items: seq<Project>, newWindow: bool, asWorkspace: bool,
                        uriPath: string -> string): seq<Launch>
  {
    if items == [] then []
    else if asWorkspace && |items| > 1 then
      var folders := WorkspaceFolders(items, uriPath);
      if folders != [] then [WorkspaceFile(folders)] else []
    else OpenEach(vscode, items, 0, newWindow, uriPath)
  }

  /**
   * Several items opened as a workspace start the editor once, on a workspace file of
   * their local folders, when at least one item is local; with none, nothing starts.
   */
  lemma OpenWorkspace(vscode: string, items: seq<Project>, newWindow: bool, uriPath: string -> string)
    requires |items| >= 2
    ensures var launches := OpenCommands(vscode, items, newWindow, true, uriPath);
      (launches == [WorkspaceFile(WorkspaceFolders(items, uriPath))] <==>
        exists i :: 0 <= i < |items| && StartsWith(items[i].uri, "file://")) &&
      (launches == [] <==> forall i :: 0 <= i < |items| ==> !StartsWith(items[i].uri, "file://"))
  {
  }

  /**
   * Only the first item may reuse the current window: a local item gets "-r" exactly
   * when it is first and no new window is asked for, "-n" otherwise; a remote item
   * gets "--new-window" under the same condition.
   */
  lemma OpenCommandsWindows(vscode: string, items: seq<Project>, newWindow: bool, asWorkspace: bool,
                            uriPath: string -> string, i: nat)
    requires i < |items|
    requires !asWorkspace || |items| == 1
    ensures var launches := OpenCommands(vscode, items, newWindow, asWorkspace, uriPath);
      |launches| == |items| && launches[i].Argv? &&
      var args := launches[i].args;
      |args| >= 3 && args[0] == vscode &&
      (StartsWith(items[i].uri, "vscode-remote://") ==>
        args[|args| - 2..] == ["--folder-uri", items[i].uri] &&
        (if newWindow || i > 0 then |args| == 4 && args[1] == "--new-window" else |args| == 3)) &&
      (!StartsWith(items[i].uri, "vscode-remote://") ==>
        args == [vscode, if !newWindow && i == 0 then "-r" else "-n", StripDriveSlash(uriPath(items[i].uri))])
  {
  }
}
