/** The Linux back end: reading desktop entries into `App` records, matching
    X11 window classes against the catalog, and listing the running and the
    frontmost applications from the output of `wmctrl -l` and `xprop`. */
module Linux {
  import opened Common
  import opened Text
  import opened Paths
  import opened StringOrder

  // =====================================================================
  // Desktop entries

  /** One section of a parsed INI file: key to value, where a key written
      without `=` has no value. */
  type IniSection = map<string, Option<string>>

  /** A parsed INI file: section name to section, as the `ini!` macro
      returns it (section names and keys in lower case). */
  type Ini = map<string, IniSection>

  const DesktopEntrySection := "desktop entry"

  /** What the desktop-entry section says about `key`: `None` when the
      section or the key is absent, `Some(None)` for a key without a value. */
  function EntryValue(ini: Ini, key: string): Option<Option<string>>
  {
    if DesktopEntrySection in ini && key in ini[DesktopEntrySection]
    then Some(ini[DesktopEntrySection][key])
    else None
  }

  /** The value of `key`, when the desktop-entry section gives one. */
  function EntryText(ini: Ini, key: string): Option<string>
  {
    match EntryValue(ini, key)
    case Some(Some(v)) => Some(v)
    case _ => None
  }

  /** `key` is present but has no value: unwrapping it panics. */
  predicate ValueMissing(ini: Ini, key: string)
  {
    EntryValue(ini, key) == Some(None)
  }

  /** `parse_desktop_file`: a directory gives the default record; otherwise
      the record keeps the path and takes `exec`, `icon` and `name` from the
      desktop-entry section when they are there. A key present without a
      value stops the parse at that key. */
  method ParseDesktopFile(desktopFilePath: Path, isDir: bool, ini: Ini) returns (r: Result<App>)
    ensures isDir ==> r == Success(DefaultApp)
    ensures !isDir ==> (r.Success? <==>
      !ValueMissing(ini, "exec") && !ValueMissing(ini, "icon") && !ValueMissing(ini, "name"))
    ensures !isDir && ValueMissing(ini, "exec") ==> r == Failure(MissingIniValue("exec"))
    ensures !isDir && !ValueMissing(ini, "exec") && ValueMissing(ini, "icon")
      ==> r == Failure(MissingIniValue("icon"))
    ensures (!isDir && !ValueMissing(ini, "exec") && !ValueMissing(ini, "icon")
             && ValueMissing(ini, "name")) ==> r == Failure(MissingIniValue("name"))
    ensures !isDir && r.Success? ==>
      r.value.app_desktop_path == desktopFilePath
      && r.value.app_path_exe == EntryText(ini, "exec")
      && r.value.icon_path == EntryText(ini, "icon")
      && r.value.name == (if EntryText(ini, "name").Some? then EntryText(ini, "name").value else "")
  {
    var app := DefaultApp;
    if isDir {
      return Success(app);
    }
    app := app.(app_desktop_path := desktopFilePath);
    if DesktopEntrySection in ini {
      var entry := ini[DesktopEntrySection];
      if "exec" in entry {
        match entry["exec"]
        case None => return Failure(MissingIniValue("exec"));
        case Some(exec) => app := app.(app_path_exe := Some(exec));
      }
      if "icon" in entry {
        match entry["icon"]
        case None => return Failure(MissingIniValue("icon"));
        case Some(icon) => app := app.(icon_path := Some(icon));
      }
      if "name" in entry {
        match entry["name"]
        case None => return Failure(MissingIniValue("name"));
        case Some(name) => app := app.(name := name);
      }
    }
    return Success(app);
  }

  // =====================================================================
  // Identity matching

  /** The file stem of an app's desktop-entry path, or "" when it has none. */
  function DesktopStem(app: App): (r: string)
    ensures '/' !in r
    ensures r == "" <==> FileStem(app.app_desktop_path).None?
    ensures r != "" ==> FileStem(app.app_desktop_path) == Some(r)
  {
    match FileStem(app.app_desktop_path)
    case None => ""
    case Some(stem) => stem
  }

  /** `match_app_name`: the name equals the identifier, or equals it ignoring
      case, or the desktop-file stem (as it is) equals the lower-cased
      identifier. Two clauses decide a match: the exact-name clause is
      implied by the case-insensitive one. */
  predicate MatchAppName(app: App, appName: string): (r: bool)
    ensures r <==> Lower(appName) == Lower(app.name) || DesktopStem(app) == Lower(appName)
  {
    app.name == appName
    || Lower(appName) == Lower(app.name)
    || DesktopStem(app) == Lower(appName)
  }

  predicate HasUpper(s: string)
  {
    exists k :: 0 <= k < |s| && IsUpper(s[k])
  }

  /** The stem is compared without lower-casing it, against a lower-cased
      identifier: a stem with an upper-case letter never matches, so only
      the name decides. */
  lemma UpperCaseStemNeverMatches(app: App, appName: string)
    requires HasUpper(DesktopStem(app))
    ensures DesktopStem(app) != Lower(appName)
    ensures MatchAppName(app, appName) <==> Lower(appName) == Lower(app.name)
  {
    LowerIsLower(appName);
    assert !HasUpper(Lower(appName));
  }

  /** An app whose desktop path has no file stem (the default, empty path
      among them) matches through the stem clause only the empty identifier. */
  lemma NoStemMatchesOnlyEmpty(app: App, appName: string)
    requires FileStem(app.app_desktop_path) == None
    ensures DesktopStem(app) == Lower(appName) <==> appName == ""
  {
  }

  /** The default record matches the empty identifier and nothing else. */
  lemma DefaultAppMatchesOnlyEmpty(appName: string)
    ensures MatchAppName(DefaultApp, appName) <==> appName == ""
  {
    EmptyPathHasNoStem();
    NoStemMatchesOnlyEmpty(DefaultApp, appName);
  }

  /** A GNOME Terminal entry, wherever its desktop file lives. */
  function TerminalEntry(dir: Path): App
  {
    App("Terminal", None, None, dir + "/" + "org.gnome.Terminal" + ".desktop")
  }

  lemma TerminalStem(dir: Path)
    ensures DesktopStem(TerminalEntry(dir)) == "org.gnome.Terminal"
  {
    DesktopFileStem(dir, "org.gnome.Terminal");
  }

  lemma TerminalStemHasUpper()
    ensures HasUpper("org.gnome.Terminal")
  {
    assert IsUpper("org.gnome.Terminal"[10]);
  }

  /** The window class "terminal" finds the entry by its name. */
  lemma TerminalMatchesByName(dir: Path)
    ensures MatchAppName(TerminalEntry(dir), "terminal")
  {
    assert Lower("Terminal") == "terminal" == Lower("terminal");
  }

  /** The entry's own desktop-file stem, having upper-case letters, does
      not find it. */
  lemma TerminalNotMatchedByStem(dir: Path)
    ensures !MatchAppName(TerminalEntry(dir), "org.gnome.Terminal")
  {
    TerminalStem(dir);
    TerminalStemHasUpper();
    UpperCaseStemNeverMatches(TerminalEntry(dir), "org.gnome.Terminal");
    assert |Lower("org.gnome.Terminal")| != |Lower("Terminal")|;
  }

  /** An unrelated name does not find the entry. */
  lemma TerminalNotMatchedByOtherName(dir: Path)
    ensures !MatchAppName(TerminalEntry(dir), "Nonexistent")
  {
    TerminalStem(dir);
    TerminalStemHasUpper();
    UpperCaseStemNeverMatches(TerminalEntry(dir), "Nonexistent");
    assert |Lower("Nonexistent")| != |Lower("Terminal")|;
  }

  /** A lower-case stem is found from a window class that differs from it
      only in case, whatever the display name. */
  lemma StemMatchExample(dir: Path)
    ensures MatchAppName(App("Firefox Web Browser", None, None, dir + "/" + "firefox" + ".desktop"), "Firefox")
  {
    DesktopFileStem(dir, "firefox");
    assert Lower("Firefox") == "firefox";
  }

  /** Position of the first element of `xs` that satisfies `p`
      (`Iterator::find`). */
  function FirstIndex<T>(xs: seq<T>, p: T -> bool): (r: Option<nat>)
    ensures r.Some? ==> r.value < |xs| && p(xs[r.value])
    ensures r.Some? ==> forall j :: 0 <= j < r.value ==> !p(xs[j])
    ensures r.None? <==> forall j :: 0 <= j < |xs| ==> !p(xs[j])
  {
    if xs == [] then None
    else if p(xs[0]) then Some(0)
    else match FirstIndex(xs[1..], p)
      case None => None
      case Some(k) => Some(k + 1)
  }

  /** An element satisfying `p` with none before it is the first. */
  lemma FirstIndexAt<T>(xs: seq<T>, p: T -> bool, i: nat)
    requires i < |xs| && p(xs[i])
    requires forall j :: 0 <= j < i ==> !p(xs[j])
    ensures FirstIndex(xs, p) == Some(i)
  {
  }

  /** The closure `find` is given: does an app match `appName`? */
  function Matches(appName: string): App -> bool
  {
    app => MatchAppName(app, appName)
  }

  /** Position of the first catalog entry that matches `appName`. */
  function FirstMatch(apps: seq<App>, appName: string): Option<nat>
  {
    FirstIndex(apps, Matches(appName))
  }

  /** The first catalog entry that matches `appName`, if any. */
  function Find(apps: seq<App>, appName: string): (r: Option<App>)
    ensures r.Some? ==> r.value in apps && MatchAppName(r.value, appName)
  {
    match FirstMatch(apps, appName)
    case None => None
    case Some(k) => Some(apps[k])
  }

  /** The `filter_map` of `get_running_apps`: each identifier mapped to its
      first matching catalog entry, identifiers without one dropped. */
  function Resolve(apps: seq<App>, names: seq<string>): (r: seq<App>)
    ensures |r| <= |names|
    ensures forall k :: 0 <= k < |r| ==> r[k] in apps
  {
    if names == [] then []
    else match Find(apps, names[0])
      case None => Resolve(apps, names[1..])
      case Some(app) => [app] + Resolve(apps, names[1..])
  }

  /** The identifiers `Resolve` keeps, in order: those with a catalog
      match, each standing at the place of the entry it resolves to. */
  ghost function MatchedNames(apps: seq<App>, names: seq<string>): (m: seq<string>)
    ensures |m| == |Resolve(apps, names)|
    ensures forall k :: 0 <= k < |m| ==> Find(apps, m[k]) == Some(Resolve(apps, names)[k])
    ensures forall x :: x in m <==> x in names && Find(apps, x).Some?
  {
    if names == [] then []
    else
      assert names == [names[0]] + names[1..];
      if Find(apps, names[0]).Some? then [names[0]] + MatchedNames(apps, names[1..])
      else MatchedNames(apps, names[1..])
  }

  /** Keeping some identifiers of an ascending list keeps it ascending. */
  lemma {:induction false} MatchedNamesSorted(apps: seq<App>, names: seq<string>)
    requires StrictlySorted(names)
    ensures StrictlySorted(MatchedNames(apps, names))
  {
    if names != [] {
      var rest := MatchedNames(apps, names[1..]);
      MatchedNamesSorted(apps, names[1..]);
      if Find(apps, names[0]).Some? {
        forall j | 0 <= j < |rest| ensures Below(names[0], rest[j]) {
          assert rest[j] in rest;
          var i :| 0 <= i < |names[1..]| && names[1..][i] == rest[j];
          assert names[i + 1] == rest[j];
        }
        StrictlySortedCons(names[0], rest);
      }
    }
  }


  // =====================================================================
  // Running applications

  /** What running a command gave: it could not be started, or it exited
      (successfully or not) after printing `stdout`. */
  datatype CommandOutput = NotRun | Exited(success: bool, stdout: string)

  /** An `xprop` invocation: `xprop -root <property>` or
      `xprop -id <window> <property>`. */
  datatype XpropQuery = RootWindow(property: string) | Window(id: string, property: string)

  /** The X11 tools as the model sees them: the output of `wmctrl -l`, and
      the output of `xprop` for each query. */
  datatype X11Session = X11Session(wmctrl: CommandOutput, xprop: XpropQuery -> CommandOutput)

  const NormalWindowType := "_NET_WM_WINDOW_TYPE_NORMAL"

  /** The class the running path records from `xprop -id <w> WM_CLASS`
      output: the second quoted string, when there are two. */
  function RunningClassOf(classOutput: string): (r: Option<string>)
    ensures r.Some? <==> |SplitOn(classOutput, '"')| >= 5
    ensures r.Some? ==> r.value == SplitOn(classOutput, '"')[3] && '"' !in r.value
  {
    QuotedStringsAreOddPieces(classOutput);
    var captures := QuotedStrings(classOutput);
    if |captures| > 1 then Some(captures[1]) else None
  }

  /** A type query that succeeded and names the normal window type. */
  predicate IsNormalWindow(typeOutput: CommandOutput): (r: bool)
    ensures r ==> typeOutput.Exited? && typeOutput.success
                  && |typeOutput.stdout| >= |NormalWindowType|
    ensures typeOutput == Exited(true, NormalWindowType) ==> r
  {
    typeOutput.Exited? && typeOutput.success && Contains(typeOutput.stdout, NormalWindowType)
  }

  /** What the window `id` contributes: a class only when its type query
      succeeds and names the normal window type, and its class query
      succeeds with two quoted strings. A query that cannot be started
      fails the whole listing. */
  function WindowClassOf(id: string, xprop: XpropQuery -> CommandOutput): (r: Result<Option<string>>)
    ensures r.Success? && r.value.Some? ==>
      var t := xprop(Window(id, "_NET_WM_WINDOW_TYPE"));
      var c := xprop(Window(id, "WM_CLASS"));
      t.Exited? && t.success && Contains(t.stdout, NormalWindowType)
      && c.Exited? && c.success && Some(r.value.value) == RunningClassOf(c.stdout)
    ensures var t := xprop(Window(id, "_NET_WM_WINDOW_TYPE"));
            var c := xprop(Window(id, "WM_CLASS"));
            IsNormalWindow(t) && c.Exited? && c.success ==> r == Success(RunningClassOf(c.stdout))
    ensures var t := xprop(Window(id, "_NET_WM_WINDOW_TYPE"));
            var c := xprop(Window(id, "WM_CLASS"));
            r.Failure? <==> t.NotRun? || (IsNormalWindow(t) && c.NotRun?)
    ensures r.Failure? ==> r.error == CommandNotRun("xprop")
  {
    match xprop(Window(id, "_NET_WM_WINDOW_TYPE"))
    case NotRun => Failure(CommandNotRun("xprop"))
    case Exited(typeOk, typeOutput) =>
      if !typeOk || !Contains(typeOutput, NormalWindowType) then Success(None)
      else match xprop(Window(id, "WM_CLASS"))
        case NotRun => Failure(CommandNotRun("xprop"))
        case Exited(classOk, classOutput) =>
          if !classOk then Success(None) else Success(RunningClassOf(classOutput))
  }

  /** One line of `wmctrl -l`: the window id is its first token, or "" for
      a blank line. */
  function LineWindowClass(line: string, xprop: XpropQuery -> CommandOutput): (r: Result<Option<string>>)
    ensures AllWhitespace(line) ==> r == WindowClassOf("", xprop)
    ensures r.Success? && r.value.Some? ==> '"' !in r.value.value
    ensures r.Failure? ==> r.error == CommandNotRun("xprop")
  {
    WindowClassOf(FirstToken(line), xprop)
  }

  /** A `wmctrl -l` line queries the window named by its first token. */
  lemma WmctrlLineWindow(lead: string, id: string, rest: string, xprop: XpropQuery -> CommandOutput)
    requires AllWhitespace(lead)
    requires id != [] && NoWhitespace(id)
    requires rest == [] || IsWhitespace(rest[0])
    ensures LineWindowClass(lead + id + rest, xprop) == WindowClassOf(id, xprop)
  {
    FirstTokenOf(lead, id, rest);
  }

  /** A blank line queries the window with the empty id. */
  lemma BlankWmctrlLine(line: string, xprop: XpropQuery -> CommandOutput)
    requires AllWhitespace(line)
    ensures LineWindowClass(line, xprop) == WindowClassOf("", xprop)
  {
    TokensEmpty(line);
  }

  /** `acc` followed by the classes of a listing that succeeded. */
  function Prepend(acc: seq<string>, r: Result<seq<string>>): Result<seq<string>>
  {
    match r
    case Failure(e) => Failure(e)
    case Success(rest) => Success(acc + rest)
  }

  /** The classes the windows contribute, in window order; the first window
      whose query cannot be started fails the listing. */
  function WindowClasses(lines: seq<string>, xprop: XpropQuery -> CommandOutput): (r: Result<seq<string>>)
    ensures r.Success? ==> |r.value| <= |lines|
    ensures r.Success? ==> forall k :: 0 <= k < |r.value| ==> '"' !in r.value[k]
  {
    if lines == [] then Success([])
    else match LineWindowClass(lines[0], xprop)
      case Failure(e) => Failure(e)
      case Success(None) => WindowClasses(lines[1..], xprop)
      case Success(Some(c)) => Prepend([c], WindowClasses(lines[1..], xprop))
  }

  /** Some line of `lines` records the class `c`. */
  ghost predicate RecordedAt(lines: seq<string>, xprop: XpropQuery -> CommandOutput, c: string)
  {
    exists k :: 0 <= k < |lines| && LineWindowClass(lines[k], xprop) == Success(Some(c))
  }

  /** The listing of classes fails exactly when some line's queries fail;
      otherwise it holds exactly the classes that the lines record. */
  lemma WindowClassesMembers(lines: seq<string>, xprop: XpropQuery -> CommandOutput)
    ensures WindowClasses(lines, xprop).Failure? <==>
              exists k :: 0 <= k < |lines| && LineWindowClass(lines[k], xprop).Failure?
    ensures WindowClasses(lines, xprop).Success? ==>
              forall c :: c in WindowClasses(lines, xprop).value <==> RecordedAt(lines, xprop, c)
  {
    WindowClassesFailure(lines, xprop);
    WindowClassesRecorded(lines, xprop);
  }

  lemma {:induction false} WindowClassesFailure(lines: seq<string>, xprop: XpropQuery -> CommandOutput)
    ensures WindowClasses(lines, xprop).Failure? <==>
              exists k :: 0 <= k < |lines| && LineWindowClass(lines[k], xprop).Failure?
    decreases |lines|
  {
    if lines != [] {
      var rest := lines[1..];
      WindowClassesFailure(rest, xprop);
      if LineWindowClass(lines[0], xprop).Success? {
        if exists k :: 0 <= k < |lines| && LineWindowClass(lines[k], xprop).Failure? {
          var k :| 0 <= k < |lines| && LineWindowClass(lines[k], xprop).Failure?;
          assert LineWindowClass(rest[k - 1], xprop).Failure?;
        }
        if exists k :: 0 <= k < |rest| && LineWindowClass(rest[k], xprop).Failure? {
          var k :| 0 <= k < |rest| && LineWindowClass(rest[k], xprop).Failure?;
          assert LineWindowClass(lines[k + 1], xprop).Failure?;
        }
      }
    }
  }

  lemma {:induction false} WindowClassesRecorded(lines: seq<string>, xprop: XpropQuery -> CommandOutput)
    ensures WindowClasses(lines, xprop).Success? ==>
              forall c :: c in WindowClasses(lines, xprop).value <==> RecordedAt(lines, xprop, c)
    decreases |lines|
  {
    if lines != [] && WindowClasses(lines, xprop).Success? {
      var rest := lines[1..];
      WindowClassesRecorded(rest, xprop);
      forall c ensures c in WindowClasses(lines, xprop).value <==> RecordedAt(lines, xprop, c) {
        if RecordedAt(lines, xprop, c) {
          var k :| 0 <= k < |lines| && LineWindowClass(lines[k], xprop) == Success(Some(c));
          if k > 0 {
            assert LineWindowClass(rest[k - 1], xprop) == Success(Some(c));
          }
        }
        if RecordedAt(rest, xprop, c) {
          var k :| 0 <= k < |rest| && LineWindowClass(rest[k], xprop) == Success(Some(c));
          assert LineWindowClass(lines[k + 1], xprop) == Success(Some(c));
        }
      }
    }
  }

  lemma WindowClassesStep(lines: seq<string>, i: nat, xprop: XpropQuery -> CommandOutput)
    requires i < |lines|
    ensures WindowClasses(lines[i..], xprop) ==
      match LineWindowClass(lines[i], xprop)
      case Failure(e) => Failure(e)
      case Success(None) => WindowClasses(lines[i + 1..], xprop)
      case Success(Some(c)) => Prepend([c], WindowClasses(lines[i + 1..], xprop))
  {
    assert lines[i..][0] == lines[i];
    assert lines[i..][1..] == lines[i + 1..];
  }

  /** Prepending the classes collected so far and then one more is the
      same as prepending the extended collection: the loop's accumulator
      grows at its end. */
  lemma PrependInStages(acc: seq<string>, c: seq<string>, r: Result<seq<string>>)
    ensures Prepend(acc, Prepend(c, r)) == Prepend(acc + c, r)
  {
    if r.Success? {
      assert acc + (c + r.value) == (acc + c) + r.value;
    }
  }

  /** The running applications for a set of recorded classes: sorted and
      without repeats, then each resolved against the catalog. */
  function RunningFromClasses(apps: seq<App>, classes: seq<string>): (r: seq<App>)
    ensures |r| <= |classes|
    ensures forall k :: 0 <= k < |r| ==> r[k] in apps
  {
    var sorted := Sort(classes);
    assert |sorted| == |multiset(sorted)| == |multiset(classes)| == |classes|;
    Resolve(apps, Dedup(sorted))
  }

  /** `get_running_apps` as a function of the catalog and the tools' output. */
  function RunningApps(apps: seq<App>, session: X11Session): (r: Result<seq<App>>)
    ensures r.Success? ==> session.wmctrl.Exited? && session.wmctrl.success
    ensures r.Success? ==> |r.value| <= |Lines(session.wmctrl.stdout)|
    ensures r.Success? ==> forall k :: 0 <= k < |r.value| ==> r.value[k] in apps
  {
    match session.wmctrl
    case NotRun => Failure(CommandNotRun("wmctrl"))
    case Exited(ok, output) =>
      if !ok then Failure(CommandFailed("wmctrl"))
      else match WindowClasses(Lines(output), session.xprop)
        case Failure(e) => Failure(e)
        case Success(classes) => Success(RunningFromClasses(apps, classes))
  }

  /** The body of the window loop of `get_running_apps`: query the type of
      the window named by the line and, for a normal window, its class. */
  method QueryWindowClass(line: string, xprop: XpropQuery -> CommandOutput)
    returns (r: Result<Option<string>>)
    ensures r == LineWindowClass(line, xprop)
  {
    var winId := FirstToken(line);
    var typeOutput := xprop(Window(winId, "_NET_WM_WINDOW_TYPE"));
    if typeOutput.NotRun? {
      return Failure(CommandNotRun("xprop"));
    }
    if !typeOutput.success || !Contains(typeOutput.stdout, NormalWindowType) {
      return Success(None);
    }
    var classOutput := xprop(Window(winId, "WM_CLASS"));
    if classOutput.NotRun? {
      return Failure(CommandNotRun("xprop"));
    }
    if !classOutput.success {
      return Success(None);
    }
    var captures := QuotedStrings(classOutput.stdout);
    if |captures| > 1 {
      return Success(Some(captures[1]));
    }
    return Success(None);
  }

  /** The window loop of `get_running_apps`: for each line of `wmctrl -l`,
      query the window's type and, for a normal window, its class. */
  method CollectWindowClasses(lines: seq<string>, xprop: XpropQuery -> CommandOutput)
    returns (r: Result<seq<string>>)
    ensures r == WindowClasses(lines, xprop)
  {
    var applications: seq<string> := [];
    var i := 0;
    assert lines[i..] == lines;
    assert Prepend(applications, WindowClasses(lines, xprop)) == WindowClasses(lines, xprop) by {
      if WindowClasses(lines, xprop).Success? {
        assert applications + WindowClasses(lines, xprop).value == WindowClasses(lines, xprop).value;
      }
    }
    while i < |lines|
      invariant 0 <= i <= |lines|
      invariant WindowClasses(lines, xprop) == Prepend(applications, WindowClasses(lines[i..], xprop))
    {
      WindowClassesStep(lines, i, xprop);
      var windowClass := QueryWindowClass(lines[i], xprop);
      match windowClass {
        case Failure(e) =>
          return Failure(e);
        case Success(None) =>
        case Success(Some(c)) =>
          PrependInStages(applications, [c], WindowClasses(lines[i + 1..], xprop));
          applications := applications + [c];
      }
      i := i + 1;
    }
    assert lines[i..] == [];
    assert applications + [] == applications;
    return Success(applications);
  }

  /** `get_running_apps`: list the windows with `wmctrl -l`, collect the
      class of each normal window, then sort, deduplicate and resolve the
      classes against the catalog. */
  method GetRunningApps(apps: seq<App>, session: X11Session) returns (r: Result<seq<App>>)
    ensures r == RunningApps(apps, session)
  {
    if session.wmctrl.NotRun? {
      return Failure(CommandNotRun("wmctrl"));
    }
    if !session.wmctrl.success {
      return Failure(CommandFailed("wmctrl"));
    }
    var classes := CollectWindowClasses(Lines(session.wmctrl.stdout), session.xprop);
    if classes.Failure? {
      return Failure(classes.error);
    }
    var applications := classes.value;
    var names := Dedup(Sort(applications));
    r := Success(Resolve(apps, names));
  }

  /** The running applications are, in ascending order of the recorded
      classes that match some catalog entry, each such class's first match:
      one entry per distinct matching class, none for the others. */
  lemma RunningAppsCharacterised(apps: seq<App>, classes: seq<string>)
    ensures var m := MatchedNames(apps, Dedup(Sort(classes)));
            var r := RunningFromClasses(apps, classes);
            |m| == |r| && StrictlySorted(m)
            && (forall k :: 0 <= k < |r| ==> Find(apps, m[k]) == Some(r[k]))
            && (forall x :: x in m <==> x in classes && Find(apps, x).Some?)
  {
    SortDedupCharacterised(classes);
    MatchedNamesSorted(apps, Dedup(Sort(classes)));
  }

  /** An app runs exactly when it is the first catalog match of some
      recorded class. */
  lemma RunningFromClassesMembers(apps: seq<App>, classes: seq<string>)
    ensures forall a :: a in RunningFromClasses(apps, classes) <==>
              exists c :: c in classes && Find(apps, c) == Some(a)
  {
    RunningAppsCharacterised(apps, classes);
    var find := c => Find(apps, c);
    AlignedImage(MatchedNames(apps, Dedup(Sort(classes))), RunningFromClasses(apps, classes), classes, find);
  }

  /** If `r` lists the images under `f` of the names `m`, and `m` holds
      exactly the names of `classes` that have an image, then `r` holds
      exactly the images of `classes`. */
  lemma AlignedImage<A, B>(m: seq<A>, r: seq<B>, classes: seq<A>, f: A -> Option<B>)
    requires |m| == |r|
    requires forall k :: 0 <= k < |m| ==> f(m[k]) == Some(r[k])
    requires forall x :: x in m <==> x in classes && f(x).Some?
    ensures forall b :: b in r <==> exists x :: x in classes && f(x) == Some(b)
  {
    forall b ensures b in r <==> exists x :: x in classes && f(x) == Some(b) {
      if b in r {
        var k :| 0 <= k < |r| && r[k] == b;
        assert m[k] in m;
      }
      if exists x :: x in classes && f(x) == Some(b) {
        var x :| x in classes && f(x) == Some(b);
        assert x in m;
        var k :| 0 <= k < |m| && m[k] == x;
      }
    }
  }

  /** When `get_running_apps` produces a listing: `wmctrl` must start and
      exit successfully, and then the listing fails exactly when the queries
      of some line fail. */
  lemma RunningAppsSucceeds(apps: seq<App>, session: X11Session)
    ensures session.wmctrl.NotRun? ==> RunningApps(apps, session) == Failure(CommandNotRun("wmctrl"))
    ensures session.wmctrl.Exited? && !session.wmctrl.success ==>
              RunningApps(apps, session) == Failure(CommandFailed("wmctrl"))
    ensures session.wmctrl.Exited? && session.wmctrl.success ==>
              (RunningApps(apps, session).Failure? <==>
                 exists k :: 0 <= k < |Lines(session.wmctrl.stdout)|
                   && LineWindowClass(Lines(session.wmctrl.stdout)[k], session.xprop).Failure?)
  {
    if session.wmctrl.Exited? && session.wmctrl.success {
      var lines := Lines(session.wmctrl.stdout);
      WindowClassesMembers(lines, session.xprop);
      assert RunningApps(apps, session).Failure? <==> WindowClasses(lines, session.xprop).Failure?;
      if WindowClasses(lines, session.xprop).Failure? {
        var k :| 0 <= k < |lines| && LineWindowClass(lines[k], session.xprop).Failure?;
        assert LineWindowClass(Lines(session.wmctrl.stdout)[k], session.xprop).Failure?;
      }
    }
  }

  /** End to end: when `wmctrl` and the queries succeed, an app is listed
      exactly when it is the first catalog match of a class that some line
      of `wmctrl -l` records. */
  lemma RunningAppsListed(apps: seq<App>, session: X11Session)
    ensures RunningApps(apps, session).Success? ==>
      forall a :: a in RunningApps(apps, session).value <==>
        exists c :: RecordedAt(Lines(session.wmctrl.stdout), session.xprop, c) && Find(apps, c) == Some(a)
  {
    if RunningApps(apps, session).Success? {
      var lines := Lines(session.wmctrl.stdout);
      WindowClassesMembers(lines, session.xprop);
      var classes := WindowClasses(lines, session.xprop).value;
      RunningFromClassesMembers(apps, classes);
      assert RunningApps(apps, session).value == RunningFromClasses(apps, classes);
    }
  }

  /** Reordering or repeating the recorded classes does not change the
      running applications. */
  lemma RunningIgnoresOrderAndRepeats(apps: seq<App>, classes: seq<string>, others: seq<string>)
    requires forall x :: x in classes <==> x in others
    ensures RunningFromClasses(apps, classes) == RunningFromClasses(apps, others)
  {
    SortDedupCanonical(classes, others);
  }

  // =====================================================================
  // Frontmost application

  /** The class the frontmost path looks up: `split('"').nth(1)` of the
      `WM_CLASS` output, the text after the first quote up to the next one
      (or to the end). */
  function FrontmostClassOf(classOutput: string): (r: Result<string>)
    ensures r.Success? <==> '"' in classOutput
    ensures r.Success? ==> '"' !in r.value
    ensures r.Failure? ==> r.error == NoQuotedClass
  {
    var pieces := SplitOn(classOutput, '"');
    if |pieces| > 1 then Success(pieces[1]) else Failure(NoQuotedClass)
  }

  /** The window class of the active window: the window id is the last token
      of `xprop -root _NET_ACTIVE_WINDOW`, and its `WM_CLASS` output gives
      the class. The exit status of either query is not looked at. */
  function ActiveWindowClass(xprop: XpropQuery -> CommandOutput): (r: Result<string>)
    ensures r.Success? ==> '"' !in r.value
    ensures r.Success? ==> var root := xprop(RootWindow("_NET_ACTIVE_WINDOW"));
              root.Exited? && LastToken(root.stdout).Some?
              && xprop(Window(LastToken(root.stdout).value, "WM_CLASS")).Exited?
  {
    match xprop(RootWindow("_NET_ACTIVE_WINDOW"))
    case NotRun => Failure(CommandNotRun("xprop"))
    case Exited(_, rootOutput) =>
      match LastToken(rootOutput)
      case None => Failure(NoActiveWindowId)
      case Some(id) =>
        match xprop(Window(id, "WM_CLASS"))
        case NotRun => Failure(CommandNotRun("xprop"))
        case Exited(_, classOutput) => FrontmostClassOf(classOutput)
  }

  /** The active window is the last token of the root window's
      `_NET_ACTIVE_WINDOW` output, and its `WM_CLASS` output gives the class
      whatever its exit status. */
  lemma ActiveWindowIsLastToken(xprop: XpropQuery -> CommandOutput, init: string, id: string, trail: string)
    requires xprop(RootWindow("_NET_ACTIVE_WINDOW")).Exited?
    requires xprop(RootWindow("_NET_ACTIVE_WINDOW")).stdout == init + id + trail
    requires AllWhitespace(trail)
    requires id != [] && NoWhitespace(id)
    requires init == [] || IsWhitespace(init[|init| - 1])
    ensures ActiveWindowClass(xprop) ==
      match xprop(Window(id, "WM_CLASS"))
      case NotRun => Failure(CommandNotRun("xprop"))
      case Exited(_, classOutput) => FrontmostClassOf(classOutput)
  {
    LastTokenOf(init, id, trail);
  }

  /** Root output with no token names no active window. */
  lemma NoActiveWindow(xprop: XpropQuery -> CommandOutput)
    requires xprop(RootWindow("_NET_ACTIVE_WINDOW")).Exited?
    requires AllWhitespace(xprop(RootWindow("_NET_ACTIVE_WINDOW")).stdout)
    ensures ActiveWindowClass(xprop) == Failure(NoActiveWindowId)
  {
    TokensEmpty(xprop(RootWindow("_NET_ACTIVE_WINDOW")).stdout);
  }

  /** The frontmost path looks up the text between the first quote and the
      next one, or the end of the output when there is no next one. */
  lemma FrontmostClassOfQuoted(pre: string, a: string, rest: string)
    requires '"' !in pre && '"' !in a
    ensures FrontmostClassOf(pre + "\"" + a + "\"" + rest) == Success(a)
    ensures FrontmostClassOf(pre + "\"" + a) == Success(a)
  {
    SplitOnAfterPiece(a, '"', rest);
    assert pre + "\"" + a + "\"" + rest == pre + ['"'] + (a + ['"'] + rest);
    SplitOnAfterPiece(pre, '"', a + ['"'] + rest);
    SplitOnAfterPiece(pre, '"', a);
  }

  /** With two quoted strings in the `WM_CLASS` output, the running path
      records the second and the frontmost path looks up the first. */
  lemma WmClassChoice(classOutput: string)
    requires |QuotedStrings(classOutput)| >= 2
    ensures RunningClassOf(classOutput) == Some(QuotedStrings(classOutput)[1])
    ensures FrontmostClassOf(classOutput) == Success(QuotedStrings(classOutput)[0])
  {
    QuotedStringsAreOddPieces(classOutput);
  }

  /** For `WM_CLASS(STRING) = "<instance>", "<class>"` the running path
      records the class and the frontmost path looks up the instance. */
  lemma WmClassExample(instance: string, windowClass: string)
    requires '"' !in instance && '"' !in windowClass
    ensures var tail := ", " + "\"" + windowClass + "\"" + "\n";
            var out := "WM_CLASS(STRING) = " + "\"" + instance + "\"" + tail;
            RunningClassOf(out) == Some(windowClass) && FrontmostClassOf(out) == Success(instance)
  {
    var tail := ", " + "\"" + windowClass + "\"" + "\n";
    var out := "WM_CLASS(STRING) = " + "\"" + instance + "\"" + tail;
    QuotedStringsOfQuoted("WM_CLASS(STRING) = ", instance, tail);
    QuotedStringsOfQuoted(", ", windowClass, "\n");
    assert IndexOf("\n", '"') == None;
    WmClassChoice(out);
  }

  /** The search loop of `get_frontmost_application`: the first catalog
      entry, in catalog order, that matches `appName`; an error, never a
      default record, when none does. */
  method FindMatchingApp(apps: seq<App>, appName: string) returns (r: Result<App>)
    ensures match FirstMatch(apps, appName)
            case Some(k) => r == Success(apps[k])
            case None => r == Failure(NoMatchingApp)
  {
    var matches := Matches(appName);
    for i := 0 to |apps|
      invariant forall j :: 0 <= j < i ==> !matches(apps[j])
    {
      if matches(apps[i]) {
        FirstIndexAt(apps, matches, i);
        return Success(apps[i]);
      }
    }
    return Failure(NoMatchingApp);
  }

  /** `get_frontmost_application`: the class of the active window, looked up
      in the catalog. */
  method GetFrontmostApplication(apps: seq<App>, xprop: XpropQuery -> CommandOutput)
    returns (r: Result<App>)
    ensures ActiveWindowClass(xprop).Failure? ==> r == Failure(ActiveWindowClass(xprop).error)
    ensures ActiveWindowClass(xprop).Success? ==>
      match FirstMatch(apps, ActiveWindowClass(xprop).value)
      case Some(k) => r == Success(apps[k])
      case None => r == Failure(NoMatchingApp)
  {
    var name := ActiveWindowClass(xprop);
    if name.Failure? {
      return Failure(name.error);
    }
    r := FindMatchingApp(apps, name.value);
  }
}
