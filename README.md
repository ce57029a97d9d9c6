# applications: the registry context and the Linux identity matcher

This project models, in Dafny, the core of a Rust library that lists the
applications installed on a desktop, the ones running, and the one in front.
It has two parts:

- **The Linux back end** (`src/platforms/linux.rs`):
  - `parse_desktop_file` turns a parsed desktop entry into an `App` record.
  - `match_app_name` decides whether a window class names a catalog entry.
  - `get_running_apps` walks the windows listed by `wmctrl -l`, asks `xprop`
    for each window's type and `WM_CLASS`, sorts and deduplicates the classes,
    and resolves each class to its first matching catalog entry.
  - `get_frontmost_application` finds the active window through `xprop` and
    looks its class up in the catalog.
- **The registry context** (`src/api.rs`): `AppInfoContext` caches the
  catalog and keeps a "refreshing" flag. It loads the cache lazily, replaces
  it on refresh, clears it on request, and guards background refreshes with
  the flag.

Modules:

- `Common`: the `App` record, `Option`, `Result` and the error kinds.
- `Text`: the Rust string operations the back end relies on, defined with
  their properties. These are `find`, `split`, `lines`, `split_whitespace`,
  `contains`, ASCII `to_lowercase`, and the captures of the regular
  expression `"([^"]*)"`.
- `Paths`: `Path::file_name` and `Path::file_stem`.
- `StringOrder`: the `Ord` of `String`, `sort` and `dedup`.
- `Linux`: the back end.
- `Api`: the context, written as a class.

The external tools are inputs:

- `wmctrl -l` is its `CommandOutput`: either it could not be started, or it
  exited with a status and printed some output.
- `xprop` is a function from the query to its `CommandOutput`.
- A parsed INI file is a map from section to key to optional value.
- The platform's listing of installed applications is a `listing` argument
  holding the result the enumerator would give at that call. A ghost counter,
  `enumerations`, records how often the context took it.

Panics of the source (`unwrap`, `expect`) become `Failure` results naming
their cause.

In five places the intended behaviour and what the code does differ. The
model follows the code in each:

- **The flag after a failed refresh.** The intended behaviour is that a
  refresh lowers the "refreshing" flag on every exit path. The code's
  `refresh_apps` returns early at `?` (`src/api.rs:35`) with the flag raised.
  A background refresh that fails dies at its `unwrap` before lowering the
  flag. The flag then stays raised until a later successful `refresh_apps`
  lowers it, called directly or by a read that finds the cache empty. Every
  background request until then does nothing
  (`Api.BackgroundRefreshOutcome`, `Api.RefreshAfterFailedBackgroundRefresh`).
- **Matching by file stem.** The intended behaviour is that the identifier is
  compared case-insensitively with the desktop-file stem, so that
  `"org.gnome.Terminal"` matches the entry whose stem is `org.gnome.Terminal`.
  The code lower-cases only the identifier, so a stem with an upper-case
  letter never matches (`Linux.TerminalNotMatchedByStem`).
- **A failed load.** The intended behaviour is that `get_all` returns the
  catalog. In the code, a failed lazy load panics through `unwrap`; the model
  returns a failure.
- **Repeated reads.** The intended behaviour is that two reads return
  identical catalogs. In the code, an empty listing leaves the cache empty,
  so the next read enumerates again (`src/api.rs:52-53`) and returns
  whatever that listing gives (`Api.SecondReadIsCached`).
- **One refresh at a time.** The intended behaviour is that at most one
  refresh runs at a time. In the code, `refresh_apps` never reads the flag
  (`src/api.rs:33-39`), and `refresh_if_needed` calls it whenever the cache
  is empty. So a read made while a background refresh is pending enumerates
  by itself and lowers the flag, and a second background request then starts
  another refresh (`Api.ReadDuringBackgroundRefresh`). This happens even
  without interleaving; in addition, the check and the raise of the flag at
  `src/api.rs:19-22` are a separate load and store, not a compare-and-swap.

## Model

| member | source | states |
|---|---|---|
| Linux.ParseDesktopFile | src/platforms/linux.rs:14-40 | A directory gives the default record. Otherwise the record keeps the path and takes `exec`, `icon` and `name` from the "desktop entry" section when present; absent keys leave no executable, no icon and an empty name. The parse fails at the first of `exec`, `icon`, `name` that is present without a value, and succeeds exactly when none is. |
| Linux.MatchAppName | src/platforms/linux.rs:101-110 | An app matches an identifier exactly when the lower-cased names agree or the desktop-file stem equals the lower-cased identifier. The exact-name clause adds nothing. |
| Linux.DesktopStem | src/platforms/linux.rs:104-108 | The stem compared is the desktop file's stem, or "" exactly when the path has none. It never contains `/`. |
| Linux.UpperCaseStemNeverMatches | src/platforms/linux.rs:104-109 | A stem with an upper-case letter never equals a lower-cased identifier, so for such an app only the name decides a match. |
| Linux.NoStemMatchesOnlyEmpty | src/platforms/linux.rs:104-109 | When the desktop path has no file stem, the stem clause (through `unwrap_or("")`) matches only the empty identifier. |
| Linux.DefaultAppMatchesOnlyEmpty | src/platforms/linux.rs:101-110 | The default record matches the empty identifier and nothing else. |
| Linux.TerminalStem | src/platforms/linux.rs:104-107 | Whatever the directory, `<dir>/org.gnome.Terminal.desktop` has stem `org.gnome.Terminal`. |
| Linux.TerminalMatchesByName | src/platforms/linux.rs:101-103 | The entry named "Terminal" is matched by "terminal", through the case-insensitive name. |
| Linux.TerminalNotMatchedByStem | src/platforms/linux.rs:104-109 | The same entry is not matched by its own stem "org.gnome.Terminal". |
| Linux.TerminalNotMatchedByOtherName | src/platforms/linux.rs:101-110 | The same entry is not matched by "Nonexistent". |
| Linux.StemMatchExample | src/platforms/linux.rs:104-109 | A lower-case stem (`firefox.desktop`) is matched by "Firefox" whatever the display name. |
| Linux.FirstIndex | src/platforms/linux.rs:166 | `find`: the position of the first element that satisfies the closure, with none before it. There is no position exactly when no element satisfies it. |
| Linux.Find | src/platforms/linux.rs:166 | An entry found for an identifier is a catalog element that matches it. |
| Linux.Resolve | src/platforms/linux.rs:164-168 | The `filter_map` gives at most one entry per identifier, each a catalog element. |
| Linux.MatchedNames | src/platforms/linux.rs:164-168 | The identifiers kept are exactly those with a match, one per output entry, each resolving to the entry at its place. |
| Linux.MatchedNamesSorted | src/platforms/linux.rs:161-168 | Dropping unmatched identifiers from an ascending list keeps it ascending. |
| Linux.RunningClassOf | src/platforms/linux.rs:151-155 | The running path records a class exactly when the `WM_CLASS` output has at least four double quotes (five pieces at `"`). The class is the fourth piece, the text inside the second pair of quotes, and holds no quote. |
| Linux.IsNormalWindow | src/platforms/linux.rs:135-140 | A normal window's type query exited successfully with output at least as long as `_NET_WM_WINDOW_TYPE_NORMAL`; output that is exactly that name qualifies. |
| Linux.WindowClassOf | src/platforms/linux.rs:131-156 | A window contributes a class only if its type query succeeded and mentions `_NET_WM_WINDOW_TYPE_NORMAL`, and its class query succeeded. Conversely such a window contributes the second quoted string of its class output whenever there is one. The result fails, with the `xprop` error, exactly when the type query could not be started or, for a normal window, the class query could not. |
| Linux.LineWindowClass | src/platforms/linux.rs:127-156 | What one `wmctrl -l` line contributes: a blank line queries the empty window id, a recorded class holds no double quote, and a failure is the `xprop` error. |
| Linux.WmctrlLineWindow | src/platforms/linux.rs:127-128 | A `wmctrl -l` line queries the window named by its first whitespace-separated token. |
| Linux.BlankWmctrlLine | src/platforms/linux.rs:128 | A blank line queries the empty window id (`unwrap_or_default`). |
| Linux.WindowClasses | src/platforms/linux.rs:127-158 | The windows contribute at most one class per `wmctrl -l` line, and no class holds a double quote. |
| Linux.WindowClassesMembers | src/platforms/linux.rs:127-158 | The class listing fails exactly when some line's queries fail. Otherwise a class is collected exactly when some `wmctrl -l` line records it. |
| Linux.QueryWindowClass | src/platforms/linux.rs:128-156 | The loop body for one `wmctrl -l` line gives what `LineWindowClass` states: the error of an `xprop` that cannot be started, no class for a failed or non-normal window, else the second quoted string of its `WM_CLASS` output when there is one. |
| Linux.CollectWindowClasses | src/platforms/linux.rs:127-158 | The window loop collects, in window order, the classes of `WindowClasses`. An `xprop` that cannot be started ends it with that error. |
| Linux.RunningFromClasses | src/platforms/linux.rs:161-168 | After `sort`, `dedup` and the `filter_map`, there are at most as many running apps as recorded classes, each a catalog element. |
| Linux.RunningApps | src/platforms/linux.rs:111-171 | A listing is produced only when `wmctrl` ran and exited successfully. It has at most one app per line of its output, each a catalog element. |
| Linux.GetRunningApps | src/platforms/linux.rs:111-171 | `wmctrl` not started or exiting with failure gives those errors. Otherwise the result is the collected classes, sorted, deduplicated and resolved against the catalog. |
| Linux.RunningAppsCharacterised | src/platforms/linux.rs:161-168 | The running apps are, in ascending order of the recorded classes that match some entry, each class's first match. There is one entry per distinct matching class and none for the others. |
| Linux.RunningFromClassesMembers | src/platforms/linux.rs:161-168 | An app is in the result exactly when it is the first catalog match of some recorded class. |
| Linux.RunningAppsSucceeds | src/platforms/linux.rs:111-171 | `wmctrl` not started or exiting with failure gives those two errors. Otherwise the listing fails exactly when the `xprop` queries of some line fail, and succeeds in every other case. |
| Linux.RunningAppsListed | src/platforms/linux.rs:111-171 | When the listing succeeds, an app is listed exactly when it is the first catalog match of a class that some line of `wmctrl -l` records. |
| Linux.RunningIgnoresOrderAndRepeats | src/platforms/linux.rs:161-168 | Permuting or repeating the recorded classes leaves the running apps unchanged. |
| Linux.FrontmostClassOf | src/platforms/linux.rs:193 | `split('"').nth(1)` yields a class exactly when the output holds a double quote, and that class holds none. Without a quote the `unwrap` fails with "no quoted class". |
| Linux.FrontmostClassOfQuoted | src/platforms/linux.rs:193 | The class looked up is the text after the first quote up to the next quote, or up to the end when no quote follows. |
| Linux.ActiveWindowClass | src/platforms/linux.rs:175-193 | A class is found only when the root query ran, its output has a last token, and the class query for that window ran. The class holds no double quote. |
| Linux.ActiveWindowIsLastToken | src/platforms/linux.rs:175-193 | The active window is the last token of the root `_NET_ACTIVE_WINDOW` output. Its `WM_CLASS` output gives the class whatever the exit status. |
| Linux.NoActiveWindow | src/platforms/linux.rs:182 | Root output with no token fails with "no active window id" (the `unwrap` at `last()`). |
| Linux.WmClassChoice | src/platforms/linux.rs:151-155 | Given two quoted strings, the running path records the second. The frontmost path (`split('"').nth(1)`, line 193) takes the first. |
| Linux.WmClassExample | src/platforms/linux.rs:151-155 | For `WM_CLASS(STRING) = "<instance>", "<class>"` the running path records the class and the frontmost path the instance. |
| Linux.FindMatchingApp | src/platforms/linux.rs:195-203 | The loop returns the first catalog entry, in catalog order, that matches. When none matches it returns the "no matching app" error, never a default record. |
| Linux.GetFrontmostApplication | src/platforms/linux.rs:174-204 | Errors in finding the active window's class are returned as they are. Otherwise the result is the first catalog entry matching that class, or the "no matching app" error. |
| Text.SplitOn | src/platforms/linux.rs:193 | `split` yields at least one piece, and no piece contains the separator. |
| Text.JoinSplitOn | src/platforms/linux.rs:193 | Joining the pieces of a split with the separator gives the text back. |
| Text.SplitOnJoin | src/platforms/linux.rs:193 | Splitting a join of separator-free pieces gives the pieces back. |
| Text.Lines | src/platforms/linux.rs:127 | No line that `lines` yields contains a newline. |
| Text.LinesOfTerminated | src/platforms/linux.rs:127 | `lines` of newline-terminated lines without newlines or a trailing carriage return gives those lines back. |
| Text.Tokens | src/platforms/linux.rs:128 | `split_whitespace` yields non-empty tokens free of whitespace. |
| Text.FirstToken | src/platforms/linux.rs:128 | `split_whitespace().next().unwrap_or_default()` is whitespace-free, and empty exactly when the line is all whitespace. |
| Text.LastToken | src/platforms/linux.rs:182 | `split_whitespace().last()` is a non-empty whitespace-free token, and absent exactly when the text is all whitespace. |
| Text.TokensEmpty | src/platforms/linux.rs:182 | There are no tokens exactly when the text is all whitespace. |
| Text.FirstTokenOf | src/platforms/linux.rs:128 | The first token is the token that follows the leading whitespace. |
| Text.LastTokenOf | src/platforms/linux.rs:182 | The last token is the token before the trailing whitespace. |
| Text.Contains | src/platforms/linux.rs:140 | A text contains only strings no longer than itself, and a string of its own length exactly when the two are equal. |
| Text.ContainsAt | src/platforms/linux.rs:140 | An occurrence anywhere makes `contains` true. |
| Text.ContainsIndex | src/platforms/linux.rs:140 | `contains` is true only when there is an occurrence. |
| Text.Lower | src/platforms/linux.rs:103 | `to_lowercase` keeps the length and lower-cases each letter. |
| Text.LowerIsLower | src/platforms/linux.rs:103-109 | A lower-cased text has no upper-case letter, and lower-casing it again changes nothing. |
| Text.QuotedStrings | src/platforms/linux.rs:151 | The captures of `"([^"]*)"` hold no double quote, and each takes at least two characters of the text (its quotes). |
| Text.QuotedStringsAreOddPieces | src/platforms/linux.rs:151 | The captures of `"([^"]*)"` are the odd-numbered pieces of a split at `"`. |
| Text.QuotedStringsOfQuoted | src/platforms/linux.rs:151 | A quoted string after quote-free text is the next capture. |
| Paths.FileName | src/platforms/linux.rs:106 | A file name is non-empty, contains no `/` and is not `..`. |
| Paths.FileStem | src/platforms/linux.rs:106 | A path has a stem exactly when it has a file name. A stem is non-empty and contains no `/`. |
| Paths.EmptyPathHasNoStem | src/platforms/linux.rs:106-107 | The empty path, the default record's path, has no stem. |
| Paths.DesktopFileStem | src/platforms/linux.rs:106 | `<dir>/<stem>.desktop` has stem `<stem>` for a non-empty stem without `/`. |
| StringOrder.BelowIrreflexive | src/platforms/linux.rs:161 | No string is below itself. |
| StringOrder.BelowTransitive | src/platforms/linux.rs:161 | The string order is transitive. |
| StringOrder.BelowTotal | src/platforms/linux.rs:161 | Of two different strings, one is below the other. |
| StringOrder.Insert | src/platforms/linux.rs:161 | Insertion into an ascending list keeps it ascending and adds exactly one copy of the string. |
| StringOrder.Sort | src/platforms/linux.rs:161 | `sort` yields an ascending permutation of its input. |
| StringOrder.Dedup | src/platforms/linux.rs:162 | `dedup` keeps the same strings, is no longer, and turns an ascending list into one without repeats. |
| StringOrder.StrictlySortedUnique | src/platforms/linux.rs:161-162 | There is only one ascending arrangement without repeats of a set of strings. |
| StringOrder.SortDedupCharacterised | src/platforms/linux.rs:161-162 | `sort` then `dedup` yields each input string once, in ascending order. |
| StringOrder.SortDedupCanonical | src/platforms/linux.rs:161-162 | `sort` then `dedup` depends only on which strings occur. |
| Api.AppInfoContext.constructor | src/api.rs:10-15 | A new context has an empty cache and the flag lowered. |
| Api.AppInfoContext.RefreshApps | src/api.rs:33-40 | The listing is taken once. Success replaces the cache wholesale and lowers the flag. Failure returns the error and leaves the cache as it was with the flag raised. |
| Api.AppInfoContext.RefreshIfNeeded | src/api.rs:51-56 | Only an empty cache takes the listing. A non-empty one is left entirely unchanged. |
| Api.AppInfoContext.GetAllApps | src/api.rs:42-45 | The result is the cache after the lazy load, or the load's error. |
| Api.AppInfoContext.GetRunningApps | src/api.rs:57-60 | After the lazy load, the result is the running apps among the cache. Any error of the tools gives the empty list. |
| Api.AppInfoContext.GetFrontmostApplication | src/api.rs:62-65 | After the lazy load, the result is the frontmost lookup against the cache, errors included. |
| Api.AppInfoContext.IsRefreshing | src/api.rs:67-69 | The result is the flag, and nothing changes. |
| Api.AppInfoContext.EmptyCache | src/api.rs:71-73 | The cache becomes empty. The flag and the enumeration count stay. |
| Api.AppInfoContext.RefreshAppsInBackground | src/api.rs:17-22 | A refresh starts exactly when the flag was lowered. Afterwards the flag is raised and the cache untouched. |
| Api.AppInfoContext.BackgroundRefresh | src/api.rs:24-27 | The spawned work refreshes once. The flag ends lowered after success and raised after failure. |
| Api.FirstReadIsListing | src/api.rs:42-45 | The first read of a new context returns exactly the platform listing. |
| Api.SecondReadIsCached | src/api.rs:42-56 | After a non-empty listing, a second read returns the same catalog with no second enumeration. After an empty or failed one, the second read enumerates again. |
| Api.EmptyCacheForcesReload | src/api.rs:71-73 | After `empty_cache` the next read enumerates exactly once more and returns that listing. |
| Api.SingleFlight | src/api.rs:19-22 | Of two back-to-back background requests, only the first starts one. |
| Api.ReadDuringBackgroundRefresh | src/api.rs:17-56 | A read made while a background refresh is pending enumerates once by itself, returns that listing and lowers the flag, so a second background request starts another refresh. |
| Api.BackgroundRefreshOutcome | src/api.rs:24-27 | After a background refresh, the flag stays raised, and the next background request does nothing, exactly when the refresh failed. |
| Api.RefreshAfterFailedBackgroundRefresh | src/api.rs:17-38 | After a failed background refresh, a background request does nothing until a successful `refresh_apps` lowers the flag; the request after that starts a refresh. |
| Api.FailedRefreshKeepsCache | src/api.rs:33-36 | A failed refresh keeps the previously cached catalog and leaves the flag raised. |

## Left out

- Starting `wmctrl` and `xprop` (`Command::new`). Their outcome and output are inputs, because they are process I/O.
- `String::from_utf8_lossy` and the `from_utf8(...).unwrap()` of the frontmost path. Output is taken as text already, so a panic on invalid UTF-8 is not modelled.
- `get_all_apps` of the Linux back end. This covers `XDG_DATA_DIRS`, `HOME`, `WalkDir` and the `.desktop` filter. It is environment and filesystem I/O, so the context receives its result as `listing`.
- The `ini!` file read, a foreign macro. `parse_desktop_file` receives the parsed map, and whether the path is a directory is an input.
- The `to_str().unwrap()` on the desktop path, since paths are text already.
- `open_file_with` (`src/platforms/linux.rs:86-98`, `src/api.rs:47-49`), because it only launches a process.
- Threads, `Arc`, `Mutex` and the relaxed atomics. Each operation is one atomic step on the context, and the spawned thread's work is a separate `BackgroundRefresh` step. Interleavings are not modelled. Lock poisoning is not modelled either: `get_frontmost_application` holds the cache lock (`src/api.rs:64`) while the Linux lookup runs, so a panic of that lookup poisons the lock in the source and every later `lock().unwrap()` panics. The model returns a `Failure` there and the cache stays usable.
- Text.Lower: only ASCII letters are lower-cased, not the full Unicode `to_lowercase`.
- Paths.FileStem: Unix paths given as text. `to_string_lossy` has no effect on valid text.
- Panics are `Failure` results: `refresh_if_needed().unwrap()` in the readers, and the `unwrap`/`expect` calls of `get_frontmost_application`. The panic in the background thread is modelled as the flag staying raised.
- Api.AppInfoContext.GetRunningApps: returns a `Result` so that a failed lazy load can be reported; in the source that load panics.
- The example programs `examples/apps.rs` and `examples/running_apps.rs`, which only print.
