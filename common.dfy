/** Shared vocabulary of the model: the application record, paths, and the
    Option/Result wrappers that stand for Rust's `Option` and `anyhow::Result`. */
module Common {

  /** A filesystem path, as the text of a `PathBuf`. */
  type Path = string

  datatype Option<+T> = None | Some(value: T)

  /** Why an operation did not produce a value. Panics of the source
      (`unwrap`, `expect`) are reported through the same type. */
  datatype Error =
    | CommandNotRun(program: string)   // `Command::output()` could not start the process
    | CommandFailed(program: string)   // the process exited with a failure status
    | NoActiveWindowId                 // the root `xprop` output has no token
    | NoQuotedClass                    // the `WM_CLASS` output has no double quote
    | NoMatchingApp                    // no catalog entry matches the frontmost class
    | MissingIniValue(key: string)     // a desktop-entry key is present without a value
    | EnumerationFailed(reason: string) // the platform could not list the installed apps

  datatype Result<+T> = Success(value: T) | Failure(error: Error)

  /** One discoverable application: its display name, its executable, its
      icon and the desktop-entry file it was read from. */
  datatype App = App(
    name: string,
    app_path_exe: Option<Path>,
    icon_path: Option<Path>,
    app_desktop_path: Path)

  /** `App::default()`: empty name, no executable, no icon, empty path. */
  const DefaultApp := App("", None, None, "")
}
