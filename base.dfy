/** Shared vocabulary of the release and dev tooling model: optional values,
    the outcome of a call that may raise, the fake command runner through
    which every external command is observed, and the files the scripts
    read and rewrite. */
module Base {

  datatype Option<+T> = None | Some(value: T)

  /** What a Python call does: return a value, or raise an exception that
      nothing in the scripts catches (named, e.g. "ValueError"). */
  datatype Py<+T> = Return(value: T) | Raise(exception: string)

  /** A finished subprocess: exit status and captured text output. */
  datatype Completed = Completed(returnCode: int, stdout: string, stderr: string)

  /** The command runner, faked: the result each argument vector produces.
      Spawning, the Windows shell flag and timing live outside the model. */
  type Runner = seq<string> -> Completed

  /** A check that runs commands: its verdict and the argument vectors it
      issued, in order. */
  datatype Checked = Checked(ok: bool, trace: seq<seq<string>>)

  /** A text file as the scripts see it: opening it raises OSError, or its
      content after universal-newline translation. */
  datatype TextFile = Unreadable | Text(content: string)

  /** package.json as json.load sees it: unreadable, not valid JSON, or a
      top-level object whose values the model keeps as strings. */
  datatype Manifest = Missing | Malformed | Fields(fields: map<string, string>)

  /** A step that rewrites a text file: whether it succeeded, and the file after it. */
  datatype Rewrite = Rewrite(ok: bool, file: TextFile)
}
