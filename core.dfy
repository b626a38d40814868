/** What every part of the wrapper shares: its errors and the replies of the external commands. */
module Core {

  /** The path the control commands are run with (`screenExec`). */
  const ScreenExec: string := "/usr/bin/screen"

  /**
   * The errors the wrapper returns. `Panicked` stands for a Go run-time panic
   * (a nil pointer or an index out of range): not a returned error, but the
   * point where the call stops.
   */
  datatype Error =
    | EmptyName              // "screen name cannot be empty" (wraps os.ErrInvalid)
    | NotExist               // os.ErrNotExist itself
    | AlreadyExists          // "screen already exists" (wraps os.ErrExist)
    | ScreenNotFound         // "screen not found": a failed liveness check
    | InvalidFdpat           // "invalid fdpat" (wraps os.ErrInvalid)
    | Failed(message: string) // an external command failed; the text it printed
    | Cancelled              // ctx.Err()
    | StatFailed(reason: string) // an os.Stat error other than "does not exist"
    | Panicked

  /**
   * What one run of an external command reports: whether it exited cleanly,
   * what it printed (combined output, or standard output alone for `Output()`)
   * and the text of the Go error when it did not.
   */
  datatype Reply = Reply(ok: bool, output: string, errText: string)

  /** `screen -S <name> -X <words...>`: one control command sent to a session. */
  function ControlArgv(name: string, words: seq<string>): (argv: seq<string>)
    ensures |argv| == 4 + |words|
    ensures argv[..4] == [ScreenExec, "-S", name, "-X"] && argv[4..] == words
  {
    [ScreenExec, "-S", name, "-X"] + words
  }
}
