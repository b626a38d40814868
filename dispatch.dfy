/**
 * The control commands a `Screen` sends to its session: `Quit`, `Kill`,
 * `Clear`, `Stuff`, `Exec`, `Hardcopy` and `Log`, and the setup of
 * `StuffReturnGetOutput`. Each first checks that the session is still
 * listed, then runs a fixed sequence of `screen -S <name> -X ...` commands
 * and stops at the first one that fails. The listing and the replies of
 * the commands are parameters.
 */
module Dispatch {
  import opened Wrappers
  import opened Text
  import opened Core
  import opened Discovery
  import Locks

  // ---------------------------------------------------------------------
  // Running a sequence of commands

  /** What `exec.Cmd` captures: `CombinedOutput()` or `Output()`. */
  datatype Stream = Combined | StdoutOnly

  /** One command to run and how its output is captured. */
  datatype Step = Step(argv: seq<string>, stream: Stream)

  /** The commands a call ran, in order, and what it returned. */
  datatype Trace = Trace(issued: seq<seq<string>>, result: Outcome<Error>)

  /**
   * The error text of a failed command: what it printed, followed by Go's
   * error text when only standard output was captured.
   */
  function FailureMessage(step: Step, reply: Reply): string {
    match step.stream
    case Combined => reply.output
    case StdoutOnly => reply.output + reply.errText
  }

  function Argvs(steps: seq<Step>): (argvs: seq<seq<string>>)
    ensures |argvs| == |steps|
    ensures forall k | 0 <= k < |steps| :: argvs[k] == steps[k].argv
  {
    seq(|steps|, k requires 0 <= k < |steps| => steps[k].argv)
  }

  /**
   * Run `steps` in order, the k-th getting `replies[k]`; the first one that
   * does not exit cleanly ends the call with its error text.
   */
  function RunSteps(steps: seq<Step>, replies: seq<Reply>): Trace
    requires |replies| >= |steps|
    decreases |steps|
  {
    if |steps| == 0 then Trace([], Pass)
    else if !replies[0].ok then Trace([steps[0].argv], Fail(Failed(FailureMessage(steps[0], replies[0]))))
    else
      var rest := RunSteps(steps[1..], replies[1..]);
      Trace([steps[0].argv] + rest.issued, rest.result)
  }

  /** Every command is run, and the call passes, exactly when every command succeeds. */
  lemma {:induction false} RunStepsAllOk(steps: seq<Step>, replies: seq<Reply>)
    requires |replies| >= |steps|
    ensures RunSteps(steps, replies).result.Pass? <==> forall k | 0 <= k < |steps| :: replies[k].ok
    ensures RunSteps(steps, replies).result.Pass? ==> RunSteps(steps, replies).issued == Argvs(steps)
    decreases |steps|
  {
    if |steps| > 0 {
      RunStepsAllOk(steps[1..], replies[1..]);
      if replies[0].ok && RunSteps(steps, replies).result.Pass? {
        assert Argvs(steps) == [steps[0].argv] + Argvs(steps[1..]);
      }
      if !replies[0].ok {
        assert !RunSteps(steps, replies).result.Pass?;
      }
      if forall k | 0 <= k < |steps| :: replies[k].ok {
        assert forall k | 0 <= k < |steps| - 1 :: replies[1..][k] == replies[k + 1];
      } else {
        var k :| 0 <= k < |steps| && !replies[k].ok;
        if k > 0 { assert !replies[1..][k - 1].ok; }
      }
    }
  }

  /** A failure at step `j` after `j` clean steps: steps after `j` are never run. */
  lemma {:induction false} RunStepsStopsAtFirstFailure(steps: seq<Step>, replies: seq<Reply>, j: nat)
    requires |replies| >= |steps| && j < |steps| && !replies[j].ok
    requires forall k | 0 <= k < j :: replies[k].ok
    ensures RunSteps(steps, replies) == Trace(Argvs(steps[..j + 1]), Fail(Failed(FailureMessage(steps[j], replies[j]))))
    decreases j
  {
    if j > 0 {
      assert forall k | 0 <= k < j - 1 :: replies[1..][k] == replies[k + 1];
      RunStepsStopsAtFirstFailure(steps[1..], replies[1..], j - 1);
      assert steps[1..][..j] == steps[1..j + 1];
      assert Argvs(steps[..j + 1]) == [steps[0].argv] + Argvs(steps[1..j + 1]);
    }
  }

  /** A single command: run once, and its reply decides. */
  lemma RunOne(step: Step, reply: Reply)
    ensures RunSteps([step], [reply]) ==
      Trace([step.argv], if reply.ok then Pass else Fail(Failed(FailureMessage(step, reply))))
  {
    assert [step][1..] == [];
  }

  // ---------------------------------------------------------------------
  // The liveness check every control command starts with

  /** `isOnline()`: `Get(s.Name)` returns no error on the listing it sees. */
  predicate Online(name: string, live: string) {
    Find(name, live).Success?
  }

  /**
   * `isOnline()` against the registry: being a `Get`, it also registers the
   * name's lock when the session is listed.
   */
  method IsOnline(reg: Locks.Registry, name: string, live: string) returns (online: bool)
    modifies reg
    ensures online <==> name != "" && !Contains(live, NoSockets) && exists i :: TokenAt(live, name, i)
    ensures online ==> name in reg.locks && Locks.Extends(old(reg.locks), reg.locks)
    ensures online ==> reg.locks.Keys == old(reg.locks).Keys + {name}
    ensures !online ==> reg.locks == old(reg.locks)
  {
    var got := Get(reg, name, live);
    online := got.Success?;
  }

  /** The liveness check, then the steps: an unlisted session runs nothing. */
  function Guarded(name: string, live: string, steps: seq<Step>, replies: seq<Reply>): Trace
    requires |replies| >= |steps|
  {
    if !Online(name, live) then Trace([], Fail(ScreenNotFound)) else RunSteps(steps, replies)
  }

  // ---------------------------------------------------------------------
  // builtinTemplate, builtinTemplateArgs and the commands built on them

  /**
   * `builtinTemplate(command)`: `screen -S <name> -X <command>` with
   * combined output; a failure returns what it printed.
   */
  function Builtin(name: string, live: string, command: string, reply: Reply): (t: Trace)
    ensures !Online(name, live) ==> t == Trace([], Fail(ScreenNotFound))
    ensures Online(name, live) ==> t.issued == [ControlArgv(name, [command])]
    ensures Online(name, live) ==> (t.result.Pass? <==> reply.ok)
    ensures Online(name, live) && !reply.ok ==> t.result == Fail(Failed(reply.output))
  {
    RunOne(Step(ControlArgv(name, [command]), Combined), reply);
    Guarded(name, live, [Step(ControlArgv(name, [command]), Combined)], [reply])
  }

  /** `Quit()`: the `quit` command. */
  function Quit(name: string, live: string, reply: Reply): (t: Trace)
    ensures t.issued == [] || t.issued == [[ScreenExec, "-S", name, "-X", "quit"]]
    ensures t.issued == [] <==> !Online(name, live)
    ensures !Online(name, live) ==> t.result == Fail(ScreenNotFound)
    ensures Online(name, live) ==> t.result == (if reply.ok then Pass else Fail(Failed(reply.output)))
  {
    assert ControlArgv(name, ["quit"]) == [ScreenExec, "-S", name, "-X", "quit"];
    Builtin(name, live, "quit", reply)
  }

  /** `Kill()`: the `kill` command. */
  function Kill(name: string, live: string, reply: Reply): (t: Trace)
    ensures t.issued == [] || t.issued == [[ScreenExec, "-S", name, "-X", "kill"]]
    ensures t.issued == [] <==> !Online(name, live)
    ensures !Online(name, live) ==> t.result == Fail(ScreenNotFound)
    ensures Online(name, live) ==> t.result == (if reply.ok then Pass else Fail(Failed(reply.output)))
  {
    assert ControlArgv(name, ["kill"]) == [ScreenExec, "-S", name, "-X", "kill"];
    Builtin(name, live, "kill", reply)
  }

  /** `Clear()`: the `clear` command. */
  function Clear(name: string, live: string, reply: Reply): (t: Trace)
    ensures t.issued == [] || t.issued == [[ScreenExec, "-S", name, "-X", "clear"]]
    ensures t.issued == [] <==> !Online(name, live)
    ensures !Online(name, live) ==> t.result == Fail(ScreenNotFound)
    ensures Online(name, live) ==> t.result == (if reply.ok then Pass else Fail(Failed(reply.output)))
  {
    assert ControlArgv(name, ["clear"]) == [ScreenExec, "-S", name, "-X", "clear"];
    Builtin(name, live, "clear", reply)
  }

  /**
   * `builtinTemplateArgs(command, args...)`: the arguments travel as one
   * word, joined by single spaces; only standard output is captured, and a
   * failure returns it followed by Go's error text.
   */
  function BuiltinArgs(name: string, live: string, command: string, args: seq<string>, reply: Reply): (t: Trace)
    ensures !Online(name, live) ==> t == Trace([], Fail(ScreenNotFound))
    ensures Online(name, live) ==> t.issued == [ControlArgv(name, [command, Join(args, " ")])]
    ensures Online(name, live) ==> (t.result.Pass? <==> reply.ok)
    ensures Online(name, live) && !reply.ok ==> t.result == Fail(Failed(reply.output + reply.errText))
  {
    RunOne(Step(ControlArgv(name, [command, Join(args, " ")]), StdoutOnly), reply);
    Guarded(name, live, [Step(ControlArgv(name, [command, Join(args, " ")]), StdoutOnly)], [reply])
  }

  /** `Stuff(commands...)`: the text pasted into the session's input. */
  function Stuff(name: string, live: string, commands: seq<string>, reply: Reply): (t: Trace)
    ensures t.issued == [] || t.issued == [[ScreenExec, "-S", name, "-X", "stuff", Join(commands, " ")]]
    ensures t.issued == [] <==> !Online(name, live)
    ensures !Online(name, live) ==> t.result == Fail(ScreenNotFound)
    ensures Online(name, live) ==> t.result == (if reply.ok then Pass else Fail(Failed(reply.output + reply.errText)))
  {
    assert ControlArgv(name, ["stuff", Join(commands, " ")]) == [ScreenExec, "-S", name, "-X", "stuff", Join(commands, " ")];
    BuiltinArgs(name, live, "stuff", commands, reply)
  }

  /** Words without spaces are recovered from the text `Stuff` pastes by splitting at spaces. */
  lemma StuffTextSplitsBack(commands: seq<string>)
    requires |commands| >= 1
    requires forall k | 0 <= k < |commands| :: ' ' !in commands[k]
    ensures Split(Join(commands, " "), ' ') == commands
  {
    SplitJoin(commands, ' ');
  }

  // ---------------------------------------------------------------------
  // Exec and its fdpat check

  /** A character the fdpat pattern allows before the optional pipe. */
  predicate IsFdMark(c: char) {
    c == '.' || c == '!' || c == ':'
  }

  /** The text after the slash matches `[.!:]{0,3}\|?` in full. */
  predicate FdTail(t: string) {
    (|t| <= 3 && forall k | 0 <= k < |t| :: IsFdMark(t[k])) ||
    (1 <= |t| <= 4 && t[|t| - 1] == '|' && forall k | 0 <= k < |t| - 1 :: IsFdMark(t[k]))
  }

  /**
   * `regexp.MatchString("/[.!:]{0,3}\|?$", fdpat)`: the pattern is not
   * anchored at the start and `$` is the end of the text, so some slash
   * must be followed by a tail of that shape up to the end.
   */
  predicate FdpatMatches(fdpat: string) {
    exists i | 0 <= i < |fdpat| :: fdpat[i] == '/' && FdTail(fdpat[i + 1..])
  }

  /** The check as computed: the text after the last slash. */
  predicate FdpatValid(fdpat: string) {
    var i := LastIndexOf(fdpat, '/');
    i >= 0 && FdTail(fdpat[i + 1..])
  }

  /** The pattern matches exactly when there is a slash and what follows the last one is a valid tail. */
  lemma FdpatLastSlash(fdpat: string)
    ensures FdpatMatches(fdpat) <==> FdpatValid(fdpat)
  {
    var last := LastIndexOf(fdpat, '/');
    if FdpatMatches(fdpat) {
      var i :| 0 <= i < |fdpat| && fdpat[i] == '/' && FdTail(fdpat[i + 1..]);
      assert i == last;
    }
    if FdpatValid(fdpat) {
      assert fdpat[last] == '/' && FdTail(fdpat[last + 1..]);
    }
  }

  /** `screen -S <name> -X exec <fdpat> <command> <args...>` */
  function ExecArgv(name: string, fdpat: string, command: string, args: seq<string>): seq<string> {
    ControlArgv(name, ["exec", fdpat, command] + args)
  }

  /**
   * `Exec(fdpat, command, args...)`: liveness first, then a non-empty fdpat
   * must match the pattern (an empty one is not checked), then the one
   * command runs.
   */
  function Exec(name: string, live: string, fdpat: string, command: string, args: seq<string>, reply: Reply): (t: Trace)
    ensures !Online(name, live) ==> t == Trace([], Fail(ScreenNotFound))
    ensures t.result == Fail(InvalidFdpat) <==> Online(name, live) && fdpat != "" && !FdpatMatches(fdpat)
    ensures t.result == Fail(InvalidFdpat) ==> t.issued == []
    ensures Online(name, live) && (fdpat == "" || FdpatMatches(fdpat)) ==>
      t.issued == [ExecArgv(name, fdpat, command, args)] &&
      t.result == (if reply.ok then Pass else Fail(Failed(reply.output)))
  {
    FdpatLastSlash(fdpat);
    var step := Step(ExecArgv(name, fdpat, command, args), Combined);
    RunOne(step, reply);
    if !Online(name, live) then Trace([], Fail(ScreenNotFound))
    else if fdpat != "" && !FdpatValid(fdpat) then Trace([], Fail(InvalidFdpat))
    else RunSteps([step], [reply])
  }

  /** The argument vector carries the options, the fdpat, the command and every argument, in order. */
  lemma ExecArgvLayout(name: string, fdpat: string, command: string, args: seq<string>)
    ensures var argv := ExecArgv(name, fdpat, command, args);
      |argv| == 7 + |args| &&
      argv[..7] == [ScreenExec, "-S", name, "-X", "exec", fdpat, command] && argv[7..] == args
  {
    var words := ["exec", fdpat, command] + args;
    assert words[..3] == ["exec", fdpat, command] && words[3..] == args;
  }

  // ---------------------------------------------------------------------
  // Hardcopy

  /** The word for a flag: `on` when set, `off` otherwise. */
  function OnOff(flag: bool): (word: string)
    ensures word == "on" <==> flag
    ensures word == "off" <==> !flag
  {
    if flag then "on" else "off"
  }

  function HardcopySteps(name: string, path: string, append: bool): seq<Step> {
    [Step(ControlArgv(name, ["hardcopy_append", OnOff(append)]), Combined),
     Step(ControlArgv(name, ["hardcopy", path]), Combined)]
  }

  /**
   * `Hardcopy(path, append)`: set `hardcopy_append` to the flag, then write
   * the scrollback to `path`; if the first command fails the second is not run.
   */
  function Hardcopy(name: string, live: string, path: string, append: bool, replies: seq<Reply>): (t: Trace)
    requires |replies| >= 2
    ensures !Online(name, live) ==> t == Trace([], Fail(ScreenNotFound))
    ensures Online(name, live) && !replies[0].ok ==>
      t == Trace([ControlArgv(name, ["hardcopy_append", OnOff(append)])], Fail(Failed(replies[0].output)))
    ensures Online(name, live) && replies[0].ok ==>
      t.issued == [ControlArgv(name, ["hardcopy_append", OnOff(append)]), ControlArgv(name, ["hardcopy", path])] &&
      t.result == (if replies[1].ok then Pass else Fail(Failed(replies[1].output)))
  {
    var steps := HardcopySteps(name, path, append);
    assert RunSteps(steps[1..], replies[1..]).issued == [steps[1].argv] by {
      assert steps[1..][1..] == [];
    }
    Guarded(name, live, steps, replies)
  }

  // ---------------------------------------------------------------------
  // Log

  /** What `os.Stat(path)` reported. */
  datatype StatResult = StatOk | StatMissing | StatError(reason: string)

  /** Log's decision before any command: go on (truncating the path or not), or return the stat error. */
  datatype Precheck = Proceed(truncate: bool) | Refuse(error: Error)

  /**
   * With `append`, any stat error is swallowed and the path truncated (the
   * truncation's own error is ignored); without it, a stat error other
   * than "does not exist" is returned. A path that stats fine is never
   * truncated, whatever the flag.
   */
  function LogPrecheck(stat: StatResult, append: bool): (p: Precheck)
    ensures p.Refuse? <==> !append && stat.StatError?
    ensures p.Refuse? ==> p.error == StatFailed(stat.reason)
    ensures p.Proceed? ==> (p.truncate <==> append && !stat.StatOk?)
  {
    if !stat.StatOk? && append then Proceed(true)
    else if stat.StatError? then Refuse(StatFailed(stat.reason))
    else Proceed(false)
  }

  /** Go's `int(flushInterval)` on a 64-bit `uint`: values past the int range wrap to negative. */
  function GoInt(u: nat): (i: int)
    requires u <= MaxUint64
    ensures MinInt64 <= i <= MaxInt64
    ensures (u - i) % 0x1_0000_0000_0000_0000 == 0
  {
    if u > MaxInt64 then u - 0x1_0000_0000_0000_0000 else u
  }

  /** The flush interval as sent: `strconv.Itoa(int(flushInterval))`. */
  function FlushText(u: nat): string
    requires u <= MaxUint64
  {
    Itoa(GoInt(u))
  }

  /** The interval sent reads back as the interval itself, or as a negative number past the int range. */
  lemma FlushTextReadsBack(u: nat)
    requires u <= MaxUint64
    ensures u <= MaxInt64 ==> Atoi(FlushText(u)) == Some(u)
    ensures u > MaxInt64 ==> Atoi(FlushText(u)).Some? && Atoi(FlushText(u)).value < 0
  {
    AtoiItoa(GoInt(u));
  }

  function LogSteps(name: string, path: string, flush: nat): seq<Step>
    requires flush <= MaxUint64
  {
    [Step(ControlArgv(name, ["logfile", path]), Combined),
     Step(ControlArgv(name, ["logfile", "flush", FlushText(flush)]), Combined),
     Step(ControlArgv(name, ["log", OnOff(path != "")]), Combined)]
  }

  /** Whether `Log` truncated the path, and what it ran and returned. */
  datatype LogRun = LogRun(truncated: bool, trace: Trace)

  /**
   * `Log(path, append, flushInterval)`: liveness, the stat decision, then
   * `logfile <path>`, `logfile flush <n>` and `log on` (`log off` for an
   * empty path), stopping at the first failure.
   */
  function Log(name: string, live: string, path: string, append: bool, flush: nat, stat: StatResult, replies: seq<Reply>): (r: LogRun)
    requires flush <= MaxUint64 && |replies| >= 3
    ensures !Online(name, live) ==> r == LogRun(false, Trace([], Fail(ScreenNotFound)))
    ensures Online(name, live) && LogPrecheck(stat, append).Refuse? ==>
      r == LogRun(false, Trace([], Fail(LogPrecheck(stat, append).error)))
    ensures r.truncated <==> Online(name, live) && append && !stat.StatOk?
    ensures Online(name, live) && LogPrecheck(stat, append).Proceed? ==>
      r.trace == RunSteps(LogSteps(name, path, flush), replies)
  {
    if !Online(name, live) then LogRun(false, Trace([], Fail(ScreenNotFound)))
    else match LogPrecheck(stat, append)
      case Refuse(e) => LogRun(false, Trace([], Fail(e)))
      case Proceed(truncate) => LogRun(truncate, RunSteps(LogSteps(name, path, flush), replies))
  }

  /**
   * A `Log` call that passes ran all three commands, the last switching
   * logging on exactly when the path is non-empty.
   */
  lemma LogPassRunsAll(name: string, live: string, path: string, append: bool, flush: nat, stat: StatResult, replies: seq<Reply>)
    requires flush <= MaxUint64 && |replies| >= 3
    requires Log(name, live, path, append, flush, stat, replies).trace.result.Pass?
    ensures var issued := Log(name, live, path, append, flush, stat, replies).trace.issued;
      issued == [ControlArgv(name, ["logfile", path]),
                 ControlArgv(name, ["logfile", "flush", FlushText(flush)]),
                 ControlArgv(name, ["log", if path == "" then "off" else "on"])]
    ensures replies[0].ok && replies[1].ok && replies[2].ok
  {
    var steps := LogSteps(name, path, flush);
    RunStepsAllOk(steps, replies);
    assert forall k | 0 <= k < 3 :: replies[k].ok;
  }

  // ---------------------------------------------------------------------
  // StuffReturnGetOutput

  /** The text pasted by `StuffReturnGetOutput`: the commands plus a separate newline word. */
  function StuffedText(commands: seq<string>): (text: string)
    ensures |commands| == 0 ==> text == "\n"
    ensures |commands| > 0 ==> text == Join(commands, " ") + " \n"
  {
    if |commands| > 0 then
      JoinAppend(commands, "\n", " ");
      Join(commands + ["\n"], " ")
    else
      assert commands + ["\n"] == ["\n"];
      Join(commands + ["\n"], " ")
  }

  /** How `StuffReturnGetOutput` went: the `Log` call, the `Stuff` call, and what it returned. */
  datatype CaptureRun = CaptureRun(logged: Option<LogRun>, stuffed: Option<Trace>, result: Result<string, Error>)

  /**
   * `StuffReturnGetOutput(ctx, commands...)`: with the temporary file from
   * `temp`, `Log(file, false, 1)`; a failure there is returned; then
   * `Stuff` with a newline word appended, whose error is ignored; then the
   * wait, where `waited` is the first non-empty contents read from the file
   * or `None` if the context was done first.
   */
  function StuffReturnGetOutput(name: string, commands: seq<string>, temp: Result<string, Error>,
                                logLive: string, stat: StatResult, logReplies: seq<Reply>,
                                stuffLive: string, stuffReply: Reply, waited: Option<string>): (r: CaptureRun)
    requires |logReplies| >= 3
    ensures temp.Failure? ==> r == CaptureRun(None, None, Failure(temp.error))
    ensures temp.Success? ==> r.logged == Some(Log(name, logLive, temp.value, false, 1, stat, logReplies))
    ensures r.logged.Some? ==> !r.logged.value.truncated
    ensures r.logged.Some? && r.logged.value.trace.result.Fail? ==>
      r.stuffed.None? && r.result == Failure(r.logged.value.trace.result.error)
    ensures r.stuffed.Some? ==>
      r.stuffed.value.issued == [] || r.stuffed.value.issued == [ControlArgv(name, ["stuff", StuffedText(commands)])]
    ensures r.stuffed.Some? ==> r.result == (if waited.Some? then Success(waited.value) else Failure(Cancelled))
    ensures r.logged.Some? && r.logged.value.trace.result.Pass? ==>
      r.stuffed == Some(Stuff(name, stuffLive, commands + ["\n"], stuffReply)) &&
      r.result == (if waited.Some? then Success(waited.value) else Failure(Cancelled))
  {
    match temp
    case Failure(e) => CaptureRun(None, None, Failure(e))
    case Success(path) =>
      var logged := Log(name, logLive, path, false, 1, stat, logReplies);
      if logged.trace.result.Fail? then CaptureRun(Some(logged), None, Failure(logged.trace.result.error))
      else
        var stuffed := Stuff(name, stuffLive, commands + ["\n"], stuffReply);
        CaptureRun(Some(logged), Some(stuffed), if waited.Some? then Success(waited.value) else Failure(Cancelled))
  }

  /** Whether `Stuff` reached the session or failed makes no difference to the result. */
  lemma CaptureIgnoresStuff(name: string, commands: seq<string>, temp: Result<string, Error>,
                            logLive: string, stat: StatResult, logReplies: seq<Reply>,
                            live1: string, reply1: Reply, live2: string, reply2: Reply, waited: Option<string>)
    requires |logReplies| >= 3
    ensures StuffReturnGetOutput(name, commands, temp, logLive, stat, logReplies, live1, reply1, waited).result ==
            StuffReturnGetOutput(name, commands, temp, logLive, stat, logReplies, live2, reply2, waited).result
  {
  }
}
