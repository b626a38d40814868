# go-gnu-screen in Dafny

A model of `screen.go`, the Go wrapper around GNU `screen` sessions, with proofs about it.

The wrapper finds sessions by reading the text `screen -ls` prints:
- `Get` finds one session by name.
- `GetAll` lists every session.

It keeps one process-wide registry of locks, one lock per session name. `New` starts a detached session and waits until the session is listed.

The control commands (`Quit`, `Kill`, `Clear`, `Stuff`, `Exec`, `Hardcopy`, `Log`) each work the same way:
1. Re-check that the session is still listed.
2. `Exec` checks its fdpat and `Log` checks `os.Stat`; either may return an error here, before any command is sent.
3. Send one or more `screen -S <name> -X ...` commands.
4. Stop at the first command that fails.

`Signal` walks the process tree below the session with `ps`, then runs `kill` on every pid it collected. `StuffReturnGetOutput` logs the session to a temporary file, types the commands, and waits for output.

Nothing external is run in the model. What the outside world answers is a parameter:
- the text a listing printed;
- a `Reply(ok, output, errText)` for each command;
- a tree of `ps` replies;
- the outcome of `os.Stat` and of `os.CreateTemp`;
- the rounds of the wait loop.

Each operation returns what the Go code returns. The control commands also return the argument vectors of the commands they issued.

Modules:
- `Wrappers`: `Option`, `Result`, `Outcome`.
- `Text`: the pieces of Go's `strings` and `strconv` the wrapper relies on.
- `Core`: the errors, command replies and the control command line.
- `Locks`: the `mutexes` registry, as a class over a map.
- `Discovery`: `Get` and `GetAll`.
- `Lifecycle`: `New`.
- `Dispatch`: the control commands, the liveness check, `Exec`'s fdpat check, `Log` and `StuffReturnGetOutput`.
- `Signals`: the `ps` walk and the kill loop of `Signal`.

Behaviour of the code worth knowing:
- **Empty name in `New`.** `New` with an empty name gives "already exists", not `Get`'s empty-name error. `Get`'s empty-name error is not a "does not exist" error, so `New` takes the session as existing.
- **`Log` and `os.Stat`.** With append on, every `os.Stat` error is swallowed, and the path is truncated. So only a call with append off can return a stat error, and then only one that is not "does not exist". A file that `os.Stat` finds is never truncated.
- **No lock during `New`.** `New` does not hold the session's lock while it checks for the session and creates it.
- **Walk order in `Signal`.** The walk is neither breadth-first nor depth-first. Each node first appends all of its own child lines, then walks each child in turn. `Signals.CollectedIsPreorder` proves that it collects exactly the pids of a depth-first walk, each as often.
- **The session's own process is not signalled.** `Signal`'s doc comment says the screen itself is signalled too. The code signals only the collected descendants, and so does the model.
- **Blank or malformed `GetAll` lines panic.** A line between the first and the last that is blank, or whose first field has no dot, is an index-out-of-range panic in `GetAll`. The model returns `Failure(i)` for line `i`.
- **A trailing newline makes the footer an inner line.** `GetAll` skips only the first and the last piece of `strings.Split(out, "\n")`. When the output ends with a newline, the last piece is the empty text after it. The footer line (`N Socket(s) in ...`) is then an inner line, and its first field has no dot, so the code panics. The model returns `Failure` for it too (`ParseEntry("1 S.")` is `None`). Whether `screen -ls` ends its output with a newline is not visible in the code.

## Model

| member | source | states |
|---|---|---|
| Text.ContainsOccurrence | screen.go:96 | `strings.Contains` holds exactly when the text occurs at some position |
| Text.IndexOf | screen.go:142 | the index is the first occurrence of the character, or the length when it does not occur |
| Text.LastIndexOf | screen.go:242 | the index is the last occurrence of the character, or -1 when it does not occur |
| Text.SplitHead | screen.go:142 | the first piece of `strings.Split` is the text before the first separator, and the rest is the split of the text after it |
| Text.SplitPiecesFreeOfSep | screen.go:142 | no piece of `strings.Split` holds the separator |
| Text.JoinSplit | screen.go:139 | joining the pieces of a split with the separator gives the original text back |
| Text.SplitJoin | screen.go:189 | `strings.Join` (`Join`) is undone by `Split`: splitting a join of separator-free pieces gives the pieces back |
| Text.JoinAppend | screen.go:420-421 | joining one more piece adds the separator and that piece at the end |
| Text.Fields | screen.go:141 | `strings.Fields` finds no field exactly when the text is all white space |
| Text.FieldsAreWords | screen.go:141 | every field is non-empty and holds no white space |
| Text.FirstField | screen.go:141 | the first field is the whole run of non-space characters after the leading white space |
| Text.TrimSpace | screen.go:355 | the trimmed text is empty exactly when the text is all white space; otherwise it neither starts nor ends with white space |
| Text.TrimSpaceIsMiddle | screen.go:372 | the trimmed text is a slice of the text with only white space before and after it |
| Text.Atoi | screen.go:112 | `strconv.Atoi` accepts exactly a run of decimal digits, with an optional `+` or `-` before it, whose value is in the 64-bit int range; the value is that of the digits, negated after `-` |
| Text.FormatNat | screen.go:370 | the decimal text is non-empty, all digits, and its value is the number |
| Text.AtoiItoa | screen.go:306 | every 64-bit integer is read back by `Atoi` from the text `Itoa` writes |
| Core.ControlArgv | screen.go:173 | the control command is `/usr/bin/screen -S <name> -X` followed by exactly the given words |
| Locks.LoadOrStoreIn | screen.go:125 | `LoadOrStore` returns the stored lock if the name has one, and otherwise stores and returns the candidate; no other entry changes |
| Locks.ReplayKeepsOneLockPerName | screen.go:29 | over any series of `LoadOrStore` calls, no entry is replaced, the keys are the old names plus the requested ones, and each call returns the lock its name finally maps to |
| Locks.SameNameSameLock | screen.go:29 | two calls for the same name return the identical lock |
| Locks.Registry.constructor | screen.go:29 | the registry starts empty |
| Locks.Registry.LoadOrStore | screen.go:125 | the new map and the returned lock are those of the get-or-create step |
| Locks.Registry.Acquire | screen.go:124-127 | the name maps to the returned lock; an existing lock is kept, otherwise a fresh one is stored; no other entry changes |
| Discovery.DigitEnd | screen.go:101 | the `\d+` run starting at a position ends at the first non-digit |
| Discovery.TokenAtSpellsPattern | screen.go:101 | a match of `TokenAt` spells the pattern `\s(\d+)\.(<name>)\s`: white space, the pid digits, a dot, the name, white space |
| Discovery.PatternIsToken | screen.go:101-102 | conversely, wherever the text spells that pattern, `TokenAt` matches there and the first submatch is the digits |
| Discovery.TokenPid | screen.go:112 | the first submatch of a match is a non-empty run of digits |
| Discovery.FirstToken | screen.go:102-116 | returns the leftmost match at or after a position, or `None` when no match exists there |
| Discovery.Find | screen.go:88-121 | empty name: the empty-name error. "No Sockets found in" or no match: "does not exist". Otherwise success exactly when the pattern matches; the session carries the requested name, and its pid is the `Atoi` of the leftmost match's digits |
| Discovery.FindKeepsSessionWithoutPid | screen.go:111-114 | a matched session whose pid digits exceed the int range is still returned, without a process |
| Discovery.FindRejectsLongerName | screen.go:101-109 | a session `foobar` is not found when `foo` is asked for |
| Discovery.Get | screen.go:88-130 | the result is `Find` plus the registry's lock for the name; the registry changes only when a session is found, and then only by that name |
| Discovery.ParseEntrySegments | screen.go:141-148 | `ParseEntry`, one line of the listing: a line yields a session exactly when its first field holds a dot; the pid is read from before the first dot, the name is the text up to the next dot |
| Discovery.ParseEachLineByLine | screen.go:140-156 | lines parse as a whole exactly when each line parses, giving one item per line in order; otherwise parsing stops at the first line that does not parse |
| Discovery.InnerLines | screen.go:140 | the inner lines are the lines strictly between the first and the last |
| Discovery.ParseLinesPerLine | screen.go:139-156 | `ParseLines` and `ParseListing`, the parse of a whole listing: a listing that parses yields one item per line strictly between the first and the last, in order |
| Discovery.ParseLinesStopsAtFirstBadLine | screen.go:140-148 | a listing that fails to parse stops at the first inner line that does not parse |
| Discovery.ParseEachStopsAt | screen.go:140-148 | a bad line after lines that all parse is exactly where parsing stops |
| Discovery.ParseListingNoSockets | screen.go:135-137 | the "No Sockets found in" phrase gives an empty list, not an error |
| Discovery.AttachEntry | screen.go:141-153 | one line: no session exactly when it does not parse, otherwise the parsed session with the registry's lock for its name |
| Discovery.AttachLines | screen.go:139-156 | the loop over the lines: fails exactly at the first inner line that does not parse; otherwise one screen per inner line, each the parsed session with the registry's lock for its name, and the registry gains exactly those names |
| Discovery.GetAll | screen.go:133-159 | fails exactly when, and where, the listing does not parse; otherwise returns one screen per parsed session, in order, each holding the registry's lock for its name; the registry gains exactly those names and keeps every old entry |
| Lifecycle.Await | screen.go:69-82 | the wait calls `Get` at most once per round; for a non-empty name it can only return "cancelled" or the session with that name |
| Lifecycle.AwaitStopsAtFirstDecisive | screen.go:70-82 | the wait returns what the first cancelled or non-"does not exist" round says, having called `Get` once per round except a cancelled one |
| Lifecycle.AwaitKeepsPolling | screen.go:70-82 | with no decisive round, the wait goes on, having called `Get` once per round |
| Lifecycle.NewSpec | screen.go:54-84 | the session is created exactly when the first listing says "does not exist"; otherwise (empty name included) the result is "already exists"; a failed create returns its output; after that only cancellation or the named session can be returned |
| Lifecycle.New | screen.go:54-85 | the loop's result, its number of `Get` calls and the issued create command (`CreateArgv`) agree with `NewSpec`; the registry keeps every entry and gains the name exactly when a `Get` found the session |
| Dispatch.RunStepsAllOk | screen.go:301-321 | `RunSteps`, the sequence runner: a command sequence passes exactly when every command succeeds, and then every command was issued in order |
| Dispatch.RunStepsStopsAtFirstFailure | screen.go:271-280 | `RunSteps`: the first failing command ends the sequence with its error text; later commands are not issued |
| Dispatch.IsOnline | screen.go:450-453 | online (the predicate `Online`) exactly when `Get` would find the session; being a `Get`, it registers the name's lock only then |
| Dispatch.Builtin | screen.go:165-179 | unlisted session: "screen not found" and nothing issued; otherwise exactly the one control command is issued, and a failure returns its combined output |
| Dispatch.Quit | screen.go:198-200 | issues exactly `screen -S <name> -X quit` when the session is listed and nothing otherwise; unlisted is "screen not found", otherwise the reply decides, a failure returning its combined output |
| Dispatch.Kill | screen.go:203-205 | issues exactly `screen -S <name> -X kill` when the session is listed and nothing otherwise; unlisted is "screen not found", otherwise the reply decides, a failure returning its combined output |
| Dispatch.Clear | screen.go:325-327 | issues exactly `screen -S <name> -X clear` when the session is listed and nothing otherwise; unlisted is "screen not found", otherwise the reply decides, a failure returning its combined output |
| Dispatch.BuiltinArgs | screen.go:181-195 | the arguments are sent as one word joined by spaces; a failure returns standard output followed by Go's error text |
| Dispatch.Stuff | screen.go:185-191 | `Stuff` (screen.go:209) runs `builtinTemplateArgs("stuff", ...)`: issues `stuff` with the space-joined text, and issues nothing exactly when the session is not listed; unlisted is "screen not found", otherwise the reply decides, a failure returning its standard output followed by Go's error text |
| Dispatch.StuffTextSplitsBack | screen.go:189 | the pasted text splits back into the commands when none contains a space |
| Dispatch.FdpatLastSlash | screen.go:241-246 | `FdpatMatches`, the unanchored pattern `/[.!:]{0,3}\|?$` matches exactly when the text after the last slash has the pattern's tail shape |
| Dispatch.Exec | screen.go:232-255 | liveness comes first; a non-empty fdpat that does not match is "invalid fdpat" and issues nothing; otherwise the one exec command is issued and its reply decides |
| Dispatch.ExecArgvLayout | screen.go:248 | the exec command carries the options, fdpat, command and every argument, in order |
| Dispatch.OnOff | screen.go:267-270 | the word is `on` exactly when the flag is set and `off` exactly when it is not |
| Dispatch.Hardcopy | screen.go:258-283 | `hardcopy_append` is set first; if it fails, `hardcopy <path>` is not issued; otherwise the second command's reply decides |
| Dispatch.LogPrecheck | screen.go:294-299 | a stat error is returned exactly when append is off and the error is not "does not exist"; the path is truncated exactly when append is on and stat failed |
| Dispatch.GoInt | screen.go:306 | `int(flushInterval)` is in the int64 range and congruent to the `uint` modulo 2^64 |
| Dispatch.FlushTextReadsBack | screen.go:306 | the flush interval reads back as itself up to the int64 maximum, and as a negative number beyond it |
| Dispatch.Log | screen.go:286-322 | unlisted: "screen not found"; a refused stat returns its error and issues nothing; the path is truncated exactly when listed, append is on and stat failed; otherwise the three commands run in sequence |
| Dispatch.LogPassRunsAll | screen.go:301-319 | a passing `Log` issued `logfile <path>`, `logfile flush <n>` and `log on`, or `log off` for an empty path, and all three succeeded |
| Dispatch.StuffedText | screen.go:420-421 | the pasted text is the joined commands followed by a space and a newline, or just a newline when there are no commands |
| Dispatch.StuffReturnGetOutput | screen.go:404-447 | a temp-file error is returned; otherwise `Log` runs on the temp path with append off and flush 1, and never truncates; a `Log` failure is returned before anything is stuffed; after a passing `Log`, `Stuff` runs with the commands and a newline word, and the result is the waited output or "cancelled" |
| Dispatch.CaptureIgnoresStuff | screen.go:419-421 | whether `Stuff` reached the session or failed does not change the result |
| Signals.CollectedIsPreorder | screen.go:343-365 | `Collected`, what the walk collects, holds exactly the pids of a depth-first traversal, each as often |
| Signals.Filter | screen.go:354-358 | the kept lines are at most as many as the lines, and every kept line passes the test and is one of the lines: a blank `ps` line is never collected |
| Signals.AppendKept | screen.go:353-358 | the collected list is extended by exactly the lines that pass the filter, in order |
| Signals.Walk | screen.go:345-364 | the walk of a node appends exactly what `Collected` says is collected below it; an unread `ps` reply adds nothing |
| Signals.WalkChildren | screen.go:361-363 | walking the children in turn appends what is collected below each, in order |
| Signals.WalkChild | screen.go:362 | one round of that loop: the walk below child `k` appends exactly what is collected below it, after what the first `k` children gave |
| Signals.KillArgvSignal | screen.go:370-372 | `KillArgv`: the signal word is `-` followed by text that reads back as the signal number |
| Signals.KillsToleratesSilentFailures | screen.go:371-376 | `Kills`, the kill loop: with no failure that printed something, every pid gets its kill command and the loop passes |
| Signals.KillsStopsAtFirstFatal | screen.go:371-376 | the first failure with output ends the loop with that output; later pids are not signalled |
| Signals.KillAll | screen.go:371-378 | the loop's trace is `Kills`: pids signalled in order, stopping at the first failure with output |
| Signals.Signal | screen.go:334-379 | the result is `SignalSpec`: unlisted: "does not exist"; no process: a panic; otherwise every collected descendant is killed in order; with no failure that printed something, the call passes having signalled all of them |

## Left out

- Running external programs (`screen`, `ps`, `kill`): their replies are parameters, and the model records only the argument vectors of the commands issued.
- Filesystem access (`os.Stat`, `os.Truncate`, `os.CreateTemp`, `os.ReadFile`, `os.RemoveAll`): their outcomes are parameters. The truncation is recorded as a flag, and its own error is ignored, as in the code.
- Locking and unlocking `sync.Mutex` and concurrency between callers: a lock is an object identity, and the model proves only which lock each screen holds.
- The sleeps in `New` and `StuffReturnGetOutput`: they have no effect on results.
- The goroutine and `select` of `StuffReturnGetOutput`: the outcome of the wait is a parameter, `Some(contents)` or `None` for a done context.
- `Lifecycle.New`: Go's wait loop never ends while the session is missing and the context is live. The model stops when its finite list of rounds runs out and reports `StillPolling`.
- `Discovery.Find`: the name is matched as literal text. In the code it is spliced into the regular expression unescaped, so a name holding regular-expression metacharacters (such as `a+`) behaves differently there.
- `Discovery.Find`, `Discovery.GetAll`: `os.FindProcess` always succeeds on Unix, so a process is modelled by its pid alone.
- The control commands (`Dispatch.Builtin`, `Dispatch.Exec`, `Dispatch.Hardcopy`, `Dispatch.Log`, `Signals.Signal`) check liveness with the pure `Dispatch.Online`. The lock registration that their `isOnline` call performs is modelled separately by `Dispatch.IsOnline`.
- `Signals.Signal`: the `ps` query's argument vector, and the root pid it is given, are not recorded. The tree of replies stands for them. The `requires` on the tree's shape and on the number of kill replies only size the parameters.
- `Signals.Signal`: `len(out)` counts bytes in Go; here a string is a sequence of characters, so the two-character read threshold and the non-empty-output test count characters.
- `Dispatch.Hardcopy`, `Dispatch.Log`: the `requires` on the number of replies only sizes the parameters.
- `HardcopyString`, `Chdir` and `init`: they are outside the modelled core. `init` only reads the environment and the current user, and sets package variables no modelled operation reads.
- A `Screen` built without `Get`, `GetAll` or `New` (a nil `Mutex`): not representable, since every modelled screen holds a lock.
