/**
 * Session creation: `New(ctx, name, shell)` refuses a name that is already
 * listed, starts `screen -dmS <name> <shell>`, then polls `screen -ls <name>`
 * until the session shows up or the context is cancelled. Each poll is an
 * observation: whether the context was done at the top of that round, and
 * what the listing printed.
 */
module Lifecycle {
  import opened Wrappers
  import opened Core
  import opened Discovery
  import Locks

  /** The command that starts a detached session running `shell`. */
  function CreateArgv(name: string, shell: string): seq<string> {
    [ScreenExec, "-dmS", name, shell]
  }

  /** One round of the wait loop: `ctx.Err() != nil`, then the listing `Get` sees. */
  datatype Poll = Poll(cancelled: bool, listing: string)

  /**
   * Where the wait stands after the given rounds: it returned a result, or
   * (the observations having run out) it is still polling.
   */
  datatype Progress<T> = Returned(result: Result<T, Error>) | StillPolling

  /** How the wait went and how many times it called `Get`. */
  datatype Waited = Waited(progress: Progress<Session>, gets: nat)

  /** How `New` went: its progress, whether it ran the create command, and how many times it called `Get`. */
  datatype NewRun = NewRun(progress: Progress<Session>, created: bool, gets: nat)

  /** A round that ends the wait: the context is done, or `Get` says anything but "not found". */
  predicate Decisive(name: string, p: Poll) {
    p.cancelled || Find(name, p.listing) != Failure(NotExist)
  }

  /** What a decisive round returns. */
  function Verdict(name: string, p: Poll): Result<Session, Error> {
    if p.cancelled then Failure(Cancelled) else Find(name, p.listing)
  }

  /**
   * The wait loop from round `i` on. For a non-empty name it can only end in
   * cancellation or in the session itself, and it calls `Get` once per round
   * it does not find cancelled.
   */
  function Await(name: string, polls: seq<Poll>, i: nat): (w: Waited)
    ensures i <= |polls| ==> w.gets <= |polls| - i
    ensures name != "" && w.progress.Returned? ==>
      w.progress.result == Failure(Cancelled) ||
      (w.progress.result.Success? && w.progress.result.value.name == name)
    decreases |polls| - i
  {
    if i >= |polls| then Waited(StillPolling, 0)
    else if polls[i].cancelled then Waited(Returned(Failure(Cancelled)), 0)
    else
      var found := Find(name, polls[i].listing);
      if found != Failure(NotExist) then Waited(Returned(found), 1)
      else
        var w := Await(name, polls, i + 1);
        Waited(w.progress, w.gets + 1)
  }

  /**
   * The wait returns what the first decisive round says; a cancelled round
   * does not call `Get`, every other round calls it once.
   */
  lemma {:induction false} AwaitStopsAtFirstDecisive(name: string, polls: seq<Poll>, i: nat, j: nat)
    requires i <= j < |polls| && Decisive(name, polls[j])
    requires forall k | i <= k < j :: !Decisive(name, polls[k])
    ensures Await(name, polls, i) ==
      Waited(Returned(Verdict(name, polls[j])), j - i + (if polls[j].cancelled then 0 else 1))
    decreases j - i
  {
    if i < j {
      assert !Decisive(name, polls[i]);
      AwaitStopsAtFirstDecisive(name, polls, i + 1, j);
    }
  }

  /** Without a decisive round the wait goes on, having called `Get` once per round. */
  lemma {:induction false} AwaitKeepsPolling(name: string, polls: seq<Poll>, i: nat)
    requires i <= |polls|
    requires forall k | i <= k < |polls| :: !Decisive(name, polls[k])
    ensures Await(name, polls, i) == Waited(StillPolling, |polls| - i)
    decreases |polls| - i
  {
    if i < |polls| {
      assert !Decisive(name, polls[i]);
      AwaitKeepsPolling(name, polls, i + 1);
    }
  }

  /**
   * `New` on the observations: the initial listing, the reply of the create
   * command and the wait rounds. Anything but "not found" at first, the
   * empty-name error included, is "already exists" and nothing is created;
   * once created, `New` can only be cancelled, fail to create, or return
   * the session it was asked for.
   */
  function NewSpec(name: string, initial: string, create: Reply, polls: seq<Poll>): (r: NewRun)
    ensures r.created <==> Find(name, initial) == Failure(NotExist)
    ensures name == "" ==> r == NewRun(Returned(Failure(AlreadyExists)), false, 1)
    ensures Find(name, initial).Success? ==> r == NewRun(Returned(Failure(AlreadyExists)), false, 1)
    ensures r.created && !create.ok ==> r == NewRun(Returned(Failure(Failed(create.output))), true, 1)
    ensures r.created && create.ok ==>
      1 <= r.gets <= 1 + |polls| &&
      (r.progress.StillPolling? || r.progress.result == Failure(Cancelled) ||
       (r.progress.result.Success? && r.progress.result.value.name == name))
  {
    if Find(name, initial) != Failure(NotExist) then NewRun(Returned(Failure(AlreadyExists)), false, 1)
    else if !create.ok then NewRun(Returned(Failure(Failed(create.output))), true, 1)
    else
      var w := Await(name, polls, 0);
      NewRun(w.progress, true, 1 + w.gets)
  }

  /** `New` returned the session (and so registered its name). */
  predicate Found(p: Progress<Session>) {
    p.Returned? && p.result.Success?
  }

  /** Whether `New` registers a lock for `name`: the initial `Get` or the closing one found it. */
  predicate Registers(name: string, initial: string, create: Reply, polls: seq<Poll>) {
    Find(name, initial).Success? || Found(NewSpec(name, initial, create, polls).progress)
  }

  function ForgetProgress(p: Progress<Screen>): Progress<Session> {
    match p
    case StillPolling => StillPolling
    case Returned(r) => Returned(ForgetResult(r))
  }

  /**
   * `New(ctx, name, shell)` against the registry; the observations stand
   * for the listings, the create command's reply and the context.
   */
  method New(reg: Locks.Registry, name: string, shell: string, initial: string, create: Reply, polls: seq<Poll>)
    returns (r: Progress<Screen>, launched: seq<seq<string>>, gets: nat)
    modifies reg
    ensures var spec := NewSpec(name, initial, create, polls);
      ForgetProgress(r) == spec.progress && gets == spec.gets &&
      launched == (if spec.created then [CreateArgv(name, shell)] else [])
    ensures Locks.Extends(old(reg.locks), reg.locks)
    ensures reg.locks.Keys ==
      old(reg.locks).Keys + (if Registers(name, initial, create, polls) then {name} else {})
    ensures r.Returned? && r.result.Success? ==> name in reg.locks && r.result.value.mutex == reg.locks[name]
  {
    var existing := Get(reg, name, initial);
    gets := 1;
    if !(existing.Failure? && existing.error == NotExist) {
      return Returned(Failure(AlreadyExists)), [], gets;
    }
    launched := [CreateArgv(name, shell)];
    if !create.ok {
      return Returned(Failure(Failed(create.output))), launched, gets;
    }
    var i := 0;
    while i < |polls|
      invariant 0 <= i <= |polls|
      invariant Await(name, polls, 0).progress == Await(name, polls, i).progress
      invariant Await(name, polls, 0).gets == gets - 1 + Await(name, polls, i).gets
      invariant reg.locks == old(reg.locks)
    {
      if polls[i].cancelled {
        return Returned(Failure(Cancelled)), launched, gets;
      }
      var got := Get(reg, name, polls[i].listing);
      gets := gets + 1;
      if !(got.Failure? && got.error == NotExist) {
        return Returned(got), launched, gets;
      }
      i := i + 1;
    }
    return StillPolling, launched, gets;
  }
}
