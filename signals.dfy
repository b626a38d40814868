/**
 * `Signal(sig)`: collect every descendant of the session's process by
 * asking `ps` for the children of each pid in turn, then `kill` each one.
 * The answers `ps` gives are a tree: a node holds the reply to the query
 * for one pid and, for each line of that reply, the node for the pid on
 * that line. The replies of the `kill` commands are a parameter.
 */
module Signals {
  import opened Wrappers
  import opened Text
  import opened Core
  import opened Dispatch

  /**
   * The answer to `ps --no-headers --ppid <pid> -o pid:1` and, in the order
   * of its lines, the answers for the pids on those lines.
   */
  datatype ProcTree = ProcNode(ps: Reply, children: seq<ProcTree>)

  /** The reply is read only if `ps` succeeded and printed at least two characters. */
  predicate Queried(ps: Reply) {
    ps.ok && |ps.output| >= 2
  }

  /** The lines the walk reads for a node: the reply split at newlines, or none. */
  function ChildLines(t: ProcTree): seq<string> {
    if Queried(t.ps) then Split(t.ps.output, '\n') else []
  }

  /** Every line that is read has its own node, and so on down the tree. */
  predicate WellFormed(t: ProcTree)
    decreases t
  {
    |t.children| == |ChildLines(t)| &&
    forall k | 0 <= k < |t.children| :: WellFormed(t.children[k])
  }

  /** The test a line must pass to be collected: it is not blank once trimmed. */
  const NotBlank: string -> bool := line => TrimSpace(line) != ""

  /** The line, if it passes `keep`. */
  function Keep(keep: string -> bool, line: string): seq<string> {
    if keep(line) then [line] else []
  }

  /** The lines that pass `keep`, in order. */
  function Filter(keep: string -> bool, lines: seq<string>): (kept: seq<string>)
    ensures |kept| <= |lines|
    ensures forall x | x in kept :: keep(x) && x in lines
    decreases |lines|
  {
    if |lines| == 0 then [] else Filter(keep, lines[..|lines| - 1]) + Keep(keep, lines[|lines| - 1])
  }

  /**
   * What the walk collects below a node: first all of its own lines that
   * pass `keep`, then, child by child, what is collected below each.
   */
  function Collected(keep: string -> bool, t: ProcTree): seq<string>
    decreases t, 1, 0
  {
    Filter(keep, ChildLines(t)) + CollectedPrefix(keep, t, |t.children|)
  }

  /** What is collected below the first `n` children. */
  function CollectedPrefix(keep: string -> bool, t: ProcTree, n: nat): seq<string>
    requires n <= |t.children|
    decreases t, 0, n
  {
    if n == 0 then [] else CollectedPrefix(keep, t, n - 1) + Collected(keep, t.children[n - 1])
  }

  /**
   * The descendants in plain depth-first order, each pid just before its
   * own descendants: the reference the walk's order is compared with.
   */
  function Preorder(keep: string -> bool, t: ProcTree): seq<string>
    requires WellFormed(t)
    decreases t, 1, 0
  {
    PreorderPrefix(keep, t, |t.children|)
  }

  /** The depth-first order below the first `n` children. */
  function PreorderPrefix(keep: string -> bool, t: ProcTree, n: nat): seq<string>
    requires WellFormed(t) && n <= |t.children|
    decreases t, 0, n
  {
    if n == 0 then []
    else PreorderPrefix(keep, t, n - 1) + Keep(keep, ChildLines(t)[n - 1]) + Preorder(keep, t.children[n - 1])
  }

  /**
   * The walk collects exactly the pids of a depth-first traversal, each as
   * often; only the order differs.
   */
  lemma {:induction false} CollectedIsPreorder(keep: string -> bool, t: ProcTree)
    requires WellFormed(t)
    ensures multiset(Collected(keep, t)) == multiset(Preorder(keep, t))
    decreases t, 1, 0
  {
    var lines := ChildLines(t);
    CollectedPrefixIsPreorder(keep, t, |t.children|);
    assert lines[..|t.children|] == lines;
  }

  lemma {:induction false} CollectedPrefixIsPreorder(keep: string -> bool, t: ProcTree, n: nat)
    requires WellFormed(t) && n <= |t.children|
    ensures multiset(Filter(keep, ChildLines(t)[..n])) + multiset(CollectedPrefix(keep, t, n)) ==
            multiset(PreorderPrefix(keep, t, n))
    decreases t, 0, n
  {
    var lines := ChildLines(t);
    if n > 0 {
      CollectedPrefixIsPreorder(keep, t, n - 1);
      CollectedIsPreorder(keep, t.children[n - 1]);
      assert lines[..n][..n - 1] == lines[..n - 1];
    }
  }

  /** The first loop of `recurse`: append each line that passes `keep`. */
  method AppendKept(keep: string -> bool, procs: seq<string>, children: seq<string>) returns (out: seq<string>)
    ensures out == procs + Filter(keep, children)
  {
    out := procs;
    for k := 0 to |children|
      invariant out == procs + Filter(keep, children[..k])
    {
      assert children[..k + 1][..k] == children[..k];
      if keep(children[k]) {
        out := out + [children[k]];
      }
    }
    assert children[..|children|] == children;
  }

  /** A node whose `ps` reply is not read adds nothing. */
  lemma CollectedUnread(keep: string -> bool, t: ProcTree, procs: seq<string>)
    requires WellFormed(t) && !Queried(t.ps)
    ensures procs + Collected(keep, t) == procs
  {
    assert ChildLines(t) == [] && |t.children| == 0;
    assert Collected(keep, t) == [];
  }

  /** A read node adds its own kept lines, then what is collected below its children. */
  lemma CollectedRead(keep: string -> bool, t: ProcTree, procs: seq<string>)
    requires WellFormed(t) && Queried(t.ps)
    ensures procs + Collected(keep, t) ==
      (procs + Filter(keep, Split(t.ps.output, '\n'))) + CollectedPrefix(keep, t, |t.children|)
  {
    var kept := Filter(keep, Split(t.ps.output, '\n'));
    var below := CollectedPrefix(keep, t, |t.children|);
    assert Collected(keep, t) == kept + below;
    assert (procs + kept) + below == procs + (kept + below);
  }

  /** Each child of a well-formed node is well formed. */
  lemma ChildWellFormed(t: ProcTree, k: nat)
    requires WellFormed(t) && k < |t.children|
    ensures WellFormed(t.children[k])
  {
  }

  /** Below the first `k + 1` children: below the first `k`, then below child `k`. */
  lemma CollectedPrefixNext(keep: string -> bool, t: ProcTree, k: nat, procs: seq<string>)
    requires k < |t.children|
    ensures (procs + CollectedPrefix(keep, t, k)) + Collected(keep, t.children[k]) ==
      procs + CollectedPrefix(keep, t, k + 1)
  {
    var before := CollectedPrefix(keep, t, k);
    var child := Collected(keep, t.children[k]);
    assert CollectedPrefix(keep, t, k + 1) == before + child;
    assert (procs + before) + child == procs + (before + child);
  }

  /**
   * The walk (`recurse`): the collected pids so far, extended by this
   * node's lines that pass `keep` and then by what each child's walk
   * collects. `Signal` walks with `NotBlank`.
   */
  method Walk(keep: string -> bool, t: ProcTree, procs: seq<string>) returns (out: seq<string>)
    requires WellFormed(t)
    ensures out == procs + Collected(keep, t)
    decreases t, 2
  {
    if !t.ps.ok || |t.ps.output| == 0 || |t.ps.output| == 1 {
      CollectedUnread(keep, t, procs);
      return procs;
    }
    var children := Split(t.ps.output, '\n');
    out := AppendKept(keep, procs, children);
    out := WalkChildren(keep, t, out);
    CollectedRead(keep, t, procs);
  }

  /** The second loop of `recurse`: walk below each child in turn. */
  method WalkChildren(keep: string -> bool, t: ProcTree, procs: seq<string>) returns (out: seq<string>)
    requires WellFormed(t)
    ensures out == procs + CollectedPrefix(keep, t, |t.children|)
    decreases t, 1
  {
    out := procs;
    for k := 0 to |t.children|
      invariant out == procs + CollectedPrefix(keep, t, k)
    {
      out := WalkChild(keep, t, k, procs, out);
    }
  }

  /** One round of the second loop: the walk below child `k` extends what the first `k` collected. */
  method WalkChild(keep: string -> bool, t: ProcTree, k: nat, procs: seq<string>, sofar: seq<string>)
    returns (out: seq<string>)
    requires WellFormed(t) && k < |t.children|
    requires sofar == procs + CollectedPrefix(keep, t, k)
    ensures out == procs + CollectedPrefix(keep, t, k + 1)
    decreases t, 0
  {
    ChildWellFormed(t, k);
    out := Walk(keep, t.children[k], sofar);
    CollectedPrefixNext(keep, t, k, procs);
  }

  // ---------------------------------------------------------------------
  // The kill loop

  /** `kill <pid> -<sig>`, the pid trimmed and the signal in decimal. */
  function KillArgv(proc: string, sig: int): seq<string> {
    ["kill", TrimSpace(proc), "-" + Itoa(sig)]
  }

  /** The signal travels as `-` and its number, which reads back as the signal itself. */
  lemma KillArgvSignal(proc: string, sig: int)
    requires MinInt64 <= sig <= MaxInt64
    ensures |KillArgv(proc, sig)| == 3 && KillArgv(proc, sig)[2][0] == '-'
    ensures Atoi(KillArgv(proc, sig)[2][1..]) == Some(sig)
  {
    var word := KillArgv(proc, sig)[2];
    assert word[1..] == Itoa(sig);
    AtoiItoa(sig);
  }

  /** The kill command for each pid, for one signal. */
  function KillCommand(sig: int): string -> seq<string> {
    proc => KillArgv(proc, sig)
  }

  /** A failed `kill` stops the loop only if it printed something. */
  predicate Fatal(reply: Reply) {
    !reply.ok && |reply.output| > 0
  }

  function Commands(procs: seq<string>, argv: string -> seq<string>): (argvs: seq<seq<string>>)
    ensures |argvs| == |procs|
    ensures forall k | 0 <= k < |procs| :: argvs[k] == argv(procs[k])
  {
    seq(|procs|, k requires 0 <= k < |procs| => argv(procs[k]))
  }

  /** The kill loop: the command `argv` gives for each pid in turn, the k-th getting `replies[k]`. */
  function Kills(procs: seq<string>, argv: string -> seq<string>, replies: seq<Reply>): Trace
    requires |replies| >= |procs|
    decreases |procs|
  {
    if |procs| == 0 then Trace([], Pass)
    else if Fatal(replies[0]) then Trace([argv(procs[0])], Fail(Failed(replies[0].output)))
    else
      var rest := Kills(procs[1..], argv, replies[1..]);
      Trace([argv(procs[0])] + rest.issued, rest.result)
  }

  /** Failures without output are tolerated: with no fatal reply every pid is signalled and the loop passes. */
  lemma {:induction false} KillsToleratesSilentFailures(procs: seq<string>, argv: string -> seq<string>, replies: seq<Reply>)
    requires |replies| >= |procs|
    requires forall k | 0 <= k < |procs| :: !Fatal(replies[k])
    ensures Kills(procs, argv, replies) == Trace(Commands(procs, argv), Pass)
    decreases |procs|
  {
    if |procs| > 0 {
      assert forall k | 0 <= k < |procs| - 1 :: replies[1..][k] == replies[k + 1];
      KillsToleratesSilentFailures(procs[1..], argv, replies[1..]);
      assert Commands(procs, argv) == [argv(procs[0])] + Commands(procs[1..], argv);
    }
  }

  /** The first fatal reply ends the loop with its output; later pids are not signalled. */
  lemma {:induction false} KillsStopsAtFirstFatal(procs: seq<string>, argv: string -> seq<string>, replies: seq<Reply>, j: nat)
    requires |replies| >= |procs| && j < |procs| && Fatal(replies[j])
    requires forall k | 0 <= k < j :: !Fatal(replies[k])
    ensures Kills(procs, argv, replies) == Trace(Commands(procs[..j + 1], argv), Fail(Failed(replies[j].output)))
    decreases j
  {
    if j > 0 {
      assert forall k | 0 <= k < j - 1 :: replies[1..][k] == replies[k + 1];
      KillsStopsAtFirstFatal(procs[1..], argv, replies[1..], j - 1);
      assert procs[1..][..j] == procs[1..j + 1];
      assert Commands(procs[..j + 1], argv) == [argv(procs[0])] + Commands(procs[1..j + 1], argv);
    }
  }

  /** The loop over the collected pids, as written: stop at the first fatal reply. */
  method KillAll(procs: seq<string>, argv: string -> seq<string>, replies: seq<Reply>) returns (t: Trace)
    requires |replies| >= |procs|
    ensures t == Kills(procs, argv, replies)
  {
    var issued: seq<seq<string>> := [];
    for k := 0 to |procs|
      invariant issued == Commands(procs[..k], argv)
      invariant forall j | 0 <= j < k :: !Fatal(replies[j])
    {
      issued := issued + [argv(procs[k])];
      assert issued == Commands(procs[..k + 1], argv);
      if !replies[k].ok && |replies[k].output| > 0 {
        KillsStopsAtFirstFatal(procs, argv, replies, k);
        return Trace(issued, Fail(Failed(replies[k].output)));
      }
    }
    KillsToleratesSilentFailures(procs, argv, replies);
    assert procs[..|procs|] == procs;
    return Trace(issued, Pass);
  }

  // ---------------------------------------------------------------------
  // Signal

  /**
   * `Signal(sig)` on the observations: an unlisted session is "does not
   * exist"; a screen without a process panics reading its pid; otherwise
   * every collected descendant is signalled. The session's own process is
   * not among them.
   */
  function SignalSpec(name: string, live: string, pid: Option<int>, tree: ProcTree, sig: int, replies: seq<Reply>): Trace
    requires |replies| >= |Collected(NotBlank, tree)|
  {
    if !Online(name, live) then Trace([], Fail(NotExist))
    else if pid.None? then Trace([], Fail(Panicked))
    else Kills(Collected(NotBlank, tree), KillCommand(sig), replies)
  }

  method Signal(name: string, live: string, pid: Option<int>, tree: ProcTree, sig: int, replies: seq<Reply>)
    returns (t: Trace)
    requires WellFormed(tree) && |replies| >= |Collected(NotBlank, tree)|
    ensures t == SignalSpec(name, live, pid, tree, sig, replies)
    ensures Online(name, live) && pid.Some? && (forall k | 0 <= k < |Collected(NotBlank, tree)| :: !Fatal(replies[k])) ==>
      t == Trace(Commands(Collected(NotBlank, tree), KillCommand(sig)), Pass)
  {
    if !Online(name, live) {
      return Trace([], Fail(NotExist));
    }
    if pid.None? {
      return Trace([], Fail(Panicked));
    }
    var procs := Walk(NotBlank, tree, []);
    assert procs == Collected(NotBlank, tree);
    t := KillAll(procs, KillCommand(sig), replies);
    if forall k | 0 <= k < |procs| :: !Fatal(replies[k]) {
      KillsToleratesSilentFailures(procs, KillCommand(sig), replies);
    }
  }
}
