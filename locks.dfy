/**
 * The process-wide registry of per-session locks (`mutexes`, a `sync.Map`
 * used only through `LoadOrStore`): get-or-create, never overwrite, never remove.
 */
module Locks {

  /** A `sync.Mutex`; only its identity matters to this model. */
  class Lock {
    constructor () { }
  }

  /** `m1` keeps every entry of `m0` unchanged. */
  predicate Extends<L(==)>(m0: map<string, L>, m1: map<string, L>) {
    forall k | k in m0 :: k in m1 && m1[k] == m0[k]
  }

  /**
   * `LoadOrStore(name, candidate)` on a map: the lock already stored under
   * `name`, or else `candidate`, which is stored.
   */
  function LoadOrStoreIn<L(==)>(m: map<string, L>, name: string, candidate: L): (r: (map<string, L>, L))
    ensures name in r.0 && r.0[name] == r.1
    ensures Extends(m, r.0) && r.0.Keys == m.Keys + {name}
    ensures name in m ==> r.1 == m[name] && r.0 == m
    ensures name !in m ==> r.1 == candidate
  {
    if name in m then (m, m[name]) else (m[name := candidate], candidate)
  }

  /** A series of `LoadOrStore` calls: the final map and the lock each call returned. */
  function Replay<L(==)>(m: map<string, L>, calls: seq<(string, L)>): (r: (map<string, L>, seq<L>))
    ensures |r.1| == |calls|
    decreases |calls|
  {
    if |calls| == 0 then (m, [])
    else
      var (m1, lock) := LoadOrStoreIn(m, calls[0].0, calls[0].1);
      var (m2, locks) := Replay(m1, calls[1..]);
      (m2, [lock] + locks)
  }

  /** The names a series of calls asks for. */
  function Names<L>(calls: seq<(string, L)>): set<string> {
    set i | 0 <= i < |calls| :: calls[i].0
  }

  /**
   * Over any series of calls, no entry is ever replaced, every call returns
   * the lock that the name finally maps to, and the map holds exactly the
   * earlier names and the names asked for.
   */
  lemma {:induction false} ReplayKeepsOneLockPerName<L>(m: map<string, L>, calls: seq<(string, L)>)
    ensures Extends(m, Replay(m, calls).0)
    ensures Replay(m, calls).0.Keys == m.Keys + Names(calls)
    ensures forall i | 0 <= i < |calls| ::
      calls[i].0 in Replay(m, calls).0 && Replay(m, calls).1[i] == Replay(m, calls).0[calls[i].0]
    decreases |calls|
  {
    if |calls| > 0 {
      var (m1, lock) := LoadOrStoreIn(m, calls[0].0, calls[0].1);
      ReplayKeepsOneLockPerName(m1, calls[1..]);
      var r := Replay(m, calls);
      assert r.0 == Replay(m1, calls[1..]).0;
      var rest := calls[1..];
      assert Names(calls) == {calls[0].0} + Names(rest) by {
        forall x | x in Names(calls) ensures x in {calls[0].0} + Names(rest) {
          var i :| 0 <= i < |calls| && calls[i].0 == x;
          if i > 0 { assert rest[i - 1].0 == x; }
        }
      }
      forall i | 0 <= i < |calls| ensures calls[i].0 in r.0 && r.1[i] == r.0[calls[i].0] {
        if i > 0 { assert calls[i] == calls[1..][i - 1]; }
      }
    }
  }

  /** Two calls for the same name, however far apart, return the identical lock. */
  lemma SameNameSameLock<L>(m: map<string, L>, calls: seq<(string, L)>, i: nat, j: nat)
    requires i < |calls| && j < |calls| && calls[i].0 == calls[j].0
    ensures Replay(m, calls).1[i] == Replay(m, calls).1[j]
  {
    ReplayKeepsOneLockPerName(m, calls);
  }

  /** The registry object itself: one map from session name to lock. */
  class Registry {
    var locks: map<string, Lock>

    constructor ()
      ensures locks == map[]
    {
      locks := map[];
    }

    /** `mutexes.LoadOrStore(name, candidate)` */
    method LoadOrStore(name: string, candidate: Lock) returns (actual: Lock)
      modifies this
      ensures (locks, actual) == LoadOrStoreIn(old(locks), name, candidate)
    {
      if name in locks {
        actual := locks[name];
      } else {
        locks := locks[name := candidate];
        actual := candidate;
      }
    }

    /**
     * `mutexes.LoadOrStore(name, new(sync.Mutex))`: the lock registered for
     * `name`, a fresh one when there was none.
     */
    method Acquire(name: string) returns (lock: Lock)
      modifies this
      ensures name in locks && locks[name] == lock
      ensures Extends(old(locks), locks) && locks.Keys == old(locks).Keys + {name}
      ensures name in old(locks) ==> lock == old(locks)[name] && locks == old(locks)
      ensures name !in old(locks) ==> fresh(lock)
    {
      var candidate := new Lock();
      lock := LoadOrStore(name, candidate);
    }
  }
}
