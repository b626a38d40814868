/**
 * Session discovery: `Get` finds one session in the output of `screen -ls <name>`,
 * `GetAll` lists every session in the output of `screen -ls`. The listing text is
 * a parameter: it is whatever the command printed.
 */
module Discovery {
  import opened Wrappers
  import opened Text
  import opened Core
  import Locks

  /** The phrase `screen -ls` prints when it has no session to list. */
  const NoSockets: string := "No Sockets found in"

  /** What a listing says about one session: its name and, if it parsed, its pid. */
  datatype Session = Session(name: string, pid: Option<int>)

  /** The `Screen` struct: name, the shared lock for that name, and the process (by pid). */
  datatype Screen = Screen(name: string, mutex: Locks.Lock, pid: Option<int>)

  function Forget(s: Screen): Session {
    Session(s.name, s.pid)
  }

  function ForgetResult(r: Result<Screen, Error>): Result<Session, Error> {
    match r
    case Success(s) => Success(Forget(s))
    case Failure(e) => Failure(e)
  }

  // ---------------------------------------------------------------------
  // Get: the pattern `\s(\d+)\.(<name>)\s`, first match wins

  /** RE2's `\s`: tab, newline, form feed, carriage return and space. */
  predicate IsRegexSpace(c: char) {
    c == '\t' || c == '\n' || c == '\U{0C}' || c == '\r' || c == ' '
  }

  /** End of the run of digits that starts at `k`. */
  function DigitEnd(s: string, k: nat): (j: nat)
    requires k <= |s|
    ensures k <= j <= |s|
    ensures forall i | k <= i < j :: IsDigit(s[i])
    ensures j < |s| ==> !IsDigit(s[j])
    decreases |s| - k
  {
    if k < |s| && IsDigit(s[k]) then DigitEnd(s, k + 1) else k
  }

  /**
   * The pattern `\s(\d+)\.(<name>)\s` matches starting at `i`: a white-space
   * character, digits, a dot, exactly `name`, and a white-space character.
   * The digits can only end where the dot is, so each start has at most one match.
   */
  predicate TokenAt(s: string, name: string, i: nat) {
    i < |s| && IsRegexSpace(s[i]) &&
    var j := DigitEnd(s, i + 1);
    j > i + 1 && j + 1 + |name| < |s| && s[j] == '.' &&
    s[j + 1..j + 1 + |name|] == name && IsRegexSpace(s[j + 1 + |name|])
  }

  /** A run of digits that stops at a non-digit is exactly what `DigitEnd` measures. */
  lemma DigitRun(s: string, k: nat, n: nat)
    requires k + n < |s| && !IsDigit(s[k + n])
    requires forall i | k <= i < k + n :: IsDigit(s[i])
    ensures DigitEnd(s, k) == k + n
  {
  }

  /**
   * A match at `i` spells the pattern: a white-space character, the pid
   * digits, a dot, the name and a white-space character.
   */
  lemma TokenAtSpellsPattern(s: string, name: string, i: nat)
    requires TokenAt(s, name, i)
    ensures var pid := TokenPid(s, name, i);
      var e := i + 1 + |pid| + 1 + |name|;
      e < |s| && IsRegexSpace(s[i]) && IsRegexSpace(s[e]) &&
      s[i..e + 1] == [s[i]] + pid + "." + name + [s[e]]
  {
    var pid := TokenPid(s, name, i);
    var j := DigitEnd(s, i + 1);
    var e := j + 1 + |name|;
    assert s[j + 1..e + 1] == name + [s[e]];
    assert s[j..e + 1] == "." + s[j + 1..e + 1];
    assert s[i + 1..e + 1] == pid + s[j..e + 1];
    assert s[i..e + 1] == [s[i]] + s[i + 1..e + 1];
  }

  /**
   * Conversely, wherever the text spells the pattern for `name`, the pattern
   * matches there and its first submatch is the digits.
   */
  lemma PatternIsToken(before: string, a: char, digits: string, name: string, b: char, after: string)
    requires IsRegexSpace(a) && IsRegexSpace(b) && |digits| > 0 && AllDigits(digits)
    ensures var s := before + [a] + digits + "." + name + [b] + after;
      TokenAt(s, name, |before|) && TokenPid(s, name, |before|) == digits
  {
    var s := before + [a] + digits + "." + name + [b] + after;
    var k := |before| + 1;
    assert s[|before|] == a && s[k + |digits|] == '.';
    assert forall i | k <= i < k + |digits| :: s[i] == digits[i - k];
    DigitRun(s, k, |digits|);
    var j := k + |digits|;
    assert s[j + 1..j + 1 + |name|] == name;
    assert s[j + 1 + |name|] == b;
    assert s[k..j] == digits;
  }

  /** The pid digits of the match at `i` (the first submatch). */
  function TokenPid(s: string, name: string, i: nat): (pid: string)
    requires TokenAt(s, name, i)
    ensures |pid| > 0 && AllDigits(pid)
  {
    s[i + 1..DigitEnd(s, i + 1)]
  }

  /** The leftmost match: the one `FindAllStringSubmatch` reports first. */
  predicate IsFirstToken(s: string, name: string, i: nat) {
    TokenAt(s, name, i) && forall k | 0 <= k < i :: !TokenAt(s, name, k)
  }

  /** The leftmost match starting at or after `from`. */
  function FirstToken(s: string, name: string, from: nat): (r: Option<nat>)
    ensures r.Some? ==> from <= r.value && TokenAt(s, name, r.value)
    ensures r.Some? ==> forall k | from <= k < r.value :: !TokenAt(s, name, k)
    ensures r.None? ==> forall k | from <= k :: !TokenAt(s, name, k)
    decreases |s| - from
  {
    if from >= |s| then None
    else if TokenAt(s, name, from) then Some(from)
    else FirstToken(s, name, from + 1)
  }

  /**
   * `Get(name)` on the listing `screen -ls <name>` printed: an empty name is
   * refused before anything is listed; the "no sockets" phrase, or no match
   * of the pattern, is "not found"; otherwise the first match names the
   * session, and its pid is kept only if `strconv.Atoi` accepts it.
   */
  function Find(name: string, listing: string): (r: Result<Session, Error>)
    ensures name == "" ==> r == Failure(EmptyName)
    ensures name != "" && Contains(listing, NoSockets) ==> r == Failure(NotExist)
    ensures r.Failure? ==> r.error == EmptyName || r.error == NotExist
    ensures name != "" && r.Failure? ==> r.error == NotExist
    ensures r.Success? <==>
      name != "" && !Contains(listing, NoSockets) && exists i :: TokenAt(listing, name, i)
    ensures r.Success? ==> r.value.name == name
    ensures r.Success? ==>
      exists i :: IsFirstToken(listing, name, i) && r.value.pid == Atoi(TokenPid(listing, name, i))
  {
    if name == "" then Failure(EmptyName)
    else if Contains(listing, NoSockets) then Failure(NotExist)
    else match FirstToken(listing, name, 0)
      case None => Failure(NotExist)
      case Some(i) => Success(Session(name, Atoi(TokenPid(listing, name, i))))
  }

  /**
   * A found session whose pid digits do not fit in 64 bits is still returned,
   * without a process.
   */
  lemma FindKeepsSessionWithoutPid(name: string, listing: string, i: nat)
    requires name != "" && !Contains(listing, NoSockets) && IsFirstToken(listing, name, i)
    ensures Find(name, listing).Success?
    ensures Find(name, listing).value.name == name
    ensures Find(name, listing).value.pid.None? <==> DigitsValue(TokenPid(listing, name, i)) > MaxInt64
  {
    var f := FirstToken(listing, name, 0);
    assert f == Some(i);
    var pid := TokenPid(listing, name, i);
    assert IsDigit(pid[0]);
  }

  /** A listed session whose name only begins with `foo` is not the session `foo`. */
  lemma FindRejectsLongerName()
    ensures Find("foo", "\t7.foobar\t") == Failure(NotExist)
  {
    var s := "\t7.foobar\t";
    assert DigitEnd(s, 1) == 2 by { assert DigitEnd(s, 2) == 2; }
    forall k: nat ensures !TokenAt(s, "foo", k) {
      if 0 < k < |s| - 1 { assert !IsRegexSpace(s[k]); }
      if k == |s| - 1 { assert DigitEnd(s, k + 1) == k + 1; }
      if k == 0 { assert s[6] == 'b'; }
    }
  }

  /**
   * `Get(name)`, `listing` being what `screen -ls <name>` printed: the
   * session `Find` reports, with the registry's lock for its name. A name
   * is registered only once its session has been found.
   */
  method Get(reg: Locks.Registry, name: string, listing: string) returns (r: Result<Screen, Error>)
    modifies reg
    ensures ForgetResult(r) == Find(name, listing)
    ensures r.Failure? ==> reg.locks == old(reg.locks)
    ensures r.Success? ==> name in reg.locks && r.value.mutex == reg.locks[name]
    ensures r.Success? ==> Locks.Extends(old(reg.locks), reg.locks) && reg.locks.Keys == old(reg.locks).Keys + {name}
    ensures r.Success? && name in old(reg.locks) ==> r.value.mutex == old(reg.locks)[name]
  {
    match Find(name, listing)
    case Failure(e) =>
      r := Failure(e);
    case Success(session) =>
      var mutex := reg.Acquire(name);
      r := Success(Screen(session.name, mutex, session.pid));
  }

  // ---------------------------------------------------------------------
  // GetAll: one session per line between the first and the last

  /**
   * One listing line, as `GetAll` reads it: its first field split at dots,
   * the pid from the first piece and the name from the second. `None` is the
   * index-out-of-range panic of a blank line or a first field without a dot.
   */
  function ParseEntry(line: string): Option<Session> {
    var fields := Fields(line);
    if |fields| == 0 then None
    else
      var nameAndPid := Split(fields[0], '.');
      if |nameAndPid| < 2 then None
      else Some(Session(nameAndPid[1], Atoi(nameAndPid[0])))
  }

  /**
   * A line yields a session exactly when it has a first field holding a dot;
   * the pid is then read from the text before the first dot, and the name
   * is the text between the first dot and the next one (or the end).
   */
  lemma ParseEntrySegments(line: string)
    ensures ParseEntry(line).Some? <==> !IsBlank(line) && '.' in Fields(line)[0]
    ensures ParseEntry(line).Some? ==>
      var field := Fields(line)[0];
      var dot := IndexOf(field, '.');
      var after := field[dot + 1..];
      ParseEntry(line).value.pid == Atoi(field[..dot]) &&
      ParseEntry(line).value.name == after[..IndexOf(after, '.')]
  {
    var fields := Fields(line);
    if |fields| > 0 {
      SplitHead(fields[0], '.');
      var dot := IndexOf(fields[0], '.');
      if dot < |fields[0]| {
        SplitHead(fields[0][dot + 1..], '.');
      }
    }
  }

  /**
   * `parse` applied to consecutive lines, stopping at the first line it
   * refuses; `Failure(k)` says that was line `k`.
   */
  function ParseEach<T>(lines: seq<string>, parse: string -> Option<T>): Result<seq<T>, nat>
    decreases |lines|
  {
    if |lines| == 0 then Success([])
    else match ParseEach(lines[..|lines| - 1], parse)
      case Failure(k) => Failure(k)
      case Success(items) =>
        match parse(lines[|lines| - 1])
        case None => Failure(|lines| - 1)
        case Some(item) => Success(items + [item])
  }

  /**
   * Lines parse as a whole exactly when each one does; the result is then
   * one item per line, in order, and otherwise the first line that does not
   * parse is where it stops.
   */
  lemma {:induction false} ParseEachLineByLine<T>(lines: seq<string>, parse: string -> Option<T>)
    ensures ParseEach(lines, parse).Success? <==> forall k | 0 <= k < |lines| :: parse(lines[k]).Some?
    ensures ParseEach(lines, parse).Success? ==>
      |ParseEach(lines, parse).value| == |lines| &&
      forall k | 0 <= k < |lines| :: ParseEach(lines, parse).value[k] == parse(lines[k]).value
    ensures ParseEach(lines, parse).Failure? ==>
      var k := ParseEach(lines, parse).error;
      k < |lines| && parse(lines[k]).None? && forall j | 0 <= j < k :: parse(lines[j]).Some?
    decreases |lines|
  {
    if |lines| > 0 {
      var init := lines[..|lines| - 1];
      ParseEachLineByLine(init, parse);
      assert forall k | 0 <= k < |init| :: init[k] == lines[k];
    }
  }

  /** The lines strictly between the first and the last. */
  function InnerLines(lines: seq<string>): (inner: seq<string>)
    ensures |inner| == if |lines| < 2 then 0 else |lines| - 2
    ensures forall k | 0 <= k < |inner| :: inner[k] == lines[k + 1]
  {
    if |lines| < 2 then [] else lines[1..|lines| - 1]
  }

  /**
   * The walk `GetAll` makes over a listing, for any line parser: nothing
   * when the "no sockets" phrase appears, otherwise the parsed inner lines;
   * `Failure(i)` names the line `i` of the listing that does not parse.
   */
  function ParseLines<T>(listing: string, parse: string -> Option<T>): Result<seq<T>, nat> {
    if Contains(listing, NoSockets) then Success([])
    else match ParseEach(InnerLines(Split(listing, '\n')), parse)
      case Failure(k) => Failure(k + 1)
      case Success(items) => Success(items)
  }

  /** `GetAll` on the listing `screen -ls` printed, before the locks are attached. */
  function ParseListing(listing: string): Result<seq<Session>, nat> {
    ParseLines(listing, ParseEntry)
  }

  /**
   * Without the "no sockets" phrase, a listing that parses yields one item
   * per line strictly between the first and the last, in order.
   */
  lemma ParseLinesPerLine<T>(listing: string, parse: string -> Option<T>)
    requires !Contains(listing, NoSockets) && ParseLines(listing, parse).Success?
    ensures var lines := Split(listing, '\n');
      |ParseLines(listing, parse).value| == (if |lines| < 2 then 0 else |lines| - 2) &&
      forall k | 0 <= k < |ParseLines(listing, parse).value| ::
        parse(lines[k + 1]).Some? && ParseLines(listing, parse).value[k] == parse(lines[k + 1]).value
  {
    var lines := Split(listing, '\n');
    var inner := InnerLines(lines);
    ParseEachLineByLine(inner, parse);
    var parsed := ParseEach(inner, parse);
    assert ParseLines(listing, parse) == parsed;
    forall k | 0 <= k < |parsed.value|
      ensures parse(lines[k + 1]).Some? && parsed.value[k] == parse(lines[k + 1]).value
    {
      assert inner[k] == lines[k + 1];
    }
  }

  /**
   * Without the "no sockets" phrase, a listing that does not parse stops at
   * the first line strictly between the first and the last that does not.
   */
  lemma ParseLinesStopsAtFirstBadLine<T>(listing: string, parse: string -> Option<T>)
    requires !Contains(listing, NoSockets) && ParseLines(listing, parse).Failure?
    ensures var lines := Split(listing, '\n');
      var i := ParseLines(listing, parse).error;
      1 <= i < |lines| - 1 && parse(lines[i]).None? &&
      forall j | 1 <= j < i :: parse(lines[j]).Some?
  {
    var lines := Split(listing, '\n');
    var inner := InnerLines(lines);
    ParseEachLineByLine(inner, parse);
    var parsed := ParseEach(inner, parse);
    assert ParseLines(listing, parse) == Failure(parsed.error + 1);
    var i := parsed.error + 1;
    forall j | 1 <= j < i ensures parse(lines[j]).Some? {
      assert lines[j] == inner[j - 1];
    }
  }

  /** A failing line after lines that all parse is where `ParseEach` stops. */
  lemma ParseEachStopsAt<T>(lines: seq<string>, parse: string -> Option<T>, k: nat)
    requires k < |lines| && parse(lines[k]).None?
    requires forall j | 0 <= j < k :: parse(lines[j]).Some?
    ensures ParseEach(lines, parse) == Failure(k)
  {
    ParseEachLineByLine(lines, parse);
    var e := ParseEach(lines, parse).error;
    assert !(e < k) by { assert parse(lines[e]).None?; }
    assert !(e > k) by { assert parse(lines[k]).None?; }
  }

  /** The sentinel phrase gives an empty list, not an error. */
  lemma ParseListingNoSockets(listing: string)
    requires Contains(listing, NoSockets)
    ensures ParseListing(listing) == Success([])
  {
  }

  function NamesOf(sessions: seq<Session>): set<string> {
    set s | s in sessions :: s.name
  }

  lemma NamesOfAppend(sessions: seq<Session>, s: Session)
    ensures NamesOf(sessions + [s]) == NamesOf(sessions) + {s.name}
  {
  }

  /** The failing line `i` of the walk in `GetAll` is where the listing's parse stops. */
  lemma GetAllStopsAt(lines: seq<string>, i: nat, sessions: seq<Session>)
    requires 1 <= i < |lines| - 1 && ParseEntry(lines[i]).None?
    requires ParseEach(InnerLines(lines)[..i - 1], ParseEntry) == Success(sessions)
    ensures ParseEach(InnerLines(lines), ParseEntry) == Failure(i - 1)
  {
    var inner := InnerLines(lines);
    ParseEachLineByLine(inner[..i - 1], ParseEntry);
    forall j | 0 <= j < i - 1 ensures ParseEntry(inner[j]).Some? {
      assert inner[..i - 1][j] == inner[j];
    }
    ParseEachStopsAt(inner, ParseEntry, i - 1);
  }

  /** One more line that parses extends the parsed prefix by its item. */
  lemma ParseEachExtend<T>(lines: seq<string>, parse: string -> Option<T>, n: nat, items: seq<T>)
    requires n < |lines| && ParseEach(lines[..n], parse) == Success(items) && parse(lines[n]).Some?
    ensures ParseEach(lines[..n + 1], parse) == Success(items + [parse(lines[n]).value])
  {
    assert lines[..n + 1][..n] == lines[..n];
  }

  /**
   * The body of `GetAll`'s loop for one line: parse it (`None` is the
   * panic) and attach the registry's lock for the name.
   */
  method AttachEntry(reg: Locks.Registry, line: string) returns (r: Option<Screen>)
    modifies reg
    ensures r.None? <==> ParseEntry(line).None?
    ensures r.None? ==> reg.locks == old(reg.locks)
    ensures r.Some? ==> Forget(r.value) == ParseEntry(line).value
    ensures r.Some? ==> r.value.name in reg.locks && r.value.mutex == reg.locks[r.value.name]
    ensures r.Some? ==> Locks.Extends(old(reg.locks), reg.locks)
    ensures r.Some? ==> reg.locks.Keys == old(reg.locks).Keys + {r.value.name}
  {
    var fields := Fields(line);
    if |fields| == 0 {
      return None;
    }
    var nameAndPid := Split(fields[0], '.');
    if |nameAndPid| < 2 {
      return None;
    }
    var mutex := reg.Acquire(nameAndPid[1]);
    return Some(Screen(nameAndPid[1], mutex, Atoi(nameAndPid[0])));
  }

  /** Each screen is its session, holding the lock `locks` has for its name. */
  predicate Attached(screens: seq<Screen>, sessions: seq<Session>, locks: map<string, Locks.Lock>) {
    |screens| == |sessions| &&
    forall k | 0 <= k < |screens| ::
      Forget(screens[k]) == sessions[k] && screens[k].name in locks && screens[k].mutex == locks[screens[k].name]
  }

  /** A registry that keeps its entries keeps the screens attached; one more attached screen extends them. */
  lemma AttachedExtend(screens: seq<Screen>, sessions: seq<Session>, locks0: map<string, Locks.Lock>,
                       locks1: map<string, Locks.Lock>, s: Screen)
    requires Attached(screens, sessions, locks0) && Locks.Extends(locks0, locks1)
    requires s.name in locks1 && s.mutex == locks1[s.name]
    ensures Attached(screens + [s], sessions + [Forget(s)], locks1)
  {
  }

  /** One more parsed line keeps the loop of `AttachLines` in step with `ParseEach` and the registry. */
  lemma AttachStep(inner: seq<string>, n: nat, sessions: seq<Session>, res: seq<Screen>,
                   locks0: map<string, Locks.Lock>, before: map<string, Locks.Lock>,
                   after: map<string, Locks.Lock>, s: Screen)
    requires n < |inner| && ParseEach(inner[..n], ParseEntry) == Success(sessions)
    requires ParseEntry(inner[n]) == Some(Forget(s))
    requires Attached(res, sessions, before) && Locks.Extends(locks0, before)
    requires before.Keys == locks0.Keys + NamesOf(sessions)
    requires Locks.Extends(before, after) && s.name in after && s.mutex == after[s.name]
    requires after.Keys == before.Keys + {s.name}
    ensures ParseEach(inner[..n + 1], ParseEntry) == Success(sessions + [Forget(s)])
    ensures Attached(res + [s], sessions + [Forget(s)], after)
    ensures Locks.Extends(locks0, after)
    ensures after.Keys == locks0.Keys + NamesOf(sessions + [Forget(s)])
  {
    ParseEachExtend(inner, ParseEntry, n, sessions);
    AttachedExtend(res, sessions, before, after, s);
    NamesOfAppend(sessions, Forget(s));
  }

  /**
   * The loop of `GetAll()` over the lines of the listing: each line strictly
   * between the first and the last is parsed and given the registry's lock
   * for its name, in order; `Failure(i)` is the panic at line `i`.
   */
  method AttachLines(reg: Locks.Registry, parsed: seq<string>) returns (r: Result<seq<Screen>, nat>)
    modifies reg
    ensures r.Failure? <==> ParseEach(InnerLines(parsed), ParseEntry).Failure?
    ensures r.Failure? ==> r.error == ParseEach(InnerLines(parsed), ParseEntry).error + 1
    ensures r.Success? ==> Attached(r.value, ParseEach(InnerLines(parsed), ParseEntry).value, reg.locks)
    ensures Locks.Extends(old(reg.locks), reg.locks)
    ensures r.Success? ==>
      reg.locks.Keys == old(reg.locks).Keys + NamesOf(ParseEach(InnerLines(parsed), ParseEntry).value)
  {
    ghost var inner := InnerLines(parsed);
    var res: seq<Screen> := [];
    ghost var sessions: seq<Session> := [];
    var i := 1;
    while i < |parsed| - 1
      invariant 1 <= i && i - 1 <= |inner|
      invariant ParseEach(inner[..i - 1], ParseEntry) == Success(sessions)
      invariant |sessions| == i - 1 && Attached(res, sessions, reg.locks)
      invariant Locks.Extends(old(reg.locks), reg.locks)
      invariant reg.locks.Keys == old(reg.locks).Keys + NamesOf(sessions)
    {
      assert inner[i - 1] == parsed[i];
      ghost var before := reg.locks;
      var entry := AttachEntry(reg, parsed[i]);
      if entry.None? {
        GetAllStopsAt(parsed, i, sessions);
        return Failure(i);
      }
      var s := entry.value;
      AttachStep(inner, i - 1, sessions, res, old(reg.locks), before, reg.locks, s);
      res := res + [s];
      sessions := sessions + [Forget(s)];
      i := i + 1;
    }
    assert inner[..i - 1] == inner;
    return Success(res);
  }

  /**
   * `GetAll()`: nothing when the listing says there are no sockets;
   * otherwise the inner lines of the listing, parsed in order, each with
   * the registry's lock for its name.
   */
  method GetAll(reg: Locks.Registry, listing: string) returns (r: Result<seq<Screen>, nat>)
    modifies reg
    ensures r.Failure? <==> ParseListing(listing).Failure?
    ensures r.Failure? ==> r.error == ParseListing(listing).error
    ensures r.Success? ==>
      var sessions := ParseListing(listing).value;
      |r.value| == |sessions| &&
      forall k | 0 <= k < |sessions| ::
        Forget(r.value[k]) == sessions[k] &&
        r.value[k].name in reg.locks && r.value[k].mutex == reg.locks[r.value[k].name]
    ensures Locks.Extends(old(reg.locks), reg.locks)
    ensures r.Success? ==>
      reg.locks.Keys == old(reg.locks).Keys + NamesOf(ParseListing(listing).value)
  {
    if Contains(listing, NoSockets) {
      return Success([]);
    }
    var parsed := Split(listing, '\n');
    r := AttachLines(reg, parsed);
  }
}
