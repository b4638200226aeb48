/** Shell commands and a structural meaning for them: how loops are left and when `set -e' ends the run. */
module Commands {
  datatype Connector = Semi | AndAnd | OrOr

  /** How a case clause ends: `;;', `;&' or `;;&'. */
  datatype Flow = Stop | FallThrough | TestNext

  /** A command as the parser leaves it. ignore is CMD_IGNORE_RETURN on the command itself,
      inner the same bit on the value it points to. Null is an absent command. */
  datatype Command = Null | Command(invert: bool, ignore: bool, inner: bool, body: Body)

  datatype Body =
    | Simple(name: string)
    | Break(n: int)
    | Continue(n: int)
    | Connect(conn: Connector, first: Command, second: Command)
    | If(test: Command, yes: Command, no: Command)
    | Loop(until: bool, test: Command, action: Command)
    | For(name: string, action: Command)
    | Case(word: string, clauses: Clauses)
    | Group(command: Command)

  datatype Clauses = NoClauses | Clause(patterns: seq<string>, action: Command, flow: Flow, next: Clauses)

  /** Everything that happened: simple commands with their status, and loop variables bound. */
  datatype Event = Ran(body: Body, guarded: bool, status: int) | Bound(name: string, word: string)
  type Log = seq<Event>

  /** What the rest of the shell answers, as functions of all that has happened so far. */
  datatype Host = Host(
    errexit: bool,
    status: (string, Log) -> int,
    identifier: string -> bool,
    words: (string, Log) -> seq<string>,
    binds: (string, string, Log) -> bool,
    matches: (string, string, Log) -> bool)

  /** How a command ends. Brk and Cont have n loops still to leave; Out is a run cut short. */
  datatype Outcome = Done(status: int) | Brk(n: nat, status: int) | Cont(n: nat, status: int) | Exit(status: int) | Out

  datatype Result = Result(out: Outcome, log: Log)

  /** No more loops are left than there are around. */
  predicate Scoped(o: Outcome, depth: nat)
  {
    (o.Brk? || o.Cont?) ==> 1 <= o.n <= depth
  }

  // ----- the parts -----

  function Negated(status: int): int { if status == 0 then 1 else 0 }

  function Inverted(invert: bool, o: Outcome): Outcome
  {
    if !invert || o.Exit? || o.Out? then o else o.(status := Negated(o.status))
  }

  /** What break and continue ask for inside depth loops. */
  function Jump(b: Body, depth: nat): (o: Outcome)
    requires b.Break? || b.Continue?
    ensures Scoped(o, depth)
  {
    if depth == 0 then Done(0)
    else if b.n <= 0 then Brk(depth, 1)
    else
      var n := if b.n > depth then depth else b.n;
      if b.Break? then Brk(n, 0) else Cont(n, 0)
  }

  /** A simple command's outcome; a failure nothing guards ends the run under `set -e'. */
  function Settle(o: Outcome, guarded: bool, h: Host): Outcome
  {
    if h.errexit && !guarded && !o.Exit? && !o.Out? && o.status != 0 then Exit(o.status) else o
  }

  /** One loop is left behind. */
  function Leave(o: Outcome, status: int): Outcome
  {
    match o
    case Brk(n, _) => if n <= 1 then Done(status) else Brk(n - 1, status)
    case Cont(n, _) => if n <= 1 then Done(status) else Cont(n - 1, status)
    case Done(_) => Done(status)
    case _ => o
  }

  /** Whether the loop goes round again after its body. */
  predicate Resumes(o: Outcome) { o.Done? || (o.Cont? && o.n <= 1) }

  predicate Ends(until: bool, status: int) { (status == 0) == until }

  // ----- the meaning -----

  function Run(c: Command, g: bool, depth: nat, log: Log, fuel: nat, h: Host): (r: Result)
    ensures Scoped(r.out, depth)
    decreases fuel, c, 2, 0
  {
    if c.Null? then Result(Done(0), log)
    else
      var r := RunBody(c.body, g || (h.errexit && c.invert), c.invert, depth, log, fuel, h);
      r.(out := Inverted(c.invert, r.out))
  }

  function RunBody(b: Body, g: bool, invert: bool, depth: nat, log: Log, fuel: nat, h: Host): (r: Result)
    ensures Scoped(r.out, depth)
    decreases fuel, b, 2, 0
  {
    match b
    case Simple(name) => RunSimple(b, g || invert, Done(h.status(name, log)), log, h)
    case Break(_) => RunSimple(b, g || invert, Jump(b, depth), log, h)
    case Continue(_) => RunSimple(b, g || invert, Jump(b, depth), log, h)
    case Connect(_, _, _) => RunConnect(b, g, depth, log, fuel, h)
    case If(_, _, _) => RunIf(b, g, depth, log, fuel, h)
    case Loop(_, _, _) => RunLoop(b, g, depth + 1, 0, log, fuel, h)
    case For(name, _) =>
      if !h.identifier(name) then Result(Done(1), log) else RunFor(b, g, depth + 1, 0, h.words(name, log), log, fuel, h)
    case Case(word, clauses) => RunCase(word, clauses, g, depth, 0, log, fuel, h)
    case Group(command) => Run(command, g, depth, log, fuel, h)
  }

  function RunSimple(b: Body, guarded: bool, o: Outcome, log: Log, h: Host): Result
    requires !o.Exit? && !o.Out?
  {
    Result(Settle(o, guarded, h), log + [Ran(b, guarded, o.status)])
  }

  /** The first operand of && and || is guarded. */
  function RunConnect(b: Body, g: bool, depth: nat, log: Log, fuel: nat, h: Host): (r: Result)
    requires b.Connect?
    ensures Scoped(r.out, depth)
    decreases fuel, b, 1, 0
  {
    var r := Run(b.first, g || b.conn != Semi, depth, log, fuel, h);
    if r.out.Done? && (b.conn == Semi || (b.conn == AndAnd) == (r.out.status == 0)) then
      Run(b.second, g, depth, r.log, fuel, h)
    else r
  }

  /** A test is guarded. */
  function RunIf(b: Body, g: bool, depth: nat, log: Log, fuel: nat, h: Host): (r: Result)
    requires b.If?
    ensures Scoped(r.out, depth)
    decreases fuel, b, 1, 0
  {
    var r := Run(b.test, true, depth, log, fuel, h);
    if !r.out.Done? then r else Run(if r.out.status == 0 then b.yes else b.no, g, depth, r.log, fuel, h)
  }

  /** Rounds of while and until, the last body having ended with status; depth counts this loop.
      A jump out of the test skips the body, unless the test's status ends the loop. */
  function RunLoop(b: Body, g: bool, depth: nat, status: int, log: Log, fuel: nat, h: Host): (r: Result)
    requires b.Loop? && depth > 0
    ensures Scoped(r.out, depth - 1)
    decreases fuel, b, 1, 0
  {
    if fuel == 0 then Result(Out, log)
    else
      var t := Run(b.test, true, depth, log, fuel, h);
      if t.out.Exit? || t.out.Out? then t
      else if Ends(b.until, t.out.status) then t.(out := Leave(t.out, status))
      else
        var a := if t.out.Done? then Run(b.action, g, depth, t.log, fuel, h) else t;
        if Resumes(a.out) then RunLoop(b, g, depth, a.out.status, a.log, fuel - 1, h) else Left(a)
  }

  /** The result of a loop whose body ended with a. */
  function Left(a: Result): Result
  {
    if a.out.Exit? || a.out.Out? then a else a.(out := Leave(a.out, a.out.status))
  }

  /** Rounds of for over the words that are left. */
  function RunFor(b: Body, g: bool, depth: nat, status: int, words: seq<string>, log: Log, fuel: nat, h: Host): (r: Result)
    requires b.For? && depth > 0
    ensures Scoped(r.out, depth - 1)
    decreases fuel, b, 1, |words|
  {
    if words == [] then Result(Done(status), log)
    else if !h.binds(b.name, words[0], log) then Result(Done(1), log)
    else
      var a := Run(b.action, g, depth, log + [Bound(b.name, words[0])], fuel, h);
      if Resumes(a.out) then RunFor(b, g, depth, a.out.status, words[1..], a.log, fuel, h) else Left(a)
  }

  predicate AnyMatches(word: string, patterns: seq<string>, log: Log, h: Host)
  {
    exists i :: 0 <= i < |patterns| && h.matches(word, patterns[i], log)
  }

  function RunCase(word: string, k: Clauses, g: bool, depth: nat, status: int, log: Log, fuel: nat, h: Host): (r: Result)
    ensures Scoped(r.out, depth)
    decreases fuel, k, 3, 0
  {
    if k.NoClauses? then Result(Done(status), log)
    else if !AnyMatches(word, k.patterns, log, h) then RunCase(word, k.next, g, depth, status, log, fuel, h)
    else RunActions(word, k, g, depth, log, fuel, h)
  }

  /** The action of a clause that was matched or fallen into, and what follows it. */
  function RunActions(word: string, k: Clauses, g: bool, depth: nat, log: Log, fuel: nat, h: Host): (r: Result)
    requires k.Clause?
    ensures Scoped(r.out, depth)
    decreases fuel, k, 2, 0
  {
    var r := Run(k.action, g, depth, log, fuel, h);
    if !r.out.Done? || k.flow == Stop then r
    else if k.flow == TestNext then RunCase(word, k.next, g, depth, r.out.status, r.log, fuel, h)
    else if k.next.NoClauses? then r
    else RunActions(word, k.next, g, depth, r.log, fuel, h)
  }
}
