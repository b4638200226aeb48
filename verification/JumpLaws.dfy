/** How far break and continue go: a command deep inside others, and what is skipped around it. */
module JumpLaws {
  import opened Commands
  import opened Options

  // ----- a command inside others -----

  /** One command around another. Rounds and Words are bodies of loops, seen in the round
      after the first j. */
  datatype Shape =
    | First(conn: Connector, second: Command)
    | Second(conn: Connector, first: Command)
    | Test(yes: Command, no: Command)
    | Branch(test: Command, taken: bool, other: Command)
    | Action(word: string, before: Clauses, patterns: seq<string>, flow: Flow, next: Clauses)
    | Braces
    | Rounds(until: bool, test: Command, j: nat)
    | Words(name: string, j: nat)

  datatype Layer = Layer(invert: bool, shape: Shape)

  predicate IsLoop(l: Layer) { l.shape.Rounds? || l.shape.Words? }

  function Around(x: Shape, c: Command): Body
  {
    match x
    case First(conn, second) => Connect(conn, c, second)
    case Second(conn, first) => Connect(conn, first, c)
    case Test(yes, no) => If(c, yes, no)
    case Branch(test, taken, other) => if taken then If(test, c, other) else If(test, other, c)
    case Action(word, before, patterns, flow, next) => Case(word, Joined(before, Clause(patterns, c, flow, next)))
    case Braces => Group(c)
    case Rounds(until, test, _) => Loop(until, test, c)
    case Words(name, _) => For(name, c)
  }

  function Joined(before: Clauses, k: Clauses): Clauses
  {
    if before.NoClauses? then k else before.(next := Joined(before.next, k))
  }

  predicate NoneMatches(word: string, k: Clauses, log: Log, h: Host)
  {
    k.NoClauses? || (!AnyMatches(word, k.patterns, log, h) && NoneMatches(word, k.next, log, h))
  }

  function Wrap(l: Layer, c: Command): Command { Command(l.invert, false, false, Around(l.shape, c)) }

  /** The command inside all layers, the first one outermost. */
  function Plug(ls: seq<Layer>, c: Command): Command
  {
    if ls == [] then c else Wrap(ls[0], Plug(ls[1..], c))
  }

  function Loops(ls: seq<Layer>): nat
  {
    if ls == [] then 0 else (if IsLoop(ls[0]) then 1 else 0) + Loops(ls[1..])
  }

  // ----- where the run gets to the inner command -----

  /** What a run depends on besides the command. */
  datatype Spot = Spot(g: bool, depth: nat, log: Log, fuel: nat)

  function RunAt(c: Command, s: Spot, h: Host): Result { Run(c, s.g, s.depth, s.log, s.fuel, h) }

  /** The status, the history and the fuel with which round j of a while or until begins. */
  function LoopAt(b: Body, g: bool, depth: nat, status: int, log: Log, fuel: nat, j: nat, h: Host): Option<(int, Log, nat)>
    requires b.Loop? && depth > 0
    decreases j
  {
    if fuel == 0 then None
    else if j == 0 then Some((status, log, fuel))
    else
      var t := Run(b.test, true, depth, log, fuel, h);
      if t.out.Exit? || t.out.Out? || Ends(b.until, t.out.status) then None
      else
        var a := if t.out.Done? then Run(b.action, g, depth, t.log, fuel, h) else t;
        if !Resumes(a.out) then None else LoopAt(b, g, depth, a.out.status, a.log, fuel - 1, j - 1, h)
  }

  /** The words left and the history with which round j of a for begins. */
  function ForAt(b: Body, g: bool, depth: nat, words: seq<string>, log: Log, fuel: nat, j: nat, h: Host)
    : (r: Option<(seq<string>, Log)>)
    requires b.For? && depth > 0
    ensures r.Some? ==> r.value.0 != [] && h.binds(b.name, r.value.0[0], r.value.1)
    decreases j
  {
    if words == [] || !h.binds(b.name, words[0], log) then None
    else if j == 0 then Some((words, log))
    else
      var a := Run(b.action, g, depth, log + [Bound(b.name, words[0])], fuel, h);
      if !Resumes(a.out) then None else ForAt(b, g, depth, words[1..], a.log, fuel, j - 1, h)
  }

  /** Where the run of a layer around c reaches c, if it does: tests run to their end and do
      not end the loop, words can be bound, branches are taken, patterns match. */
  function Enter(l: Layer, c: Command, s: Spot, h: Host): Option<Spot>
  {
    var g := s.g || (h.errexit && l.invert);
    match l.shape
    case First(conn, _) => Some(s.(g := g || conn != Semi))
    case Second(conn, first) =>
      var r := Run(first, g || conn != Semi, s.depth, s.log, s.fuel, h);
      if r.out.Done? && (conn == Semi || (conn == AndAnd) == (r.out.status == 0)) then Some(s.(g := g, log := r.log)) else None
    case Test(_, _) => Some(s.(g := true))
    case Branch(test, taken, _) =>
      var r := Run(test, true, s.depth, s.log, s.fuel, h);
      if r.out.Done? && (r.out.status == 0) == taken then Some(s.(g := g, log := r.log)) else None
    case Action(word, before, patterns, _, _) =>
      if NoneMatches(word, before, s.log, h) && AnyMatches(word, patterns, s.log, h) then Some(s.(g := g)) else None
    case Braces => Some(s.(g := g))
    case Rounds(until, test, j) =>
      var at := LoopAt(Loop(until, test, c), g, s.depth + 1, 0, s.log, s.fuel, j, h);
      if at.None? then None
      else
        var t := Run(test, true, s.depth + 1, at.value.1, at.value.2, h);
        if t.out.Done? && !Ends(until, t.out.status) then Some(Spot(g, s.depth + 1, t.log, at.value.2)) else None
    case Words(name, j) =>
      if !h.identifier(name) then None
      else
        var at := ForAt(For(name, c), g, s.depth + 1, h.words(name, s.log), s.log, s.fuel, j, h);
        if at.None? then None else Some(Spot(g, s.depth + 1, at.value.1 + [Bound(name, at.value.0[0])], s.fuel))
  }

  /** Where the run of all layers around c reaches c. */
  function Arrive(ls: seq<Layer>, c: Command, s: Spot, h: Host): Option<Spot>
  {
    if ls == [] then Some(s)
    else
      var e := Enter(ls[0], Plug(ls[1..], c), s, h);
      if e.None? then None else Arrive(ls[1..], c, e.value, h)
  }

  // ----- what a jump does to one layer -----

  predicate Jumps(o: Outcome) { o.Brk? || o.Cont? }

  lemma {:induction false} LoopFrom(b: Body, g: bool, depth: nat, status: int, log: Log, fuel: nat, j: nat, h: Host)
    requires b.Loop? && depth > 0 && LoopAt(b, g, depth, status, log, fuel, j, h).Some?
    ensures var at := LoopAt(b, g, depth, status, log, fuel, j, h).value;
      at.2 > 0 && RunLoop(b, g, depth, status, log, fuel, h) == RunLoop(b, g, depth, at.0, at.1, at.2, h)
    decreases j
  {
    hide Run;
    if j > 0 {
      var t := Run(b.test, true, depth, log, fuel, h);
      var a := if t.out.Done? then Run(b.action, g, depth, t.log, fuel, h) else t;
      LoopFrom(b, g, depth, a.out.status, a.log, fuel - 1, j - 1, h);
    }
  }

  lemma {:induction false} ForFrom(b: Body, g: bool, depth: nat, status: int, words: seq<string>, log: Log, fuel: nat, j: nat, h: Host)
    returns (last: int)
    requires b.For? && depth > 0 && ForAt(b, g, depth, words, log, fuel, j, h).Some?
    ensures var at := ForAt(b, g, depth, words, log, fuel, j, h).value;
      RunFor(b, g, depth, status, words, log, fuel, h) == RunFor(b, g, depth, last, at.0, at.1, fuel, h)
    decreases j
  {
    hide Run;
    last := status;
    if j > 0 {
      var a := Run(b.action, g, depth, log + [Bound(b.name, words[0])], fuel, h);
      last := ForFrom(b, g, depth, a.out.status, words[1..], a.log, fuel, j - 1, h);
    }
  }

  /** A loop's next round, its body in this one having come to status with that history. */
  function NextRound(l: Layer, c: Command, s: Spot, status: int, log: Log, h: Host): Result
    requires IsLoop(l) && Enter(l, c, s, h).Some?
  {
    var g := s.g || (h.errexit && l.invert);
    if l.shape.Rounds? then
      var b := Loop(l.shape.until, l.shape.test, c);
      var at := LoopAt(b, g, s.depth + 1, 0, s.log, s.fuel, l.shape.j, h).value;
      LoopFrom(b, g, s.depth + 1, 0, s.log, s.fuel, l.shape.j, h);
      RunLoop(b, g, s.depth + 1, status, log, at.2 - 1, h)
    else
      var b := For(l.shape.name, c);
      var at := ForAt(b, g, s.depth + 1, h.words(b.name, s.log), s.log, s.fuel, l.shape.j, h).value;
      RunFor(b, g, s.depth + 1, status, at.0[1..], log, s.fuel, h)
  }

  /** What a layer makes of a jump out of the command inside it. */
  function StepOut(l: Layer, c: Command, s: Spot, a: Result, h: Host): Result
    requires Jumps(a.out) && Enter(l, c, s, h).Some?
  {
    if !IsLoop(l) then a
    else if a.out.n > 1 then a.(out := a.out.(n := a.out.n - 1))
    else if a.out.Brk? then a.(out := Done(a.out.status))
    else NextRound(l, c, s, a.out.status, a.log, h)
  }

  lemma JumpThroughLayer(l: Layer, c: Command, s: Spot, h: Host)
    requires Enter(l, c, s, h).Some? && Jumps(RunAt(c, Enter(l, c, s, h).value, h).out)
    ensures var a := RunAt(c, Enter(l, c, s, h).value, h);
      var r := StepOut(l, c, s, a, h);
      RunAt(Wrap(l, c), s, h) == r.(out := Inverted(l.invert, r.out))
  {
    if l.shape.Rounds? {
      JumpThroughLoop(l, c, s, h);
    } else if l.shape.Words? {
      JumpThroughFor(l, c, s, h);
    } else {
      var g := s.g || (h.errexit && l.invert);
      var b := Around(l.shape, c);
      match l.shape
      case First(_, _) => assert RunBody(b, g, l.invert, s.depth, s.log, s.fuel, h) == RunConnect(b, g, s.depth, s.log, s.fuel, h);
      case Second(_, _) => assert RunBody(b, g, l.invert, s.depth, s.log, s.fuel, h) == RunConnect(b, g, s.depth, s.log, s.fuel, h);
      case Test(_, _) => assert RunBody(b, g, l.invert, s.depth, s.log, s.fuel, h) == RunIf(b, g, s.depth, s.log, s.fuel, h);
      case Branch(_, _, _) => assert RunBody(b, g, l.invert, s.depth, s.log, s.fuel, h) == RunIf(b, g, s.depth, s.log, s.fuel, h);
      case Action(word, before, patterns, flow, next) =>
        var k := Clause(patterns, c, flow, next);
        assert RunBody(b, g, l.invert, s.depth, s.log, s.fuel, h) == RunCase(word, Joined(before, k), g, s.depth, 0, s.log, s.fuel, h);
        PassedClauses(word, before, k, g, s.depth, s.log, s.fuel, h);
        ChosenAction(word, k, g, s.depth, s.log, s.fuel, h);
      case Braces => assert RunBody(b, g, l.invert, s.depth, s.log, s.fuel, h) == Run(c, g, s.depth, s.log, s.fuel, h);
    }
  }

  lemma {:induction false} PassedClauses(word: string, before: Clauses, k: Clauses, g: bool, depth: nat, log: Log, fuel: nat, h: Host)
    requires NoneMatches(word, before, log, h)
    ensures RunCase(word, Joined(before, k), g, depth, 0, log, fuel, h) == RunCase(word, k, g, depth, 0, log, fuel, h)
    decreases before
  {
    hide Run, AnyMatches;
    if before.Clause? {
      PassedClauses(word, before.next, k, g, depth, log, fuel, h);
    }
  }

  lemma ChosenAction(word: string, k: Clauses, g: bool, depth: nat, log: Log, fuel: nat, h: Host)
    requires k.Clause? && AnyMatches(word, k.patterns, log, h) && Jumps(Run(k.action, g, depth, log, fuel, h).out)
    ensures RunCase(word, k, g, depth, 0, log, fuel, h) == Run(k.action, g, depth, log, fuel, h)
  {
    hide Run, AnyMatches;
    assert RunCase(word, k, g, depth, 0, log, fuel, h) == RunActions(word, k, g, depth, log, fuel, h);
  }

  lemma JumpThroughLoop(l: Layer, c: Command, s: Spot, h: Host)
    requires l.shape.Rounds? && Enter(l, c, s, h).Some? && Jumps(RunAt(c, Enter(l, c, s, h).value, h).out)
    ensures var a := RunAt(c, Enter(l, c, s, h).value, h);
      RunBody(Around(l.shape, c), s.g || (h.errexit && l.invert), l.invert, s.depth, s.log, s.fuel, h) == StepOut(l, c, s, a, h)
  {
    var b := Loop(l.shape.until, l.shape.test, c);
    LoopFrom(b, s.g || (h.errexit && l.invert), s.depth + 1, 0, s.log, s.fuel, l.shape.j, h);
  }

  lemma JumpThroughFor(l: Layer, c: Command, s: Spot, h: Host)
    requires l.shape.Words? && Enter(l, c, s, h).Some? && Jumps(RunAt(c, Enter(l, c, s, h).value, h).out)
    ensures var a := RunAt(c, Enter(l, c, s, h).value, h);
      RunBody(Around(l.shape, c), s.g || (h.errexit && l.invert), l.invert, s.depth, s.log, s.fuel, h) == StepOut(l, c, s, a, h)
  {
    var b := For(l.shape.name, c);
    var last := ForFrom(b, s.g || (h.errexit && l.invert), s.depth + 1, 0, h.words(b.name, s.log), s.log, s.fuel, l.shape.j, h);
  }

  // ----- the law -----

  /** The status as the inverted commands on the way out turn it round. */
  function Turned(ls: seq<Layer>, status: int): int
  {
    if ls == [] then status
    else if ls[0].invert then Negated(Turned(ls[1..], status)) else Turned(ls[1..], status)
  }

  /** A jump of n out of fewer than n loops leaves all of them and everything else on the way,
      running nothing more, and has the rest of n still to go. */
  lemma {:induction false} JumpSkips(ls: seq<Layer>, c: Command, s: Spot, h: Host)
    requires Arrive(ls, c, s, h).Some?
    requires var o := RunAt(c, Arrive(ls, c, s, h).value, h).out; Jumps(o) && o.n > Loops(ls)
    ensures var a := RunAt(c, Arrive(ls, c, s, h).value, h);
      RunAt(Plug(ls, c), s, h) == a.(out := a.out.(n := a.out.n - Loops(ls), status := Turned(ls, a.out.status)))
    decreases |ls|
  {
    hide Run, Enter;
    if ls != [] {
      var inner := Plug(ls[1..], c);
      var e := Enter(ls[0], inner, s, h).value;
      JumpSkips(ls[1..], c, e, h);
      JumpThroughLayer(ls[0], inner, s, h);
    }
  }

  /** At the n-th loop the jump stops: break ends that loop and no other, with what was run so
      far; continue goes on with that loop's next round. */
  lemma JumpStops(ls: seq<Layer>, c: Command, s: Spot, h: Host)
    requires ls != [] && IsLoop(ls[0]) && Arrive(ls, c, s, h).Some?
    requires var o := RunAt(c, Arrive(ls, c, s, h).value, h).out; Jumps(o) && o.n == Loops(ls)
    ensures var a := RunAt(c, Arrive(ls, c, s, h).value, h);
      var status := Turned(ls[1..], a.out.status);
      var r := if a.out.Brk? then Result(Done(status), a.log) else NextRound(ls[0], Plug(ls[1..], c), s, status, a.log, h);
      RunAt(Plug(ls, c), s, h) == r.(out := Inverted(ls[0].invert, r.out))
  {
    hide Run, Enter;
    var inner := Plug(ls[1..], c);
    var e := Enter(ls[0], inner, s, h).value;
    JumpSkips(ls[1..], c, e, h);
    JumpThroughLayer(ls[0], inner, s, h);
  }
}
