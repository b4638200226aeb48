/** The command interpreter: jump counters in globals, CMD_IGNORE_RETURN bits set on the tree. */
module Shell {
  import opened Commands

  // ----- the bits on the tree -----

  /** The tree with every bit clear, as it was parsed. */
  function Erase(c: Command): Command
  {
    if c.Null? then Null else Command(c.invert, false, false, EraseBody(c.body))
  }

  function EraseBody(b: Body): Body
  {
    match b
    case Simple(_) => b
    case Break(_) => b
    case Continue(_) => b
    case Connect(conn, first, second) => Connect(conn, Erase(first), Erase(second))
    case If(test, yes, no) => If(Erase(test), Erase(yes), Erase(no))
    case Loop(until, test, action) => Loop(until, Erase(test), Erase(action))
    case For(name, action) => For(name, Erase(action))
    case Case(word, clauses) => Case(word, EraseClauses(clauses))
    case Group(command) => Group(Erase(command))
  }

  function EraseClauses(k: Clauses): Clauses
  {
    if k.NoClauses? then k else Clause(k.patterns, Erase(k.action), k.flow, EraseClauses(k.next))
  }

  /** Bits are set only where the command is guarded: in context g, or by its own position. */
  predicate Sound(c: Command, g: bool, e: bool)
  {
    c.Null? ||
    var g1 := g || (e && c.invert);
    (c.ignore ==> g1) && (c.inner ==> g1) && SoundBody(c.body, g1, e)
  }

  predicate SoundBody(b: Body, g: bool, e: bool)
  {
    match b
    case Simple(_) => true
    case Break(_) => true
    case Continue(_) => true
    case Connect(conn, first, second) => Sound(first, g || conn != Semi, e) && Sound(second, g, e)
    case If(test, yes, no) => Sound(test, true, e) && Sound(yes, g, e) && Sound(no, g, e)
    case Loop(_, test, action) => Sound(test, true, e) && Sound(action, g, e)
    case For(_, action) => Sound(action, g, e)
    case Case(_, clauses) => SoundClauses(clauses, g, e)
    case Group(command) => Sound(command, g, e)
  }

  predicate SoundClauses(k: Clauses, g: bool, e: bool)
  {
    k.NoClauses? || (Sound(k.action, g, e) && SoundClauses(k.next, g, e))
  }

  lemma {:induction false} ErasedIsSound(c: Command, g: bool, e: bool)
    ensures Sound(Erase(c), g, e)
    decreases c
  {
    if c.Command? {
      ErasedBodyIsSound(c.body, g || (e && c.invert), e);
    }
  }

  lemma {:induction false} ErasedBodyIsSound(b: Body, g: bool, e: bool)
    ensures SoundBody(EraseBody(b), g, e)
    decreases b
  {
    match b
    case Simple(_) =>
    case Break(_) =>
    case Continue(_) =>
    case Connect(conn, first, second) => ErasedIsSound(first, g || conn != Semi, e); ErasedIsSound(second, g, e);
    case If(test, yes, no) => ErasedIsSound(test, true, e); ErasedIsSound(yes, g, e); ErasedIsSound(no, g, e);
    case Loop(_, test, action) => ErasedIsSound(test, true, e); ErasedIsSound(action, g, e);
    case For(_, action) => ErasedIsSound(action, g, e);
    case Case(_, clauses) => ErasedClausesAreSound(clauses, g, e);
    case Group(command) => ErasedIsSound(command, g, e);
  }

  lemma {:induction false} ErasedClausesAreSound(k: Clauses, g: bool, e: bool)
    ensures SoundClauses(EraseClauses(k), g, e)
    decreases k
  {
    if k.Clause? {
      ErasedIsSound(k.action, g, e);
      ErasedClausesAreSound(k.next, g, e);
    }
  }

  /** Set the bit on a command that exists. */
  function Mark(c: Command): (d: Command)
    ensures Erase(d) == Erase(c)
  {
    if c.Null? then c else c.(ignore := true)
  }

  function MarkIf(g: bool, c: Command): (d: Command)
    ensures Erase(d) == Erase(c)
  {
    if g then Mark(c) else c
  }

  lemma MarkSound(g: bool, c: Command, e: bool)
    requires Sound(c, g, e)
    ensures Sound(MarkIf(g, c), g, e) && Ready(MarkIf(g, c), g)
  {
  }

  /** A guarded command carries its bit before it is run. */
  predicate Ready(c: Command, g: bool) { c.Command? && g ==> c.ignore }

  // ----- the interpreter -----

  /** What a call returns: a status, or no return because of a jump to the top level. */
  datatype Status = Finished(status: int) | Exited(status: int) | Spent

  class Interpreter {
    const h: Host
    var breaking: nat
    var continuing: nat
    var loopLevel: nat
    var last: int
    var log: Log

    constructor (h: Host)
      ensures this.h == h && Valid() && Calm() && loopLevel == 0 && log == []
    {
      this.h := h;
      breaking, continuing, loopLevel, last, log := 0, 0, 0, 0, [];
    }

    predicate Calm()
      reads this
    {
      breaking == 0 && continuing == 0
    }

    /** At most one jump is under way, and it leaves no more loops than there are; so none
        is pending outside all loops. */
    predicate Valid()
      reads this
      ensures Valid() && loopLevel == 0 ==> Calm()
    {
      Fits(loopLevel)
    }

    predicate Fits(level: int)
      reads this
    {
      (breaking == 0 || continuing == 0) && breaking <= level && continuing <= level
    }

    /** The counters, the log and the returned status show the structural result. */
    predicate Shows(r: Result, s: Status)
      reads this
    {
      && log == r.log
      && match r.out
         case Done(st) => s == Finished(st) && Calm()
         case Brk(n, st) => s == Finished(st) && breaking == n && continuing == 0
         case Cont(n, st) => s == Finished(st) && continuing == n && breaking == 0
         case Exit(st) => s == Exited(st)
         case Out => s == Spent
    }

    method Execute(c: Command, ghost g: bool, fuel: nat) returns (s: Status, d: Command)
      requires Valid() && Sound(c, g, h.errexit) && Ready(c, g)
      modifies this
      ensures Erase(d) == Erase(c) && Sound(d, g, h.errexit) && Ready(d, g)
      ensures s.Finished? ==> Valid() && loopLevel == old(loopLevel)
      ensures !old(Calm()) ==> s == Finished(last) && unchanged(this)
      ensures old(Calm()) ==> Shows(Run(Erase(c), g, old(loopLevel), old(log), fuel, h), s)
      ensures s.Finished? && !Calm() ==> last == s.status
      decreases fuel, Erase(c), 3
    {
      hide RunBody, SoundBody, EraseBody;
      if breaking > 0 || continuing > 0 {
        return Finished(last), c;
      }
      if c.Null? {
        return Finished(0), c;
      }
      d := if h.errexit && c.invert then c.(ignore := true) else c;
      if !d.body.Connect? && !d.body.Group? {
        d := d.(inner := d.inner || d.ignore);
      }
      var body;
      s, body := Dispatch(d.body, d.ignore, d.inner, d.invert, fuel);
      d := d.(body := body);
      if s.Finished? {
        if d.invert {
          s := Finished(Negated(s.status));
        }
        last := s.status;
      }
    }

    /** A whole command line, with no loop around it: afterwards no jump is pending. */
    method RunTop(c: Command, fuel: nat) returns (s: Status, d: Command)
      requires Valid() && loopLevel == 0 && Sound(c, false, h.errexit)
      modifies this
      ensures Erase(d) == Erase(c) && Sound(d, false, h.errexit)
      ensures Shows(Run(Erase(c), false, 0, old(log), fuel, h), s)
      ensures s.Finished? ==> loopLevel == 0 && Calm() && Valid()
    {
      s, d := Execute(c, false, fuel);
    }

    /** A tree that has been run, bits and all, ends a second run from the same point in the
        same way, with the same commands run on the way. */
    method RunAgain(c: Command, fuel: nat) returns (s: Status, again: Status, history: Log)
      requires Valid() && loopLevel == 0 && Sound(c, false, h.errexit)
      modifies this
      ensures again == s && Shows(Run(Erase(c), false, 0, old(log), fuel, h), s) && history == log
    {
      var second := new Interpreter(h);
      second.log := log;
      var d;
      s, d := RunTop(c, fuel);
      again, d := second.RunTop(d, fuel);
      history := second.log;
    }

    /** The switch on the command's type. */
    method Dispatch(b: Body, ignore: bool, inner: bool, invert: bool, fuel: nat) returns (s: Status, nb: Body)
      requires Valid() && Calm() && SoundBody(b, ignore, h.errexit)
      requires !b.Connect? && !b.Group? ==> inner == ignore
      modifies this
      ensures EraseBody(nb) == EraseBody(b) && SoundBody(nb, ignore, h.errexit)
      ensures s.Finished? ==> Valid() && loopLevel == old(loopLevel)
      ensures Shows(RunBody(EraseBody(b), ignore, invert, old(loopLevel), old(log), fuel, h), s)
      decreases fuel, EraseBody(b), 2
    {
      hide Run, RunConnect, RunIf, RunLoop, RunFor, RunCase, RunSimple, Jump, Sound, SoundBody, EraseClauses, Erase,
        Interpreter.Shows, Interpreter.Valid, Interpreter.Calm;
      nb := b;
      match b {
        case Simple(_) => s := ExecuteSimple(b, ignore || invert);
        case Break(_) => s := ExecuteSimple(b, ignore || invert);
        case Continue(_) => s := ExecuteSimple(b, ignore || invert);
        case Connect(_, _, _) => s, nb := ExecuteConnection(b, ignore, fuel);
        case If(_, _, _) => s, nb := ExecuteIf(b, inner, fuel);
        case Loop(_, _, _) => s, nb := ExecuteWhileOrUntil(b, inner, fuel);
        case For(_, _) => s, nb := ExecuteFor(b, inner, fuel);
        case Case(_, _) => s, nb := ExecuteCaseCommand(b, inner, fuel);
        case Group(_) => s, nb := ExecuteGroup(b, ignore, fuel);
      }
    }

    /** A simple command; break and continue set the counters. */
    method ExecuteSimple(b: Body, guarded: bool) returns (s: Status)
      requires Valid() && Calm() && (b.Simple? || b.Break? || b.Continue?)
      modifies this
      ensures s.Finished? ==> Valid()
      ensures loopLevel == old(loopLevel)
      ensures Shows(RunSimple(b, guarded, if b.Simple? then Done(h.status(b.name, old(log))) else Jump(b, loopLevel), old(log), h), s)
    {
      var result := 0;
      if b.Simple? {
        result := h.status(b.name, log);
      } else if loopLevel > 0 {
        if b.n <= 0 {
          breaking, result := loopLevel, 1;
        } else {
          var n := if b.n > loopLevel then loopLevel else b.n;
          if b.Break? {
            breaking := n;
          } else {
            continuing := n;
          }
        }
      }
      log := log + [Ran(b, guarded, result)];
      s := if !guarded && h.errexit && result != 0 then Exited(result) else Finished(result);
    }

    method ExecuteConnection(b: Body, g: bool, fuel: nat) returns (s: Status, nb: Body)
      requires Valid() && Calm() && b.Connect? && SoundBody(b, g, h.errexit)
      modifies this
      ensures EraseBody(nb) == EraseBody(b) && SoundBody(nb, g, h.errexit)
      ensures s.Finished? ==> Valid() && loopLevel == old(loopLevel)
      ensures Shows(RunConnect(EraseBody(b), g, old(loopLevel), old(log), fuel, h), s)
      decreases fuel, EraseBody(b), 1
    {
      hide Run, Erase, Sound, Ready;
      var first, second := b.first, b.second;
      MarkSound(g || b.conn != Semi, first, h.errexit);
      MarkSound(g, second, h.errexit);
      if b.conn == Semi {
        first, second := MarkIf(g, first), MarkIf(g, second);
        s, first := Execute(first, g, fuel);
        if s.Finished? {
          s, second := Execute(second, g, fuel);
        }
      } else {
        first := Mark(first);
        s, first := Execute(first, true, fuel);
        if s.Finished? && ((b.conn == AndAnd && s.status == 0) || (b.conn == OrOr && s.status != 0)) {
          second := MarkIf(g, second);
          s, second := Execute(second, g, fuel);
        }
      }
      nb := Connect(b.conn, first, second);
    }

    method ExecuteIf(b: Body, g: bool, fuel: nat) returns (s: Status, nb: Body)
      requires Valid() && Calm() && b.If? && SoundBody(b, g, h.errexit)
      modifies this
      ensures EraseBody(nb) == EraseBody(b) && SoundBody(nb, g, h.errexit)
      ensures s.Finished? ==> Valid() && loopLevel == old(loopLevel)
      ensures Shows(RunIf(EraseBody(b), g, old(loopLevel), old(log), fuel, h), s)
      decreases fuel, EraseBody(b), 1
    {
      hide Run, Erase, Sound, Ready;
      var test, yes, no := Mark(b.test), b.yes, b.no;
      MarkSound(true, b.test, h.errexit);
      MarkSound(g, yes, h.errexit);
      MarkSound(g, no, h.errexit);
      s, test := Execute(test, true, fuel);
      if s.Finished? {
        if s.status == 0 {
          yes := MarkIf(g, yes);
          s, yes := Execute(yes, g, fuel);
        } else {
          no := MarkIf(g, no);
          s, no := Execute(no, g, fuel);
        }
      }
      nb := If(test, yes, no);
    }

    /** After a body: count this loop in a jump, and leave it unless it is to be resumed. */
    method CountLoop(ghost a: Result, s: Status) returns (leave: bool)
      requires Valid() && loopLevel > 0 && s.Finished? && Shows(a, s) && Scoped(a.out, loopLevel)
      modifies `breaking, `continuing
      ensures leave == !Resumes(a.out)
      ensures if leave then Shows(Left(a), s) && Fits(loopLevel - 1) else Calm() && Valid()
    {
      if breaking > 0 {
        breaking := breaking - 1;
        return true;
      }
      if continuing > 0 {
        continuing := continuing - 1;
        return continuing > 0;
      }
      return false;
    }

    /** After a test that ends the loop: count this loop in a jump out of the test. */
    method CountTest(ghost t: Result, s: Status, bodyStatus: int)
      requires Valid() && loopLevel > 0 && s.Finished? && Shows(t, s)
      modifies `breaking, `continuing
      ensures Shows(t.(out := Leave(t.out, bodyStatus)), Finished(bodyStatus)) && Fits(loopLevel - 1)
    {
      if breaking > 0 {
        breaking := breaking - 1;
      }
      if continuing > 0 {
        continuing := continuing - 1;
      }
    }

    /** One turn of while or until: the test and, unless it ends the loop, the body. */
    method Round(b: Body, test0: Command, action0: Command, g: bool, bodyStatus: int, left: nat, ghost goal: Result)
      returns (s: Status, test: Command, action: Command, status: int, leave: bool)
      requires Valid() && Calm() && loopLevel > 0 && left > 0 && b.Loop?
      requires Sound(test0, true, h.errexit) && Ready(test0, true) && Sound(action0, g, h.errexit) && Ready(action0, g)
      requires goal == RunLoop(Loop(b.until, Erase(test0), Erase(action0)), g, loopLevel, bodyStatus, log, left, h)
      modifies this
      ensures Erase(test) == Erase(test0) && Sound(test, true, h.errexit) && Ready(test, true)
      ensures Erase(action) == Erase(action0) && Sound(action, g, h.errexit) && Ready(action, g)
      ensures !s.Finished? ==> Shows(goal, s)
      ensures s.Finished? ==> loopLevel == old(loopLevel)
      ensures s.Finished? && leave ==> Shows(goal, Finished(status)) && Fits(loopLevel - 1)
      ensures s.Finished? && !leave ==> Calm() && Valid()
      ensures s.Finished? && !leave ==>
        goal == RunLoop(Loop(b.until, Erase(test0), Erase(action0)), g, loopLevel, status, log, left - 1, h)
      decreases left, Loop(b.until, Erase(test0), Erase(action0)), 0
    {
      hide Run, Erase, Sound, Ready, Leave, Ends;
      action, status, leave := action0, bodyStatus, true;
      ghost var t := Run(Erase(test0), true, loopLevel, log, left, h);
      s, test := Execute(test0, true, left);
      if !s.Finished? {
        return;
      }
      if Ends(b.until, s.status) {
        CountTest(t, s, bodyStatus);
        return;
      }
      ghost var a := if t.out.Done? then Run(Erase(action0), g, loopLevel, log, left, h) else t;
      s, action := Execute(action0, g, left);
      if s.Finished? {
        status := s.status;
        leave := CountLoop(a, s);
      }
    }

    method ExecuteWhileOrUntil(b: Body, g: bool, fuel: nat) returns (s: Status, nb: Body)
      requires Valid() && Calm() && b.Loop? && SoundBody(b, g, h.errexit)
      modifies this
      ensures EraseBody(nb) == EraseBody(b) && SoundBody(nb, g, h.errexit)
      ensures s.Finished? ==> Valid() && loopLevel == old(loopLevel)
      ensures Shows(RunLoop(EraseBody(b), g, old(loopLevel) + 1, 0, old(log), fuel, h), s)
      decreases fuel, EraseBody(b), 1
    {
      hide Run, Erase, Sound, Ready;
      var bodyStatus, leave := 0, false;
      loopLevel := loopLevel + 1;
      MarkSound(true, b.test, h.errexit);
      MarkSound(g, b.action, h.errexit);
      var test, action := Mark(b.test), MarkIf(g, b.action);
      var left: nat := fuel;
      ghost var goal := RunLoop(EraseBody(b), g, loopLevel, 0, log, fuel, h);
      while !leave
        invariant left <= fuel && loopLevel == old(loopLevel) + 1
        invariant Erase(test) == Erase(b.test) && Sound(test, true, h.errexit) && Ready(test, true)
        invariant Erase(action) == Erase(b.action) && Sound(action, g, h.errexit) && Ready(action, g)
        invariant if leave then Shows(goal, Finished(bodyStatus)) && Fits(loopLevel - 1)
                  else Valid() && Calm() && RunLoop(EraseBody(b), g, loopLevel, bodyStatus, log, left, h) == goal
        decreases left, !leave
      {
        if left == 0 {
          return Spent, Loop(b.until, test, action);
        }
        s, test, action, bodyStatus, leave := Round(b, test, action, g, bodyStatus, left, goal);
        if !s.Finished? {
          return s, Loop(b.until, test, action);
        }
        left := left - 1;
      }
      loopLevel := loopLevel - 1;
      return Finished(bodyStatus), Loop(b.until, test, action);
    }

    method ExecuteFor(b: Body, g: bool, fuel: nat) returns (s: Status, nb: Body)
      requires Valid() && Calm() && b.For? && SoundBody(b, g, h.errexit)
      modifies this
      ensures EraseBody(nb) == EraseBody(b) && SoundBody(nb, g, h.errexit)
      ensures s.Finished? ==> Valid() && loopLevel == old(loopLevel)
      ensures Shows(if !h.identifier(b.name) then Result(Done(1), old(log))
                    else RunFor(EraseBody(b), g, old(loopLevel) + 1, 0, h.words(b.name, old(log)), old(log), fuel, h), s)
      decreases fuel, EraseBody(b), 1
    {
      hide Run, Erase, Sound, Ready, Leave;
      if !h.identifier(b.name) {
        return Finished(1), b;
      }
      loopLevel := loopLevel + 1;
      var words := h.words(b.name, log);
      MarkSound(g, b.action, h.errexit);
      var action := MarkIf(g, b.action);
      ghost var eb := EraseBody(b);
      ghost var goal := RunFor(eb, g, loopLevel, 0, words, log, fuel, h);
      var retval := 0;
      while words != []
        invariant Valid() && Calm() && loopLevel == old(loopLevel) + 1
        invariant Erase(action) == eb.action && Sound(action, g, h.errexit) && Ready(action, g)
        invariant RunFor(eb, g, loopLevel, retval, words, log, fuel, h) == goal
        decreases |words|
      {
        nb := For(b.name, action);
        if !h.binds(b.name, words[0], log) {
          loopLevel := loopLevel - 1;
          return Finished(1), nb;
        }
        log := log + [Bound(b.name, words[0])];
        ghost var a := Run(eb.action, g, loopLevel, log, fuel, h);
        s, action := Execute(action, g, fuel);
        nb := For(b.name, action);
        if !s.Finished? {
          return;
        }
        retval := s.status;
        var leave := CountLoop(a, s);
        if leave {
          break;
        }
        words := words[1..];
      }
      loopLevel := loopLevel - 1;
      nb := For(b.name, action);
      s := Finished(retval);
    }

    method ExecuteGroup(b: Body, g: bool, fuel: nat) returns (s: Status, nb: Body)
      requires Valid() && Calm() && b.Group? && SoundBody(b, g, h.errexit)
      modifies this
      ensures EraseBody(nb) == EraseBody(b) && SoundBody(nb, g, h.errexit)
      ensures s.Finished? ==> Valid() && loopLevel == old(loopLevel)
      ensures Shows(Run(EraseBody(b).command, g, old(loopLevel), old(log), fuel, h), s)
      decreases fuel, EraseBody(b), 1
    {
      hide Run, Erase, Sound, Ready;
      MarkSound(g, b.command, h.errexit);
      var command := MarkIf(g, b.command);
      s, command := Execute(command, g, fuel);
      nb := Group(command);
    }

    method ExecuteCaseCommand(b: Body, g: bool, fuel: nat) returns (s: Status, nb: Body)
      requires Valid() && Calm() && b.Case? && SoundBody(b, g, h.errexit)
      modifies this
      ensures EraseBody(nb) == EraseBody(b) && SoundBody(nb, g, h.errexit)
      ensures s.Finished? ==> Valid() && loopLevel == old(loopLevel)
      ensures Shows(RunCase(b.word, EraseBody(b).clauses, g, old(loopLevel), 0, old(log), fuel, h), s)
      decreases fuel, EraseBody(b), 1
    {
      hide RunCase, EraseClauses, SoundClauses;
      var clauses;
      s, clauses := ExecuteCase(b.word, b.clauses, g, 0, fuel);
      nb := Case(b.word, clauses);
    }

    /** The clauses from k on, retval being the status so far. */
    method ExecuteCase(word: string, k: Clauses, g: bool, retval: int, fuel: nat) returns (s: Status, nk: Clauses)
      requires Valid() && SoundClauses(k, g, h.errexit) && (!Calm() ==> retval == last)
      modifies this
      ensures EraseClauses(nk) == EraseClauses(k) && SoundClauses(nk, g, h.errexit)
      ensures s.Finished? ==> Valid() && loopLevel == old(loopLevel)
      ensures !old(Calm()) ==> s == Finished(last) && unchanged(this)
      ensures old(Calm()) ==> Shows(RunCase(word, EraseClauses(k), g, old(loopLevel), retval, old(log), fuel, h), s)
      decreases fuel, EraseClauses(k), 3
    {
      hide Run;
      if k.NoClauses? {
        return Finished(retval), k;
      }
      var found := MatchPatterns(word, k.patterns);
      if found {
        s, nk := ExecuteActions(word, k, g, fuel);
      } else {
        var next;
        s, next := ExecuteCase(word, k.next, g, retval, fuel);
        nk := k.(next := next);
      }
    }

    /** The patterns of one clause, in order, up to the first that matches. */
    method MatchPatterns(word: string, patterns: seq<string>) returns (found: bool)
      ensures found == AnyMatches(word, patterns, log, h)
    {
      var i := 0;
      while i < |patterns|
        invariant i <= |patterns| && forall j :: 0 <= j < i ==> !h.matches(word, patterns[j], log)
      {
        if h.matches(word, patterns[i], log) {
          return true;
        }
        i := i + 1;
      }
      return false;
    }

    /** The clause at k was matched or fallen into. */
    method ExecuteActions(word: string, k: Clauses, g: bool, fuel: nat) returns (s: Status, nk: Clauses)
      requires Valid() && k.Clause? && SoundClauses(k, g, h.errexit)
      modifies this
      ensures EraseClauses(nk) == EraseClauses(k) && SoundClauses(nk, g, h.errexit)
      ensures s.Finished? ==> Valid() && loopLevel == old(loopLevel)
      ensures !old(Calm()) ==> s == Finished(last) && unchanged(this)
      ensures old(Calm()) ==> Shows(RunActions(word, EraseClauses(k), g, old(loopLevel), old(log), fuel, h), s)
      decreases fuel, EraseClauses(k), 2
    {
      hide Run, Erase, Sound, Ready;
      MarkSound(g, k.action, h.errexit);
      var action := MarkIf(g, k.action);
      s, action := Execute(action, g, fuel);
      nk := k.(action := action);
      if !s.Finished? || k.flow == Stop {
        return;
      }
      var next := k.next;
      if k.flow == TestNext {
        s, next := ExecuteCase(word, next, g, s.status, fuel);
      } else if next.Clause? {
        s, next := ExecuteActions(word, next, g, fuel);
      }
      nk := nk.(next := next);
    }
  }
}
