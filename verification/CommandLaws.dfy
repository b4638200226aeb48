/** What the structural meaning says about `set -e', jumps and the fuel of a run. */
module CommandLaws {
  import opened Commands

  // ----- set -e -----

  /** A failing simple command that no test, operand, or inversion guards. */
  predicate Fatal(e: Event) { e.Ran? && e.status != 0 && !e.guarded }

  /** Every event after the first n is harmless. */
  predicate Harmless(log: Log, n: nat)
  {
    forall i :: n <= i < |log| ==> !Fatal(log[i])
  }

  /** The run ended by Exit exactly when something fatal happened, and then at once; in a
      guarded context every command that ran was guarded. */
  predicate Verdict(before: Log, g: bool, r: Result)
  {
    && before <= r.log
    && (g ==> forall i :: |before| <= i < |r.log| && r.log[i].Ran? ==> r.log[i].guarded)
    && if r.out.Exit? then
         && |r.log| > |before|
         && r.log[|r.log| - 1].Ran? && Fatal(r.log[|r.log| - 1]) && r.log[|r.log| - 1].status == r.out.status
         && Harmless(r.log[..|r.log| - 1], |before|)
       else Harmless(r.log, |before|)
  }

  lemma VerdictThen(before: Log, g: bool, a: Result, r: Result)
    requires Verdict(before, g, a) && !a.out.Exit? && Verdict(a.log, g, r)
    ensures Verdict(before, g, r)
  {
    assert forall i :: |before| <= i < |a.log| ==> r.log[i] == a.log[i];
    var n := |r.log| - (if r.out.Exit? then 1 else 0);
    forall i | |before| <= i < n
      ensures !Fatal(r.log[i])
    {
      if i < |a.log| {
        assert r.log[i] == a.log[i];
      } else {
        assert r.log[..n][i] == r.log[i];
      }
    }
  }

  lemma VerdictBound(before: Log, g: bool, name: string, word: string, r: Result)
    requires Verdict(before + [Bound(name, word)], g, r)
    ensures Verdict(before, g, r)
  {
    var log := before + [Bound(name, word)];
    VerdictThen(before, g, Result(Done(0), log), r);
  }

  /** Under `set -e' a run ends early exactly when a failing simple command is outside every
      test, every operand but the last of && and ||, and every inverted command. */
  lemma {:induction false} ExitsExactly(c: Command, g: bool, depth: nat, log: Log, fuel: nat, h: Host)
    requires h.errexit
    ensures Verdict(log, g, Run(c, g, depth, log, fuel, h))
    decreases fuel, c, 3, 0
  {
    if c.Command? {
      ExitsBody(c.body, g || c.invert, c.invert, depth, log, fuel, h);
    }
  }

  lemma {:induction false} ExitsBody(b: Body, g: bool, invert: bool, depth: nat, log: Log, fuel: nat, h: Host)
    requires h.errexit
    ensures Verdict(log, g, RunBody(b, g, invert, depth, log, fuel, h))
    decreases fuel, b, 2, 0
  {
    hide Run, RunLoop, RunFor, RunCase;
    match b
    case Simple(_) =>
    case Break(_) =>
    case Continue(_) =>
    case Connect(conn, first, second) =>
      ExitsExactly(first, g || conn != Semi, depth, log, fuel, h);
      var r := Run(first, g || conn != Semi, depth, log, fuel, h);
      if r.out.Done? {
        ExitsExactly(second, g, depth, r.log, fuel, h);
        VerdictThen(log, g, r, Run(second, g, depth, r.log, fuel, h));
      }
    case If(test, yes, no) =>
      ExitsExactly(test, true, depth, log, fuel, h);
      var r := Run(test, true, depth, log, fuel, h);
      if r.out.Done? {
        var next := if r.out.status == 0 then yes else no;
        ExitsExactly(next, g, depth, r.log, fuel, h);
        VerdictThen(log, g, r, Run(next, g, depth, r.log, fuel, h));
      }
    case Loop(_, _, _) => ExitsLoop(b, g, depth + 1, 0, log, fuel, h);
    case For(name, _) =>
      if h.identifier(name) {
        ExitsFor(b, g, depth + 1, 0, h.words(name, log), log, fuel, h);
      }
    case Case(word, clauses) => ExitsCase(word, clauses, g, depth, 0, log, fuel, h);
    case Group(command) => ExitsExactly(command, g, depth, log, fuel, h);
  }

  lemma {:induction false} ExitsLoop(b: Body, g: bool, depth: nat, status: int, log: Log, fuel: nat, h: Host)
    requires b.Loop? && depth > 0 && h.errexit
    ensures Verdict(log, g, RunLoop(b, g, depth, status, log, fuel, h))
    decreases fuel, b, 1, 0
  {
    hide Run;
    if fuel > 0 {
      ExitsExactly(b.test, true, depth, log, fuel, h);
      var t := Run(b.test, true, depth, log, fuel, h);
      if !t.out.Exit? && !t.out.Out? && !Ends(b.until, t.out.status) {
        var a := if t.out.Done? then Run(b.action, g, depth, t.log, fuel, h) else t;
        if t.out.Done? {
          ExitsExactly(b.action, g, depth, t.log, fuel, h);
          VerdictThen(log, g, t, a);
        }
        if Resumes(a.out) {
          ExitsLoop(b, g, depth, a.out.status, a.log, fuel - 1, h);
          VerdictThen(log, g, a, RunLoop(b, g, depth, a.out.status, a.log, fuel - 1, h));
        }
      }
    }
  }

  lemma {:induction false} ExitsFor(b: Body, g: bool, depth: nat, status: int, words: seq<string>, log: Log, fuel: nat, h: Host)
    requires b.For? && depth > 0 && h.errexit
    ensures Verdict(log, g, RunFor(b, g, depth, status, words, log, fuel, h))
    decreases fuel, b, 1, |words|
  {
    hide Run;
    if words != [] && h.binds(b.name, words[0], log) {
      var log1 := log + [Bound(b.name, words[0])];
      ExitsExactly(b.action, g, depth, log1, fuel, h);
      var a := Run(b.action, g, depth, log1, fuel, h);
      VerdictBound(log, g, b.name, words[0], a);
      if Resumes(a.out) {
        ExitsFor(b, g, depth, a.out.status, words[1..], a.log, fuel, h);
        VerdictThen(log, g, a, RunFor(b, g, depth, a.out.status, words[1..], a.log, fuel, h));
      }
    }
  }

  lemma {:induction false} ExitsCase(word: string, k: Clauses, g: bool, depth: nat, status: int, log: Log, fuel: nat, h: Host)
    requires h.errexit
    ensures Verdict(log, g, RunCase(word, k, g, depth, status, log, fuel, h))
    decreases fuel, k, 3, 0
  {
    hide Run, RunActions;
    if k.Clause? {
      if AnyMatches(word, k.patterns, log, h) {
        ExitsActions(word, k, g, depth, log, fuel, h);
      } else {
        ExitsCase(word, k.next, g, depth, status, log, fuel, h);
      }
    }
  }

  lemma {:induction false} ExitsActions(word: string, k: Clauses, g: bool, depth: nat, log: Log, fuel: nat, h: Host)
    requires k.Clause? && h.errexit
    ensures Verdict(log, g, RunActions(word, k, g, depth, log, fuel, h))
    decreases fuel, k, 2, 0
  {
    hide Run, RunCase;
    ExitsExactly(k.action, g, depth, log, fuel, h);
    var r := Run(k.action, g, depth, log, fuel, h);
    if r.out.Done? {
      if k.flow == TestNext {
        ExitsCase(word, k.next, g, depth, r.out.status, r.log, fuel, h);
        VerdictThen(log, g, r, RunCase(word, k.next, g, depth, r.out.status, r.log, fuel, h));
      } else if k.flow == FallThrough && k.next.Clause? {
        ExitsActions(word, k.next, g, depth, r.log, fuel, h);
        VerdictThen(log, g, r, RunActions(word, k.next, g, depth, r.log, fuel, h));
      }
    }
  }

  /** Nothing that runs in a guarded position, or inverted, ends the run. */
  lemma GuardedNeverExits(c: Command, g: bool, depth: nat, log: Log, fuel: nat, h: Host)
    requires h.errexit && (g || (c.Command? && c.invert))
    ensures !Run(c, g, depth, log, fuel, h).out.Exit?
  {
    hide RunBody;
    if c.Command? {
      ExitsBody(c.body, true, c.invert, depth, log, fuel, h);
    }
  }

  // ----- jumps out of tests -----

  /** A continue in a loop's test resumes the loop exactly when the test's status would not
      have ended it; otherwise it leaves the loop as a break would. */
  lemma ContinueInTest(b: Body, g: bool, depth: nat, status: int, log: Log, fuel: nat, h: Host)
    requires b.Loop? && depth > 0 && fuel > 0
    requires var o := Run(b.test, true, depth, log, fuel, h).out; o.Cont? && o.n == 1
    ensures var t := Run(b.test, true, depth, log, fuel, h);
      RunLoop(b, g, depth, status, log, fuel, h)
      == if Ends(b.until, t.out.status) then t.(out := Done(status))
         else RunLoop(b, g, depth, t.out.status, t.log, fuel - 1, h)
  {
    hide Run;
  }

  /** So `until continue; do ...; done' ends at once, although it asks to be resumed. */
  lemma UntilContinueEnds(action: Command, log: Log, fuel: nat, h: Host)
    requires fuel > 0
    ensures var test := Command(false, false, false, Continue(1));
      Run(Command(false, false, false, Loop(true, test, action)), false, 0, log, fuel, h)
      == Result(Done(0), log + [Ran(Continue(1), true, 0)])
  {
    var test := Command(false, false, false, Continue(1));
    var b := Loop(true, test, action);
    var t := Run(test, true, 1, log, fuel, h);
    assert Jump(test.body, 1) == Cont(1, 0);
    assert RunBody(test.body, true, false, 1, log, fuel, h) == Result(Cont(1, 0), log + [Ran(Continue(1), true, 0)]);
    assert t == Result(Cont(1, 0), log + [Ran(Continue(1), true, 0)]);
    ContinueInTest(b, false, 1, 0, log, fuel, h);
    assert RunBody(b, false, false, 0, log, fuel, h) == RunLoop(b, false, 1, 0, log, fuel, h);
  }

  // ----- fuel -----

  /** Fuel only cuts runs short: more of it gives the same result to every run that ended. */
  lemma {:induction false} MoreFuel(c: Command, g: bool, depth: nat, log: Log, fuel: nat, more: nat, h: Host)
    requires fuel <= more && !Run(c, g, depth, log, fuel, h).out.Out?
    ensures Run(c, g, depth, log, more, h) == Run(c, g, depth, log, fuel, h)
    decreases fuel, c, 3, 0
  {
    if c.Command? {
      MoreFuelBody(c.body, g || (h.errexit && c.invert), c.invert, depth, log, fuel, more, h);
    }
  }

  lemma {:induction false} MoreFuelBody(b: Body, g: bool, invert: bool, depth: nat, log: Log, fuel: nat, more: nat, h: Host)
    requires fuel <= more && !RunBody(b, g, invert, depth, log, fuel, h).out.Out?
    ensures RunBody(b, g, invert, depth, log, more, h) == RunBody(b, g, invert, depth, log, fuel, h)
    decreases fuel, b, 2, 0
  {
    hide Run, RunLoop, RunFor, RunCase, RunSimple, Jump;
    match b
    case Simple(_) =>
    case Break(_) =>
    case Continue(_) =>
    case Connect(conn, first, second) =>
      MoreFuel(first, g || conn != Semi, depth, log, fuel, more, h);
      var r := Run(first, g || conn != Semi, depth, log, fuel, h);
      if r.out.Done? && (conn == Semi || (conn == AndAnd) == (r.out.status == 0)) {
        MoreFuel(second, g, depth, r.log, fuel, more, h);
      }
    case If(test, yes, no) =>
      MoreFuel(test, true, depth, log, fuel, more, h);
      var r := Run(test, true, depth, log, fuel, h);
      if r.out.Done? {
        MoreFuel(if r.out.status == 0 then yes else no, g, depth, r.log, fuel, more, h);
      }
    case Loop(_, _, _) => MoreFuelLoop(b, g, depth + 1, 0, log, fuel, more, h);
    case For(name, _) =>
      if h.identifier(name) {
        MoreFuelFor(b, g, depth + 1, 0, h.words(name, log), log, fuel, more, h);
      }
    case Case(word, clauses) => MoreFuelCase(word, clauses, g, depth, 0, log, fuel, more, h);
    case Group(command) => MoreFuel(command, g, depth, log, fuel, more, h);
  }

  lemma {:induction false} MoreFuelLoop(b: Body, g: bool, depth: nat, status: int, log: Log, fuel: nat, more: nat, h: Host)
    requires b.Loop? && depth > 0 && fuel <= more && !RunLoop(b, g, depth, status, log, fuel, h).out.Out?
    ensures RunLoop(b, g, depth, status, log, more, h) == RunLoop(b, g, depth, status, log, fuel, h)
    decreases fuel, b, 1, 0
  {
    hide Run;
    MoreFuel(b.test, true, depth, log, fuel, more, h);
    var t := Run(b.test, true, depth, log, fuel, h);
    if !t.out.Exit? && !Ends(b.until, t.out.status) {
      if t.out.Done? {
        MoreFuel(b.action, g, depth, t.log, fuel, more, h);
      }
      var a := if t.out.Done? then Run(b.action, g, depth, t.log, fuel, h) else t;
      if Resumes(a.out) {
        MoreFuelLoop(b, g, depth, a.out.status, a.log, fuel - 1, more - 1, h);
      }
    }
  }

  lemma {:induction false} MoreFuelFor(b: Body, g: bool, depth: nat, status: int, words: seq<string>, log: Log, fuel: nat, more: nat, h: Host)
    requires b.For? && depth > 0 && fuel <= more && !RunFor(b, g, depth, status, words, log, fuel, h).out.Out?
    ensures RunFor(b, g, depth, status, words, log, more, h) == RunFor(b, g, depth, status, words, log, fuel, h)
    decreases fuel, b, 1, |words|
  {
    hide Run;
    if words != [] && h.binds(b.name, words[0], log) {
      var log1 := log + [Bound(b.name, words[0])];
      MoreFuel(b.action, g, depth, log1, fuel, more, h);
      var a := Run(b.action, g, depth, log1, fuel, h);
      if Resumes(a.out) {
        MoreFuelFor(b, g, depth, a.out.status, words[1..], a.log, fuel, more, h);
      }
    }
  }

  lemma {:induction false} MoreFuelCase(word: string, k: Clauses, g: bool, depth: nat, status: int, log: Log, fuel: nat, more: nat, h: Host)
    requires fuel <= more && !RunCase(word, k, g, depth, status, log, fuel, h).out.Out?
    ensures RunCase(word, k, g, depth, status, log, more, h) == RunCase(word, k, g, depth, status, log, fuel, h)
    decreases fuel, k, 3, 0
  {
    hide Run, RunActions;
    if k.Clause? {
      if AnyMatches(word, k.patterns, log, h) {
        MoreFuelActions(word, k, g, depth, log, fuel, more, h);
      } else {
        MoreFuelCase(word, k.next, g, depth, status, log, fuel, more, h);
      }
    }
  }

  lemma {:induction false} MoreFuelActions(word: string, k: Clauses, g: bool, depth: nat, log: Log, fuel: nat, more: nat, h: Host)
    requires k.Clause? && fuel <= more && !RunActions(word, k, g, depth, log, fuel, h).out.Out?
    ensures RunActions(word, k, g, depth, log, more, h) == RunActions(word, k, g, depth, log, fuel, h)
    decreases fuel, k, 2, 0
  {
    hide Run, RunCase;
    MoreFuel(k.action, g, depth, log, fuel, more, h);
    var r := Run(k.action, g, depth, log, fuel, h);
    if r.out.Done? {
      if k.flow == TestNext {
        MoreFuelCase(word, k.next, g, depth, r.out.status, r.log, fuel, more, h);
      } else if k.flow == FallThrough && k.next.Clause? {
        MoreFuelActions(word, k.next, g, depth, r.log, fuel, more, h);
      }
    }
  }
}
