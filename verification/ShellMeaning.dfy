// What the commands mean: a structured semantics without counters or flags.
// A command ends normally, or leaves or goes on with an enclosing loop, or
// ends the run.

module ShellMeaning {
  import opened ShellSyntax

  // Break(k) leaves k loops; Continue(k) leaves k - 1 and goes on with the
  // next. Exit is `set -e` at work; Cut ends a run whose steps are used up.
  datatype Outcome =
    | Normal(status: int)
    | Break(levels: nat, status: int)
    | Continue(levels: nat, status: int)
    | Exit(status: int)
    | Cut

  datatype Result = Result(out: Outcome, run: Run)

  // Where a command stands: is `set -e` on, how many loops enclose it, and is
  // its failure ignored.
  datatype Context = Context(errexit: bool, loops: nat, ignored: bool)

  predicate Abrupt(o: Outcome) { o.Break? || o.Continue? }

  predicate Ended(o: Outcome) { o.Exit? || o.Cut? }

  // At least one loop is left, and no more than there are.
  predicate Bounded(o: Outcome, loops: nat) {
    Abrupt(o) ==> 1 <= o.levels <= loops
  }

  function Flip(status: int): int { if status == 0 then 1 else 0 }

  function Inverted(invert: bool, r: Result): Result {
    if !invert || Ended(r.out) then r
    else Result(match r.out
                case Normal(s) => Normal(Flip(s))
                case Break(k, s) => Break(k, Flip(s))
                case Continue(k, s) => Continue(k, Flip(s)), r.run)
  }

  // The contexts of a command's parts: a test, or the left of && and ||, is
  // ignored; the other parts are if the whole or its negation is.
  function Test(x: Context): Context { x.(ignored := true) }

  function Part(x: Context, invert: bool): Context { x.(ignored := x.ignored || invert) }

  // The right of && and || looks at the flag of the command alone, which a
  // negation sets only under set -e.
  function Right(x: Context, invert: bool): Context { x.(ignored := x.ignored || (x.errexit && invert)) }

  function InLoop(x: Context): Context { x.(loops := x.loops + 1) }

  function Meaning(w: World, c: Command, x: Context, run: Run): (r: Result)
    ensures r.run.steps <= run.steps && Bounded(r.out, x.loops)
    decreases run.steps, c, 0, 0
  {
    if c.Null? then Result(Normal(0), run)
    else Inverted(c.invert, FormMeaning(w, c.id, c.form, x, c.invert, run))
  }

  function FormMeaning(w: World, id: nat, f: Form, x: Context, invert: bool, run: Run): (r: Result)
    ensures r.run.steps <= run.steps && Bounded(r.out, x.loops)
    decreases run.steps, f, 1, 0
  {
    var p := Part(x, invert);
    match f
    case Simple(a) => SimpleMeaning(w, id, a, p, run)
    case Group(b) => Meaning(w, b, p, run)
    case Sequence(a, b) =>
      var r := Meaning(w, a, p, run);
      if r.out.Normal? then Meaning(w, b, p, r.run) else r
    case Connection(or, a, b) =>
      var r := Meaning(w, a, Test(x), run);
      if r.out.Normal? && (r.out.status != 0) == or then Meaning(w, b, Right(x, invert), r.run) else r
    case If(t, a, b) =>
      var r := Meaning(w, t, Test(x), run);
      if r.out.Normal? then Meaning(w, if r.out.status == 0 then a else b, p, r.run) else r
    case While(_, _, _) => WhileMeaning(w, f, InLoop(p), run, 0)
    case For(_) =>  // a variable's name that is no identifier ends it at once
      var (bad, run1) := Ask(w, id, run);
      var (n, run2) := Ask(w, id, run1);
      if bad != 0 then Result(Normal(1), run1)
      else ForMeaning(w, id, f, InLoop(p), if n < 0 then 0 else n, run2, 0)
    case Case(cl) => CaseMeaning(w, id, cl, false, p, Result(Normal(0), run))
  }

  // A simple command. break and continue have no effect outside loops, and
  // with a count below 1 both fail and leave every loop.
  function SimpleMeaning(w: World, id: nat, a: Action, x: Context, run: Run): (r: Result)
    ensures r.run.steps == run.steps && Bounded(r.out, x.loops)
  {
    var status := Status(w, a, x.loops, run);
    var run' := Ran(w, id, a, x, run);
    if x.errexit && !x.ignored && status != 0 then Result(Exit(status), run')
    else Result(Jump(a, x.loops, status), run')
  }

  function Status(w: World, a: Action, loops: nat, run: Run): int {
    if a.External? then w(run.clock) else if loops > 0 && a.n <= 0 then 1 else 0
  }

  function Ran(w: World, id: nat, a: Action, x: Context, run: Run): (run': Run)
    ensures run'.steps == run.steps
  {
    run.(clock := if a.External? then run.clock + 1 else run.clock,
         trace := run.trace + [Event.Ran(id, Status(w, a, x.loops, run), x.ignored)])
  }

  function Jump(a: Action, loops: nat, status: int): Outcome {
    if a.External? || loops == 0 then Normal(status)
    else if a.n <= 0 then Break(loops, status)
    else
      var k := if a.n > loops then loops else a.n;
      if a.BreakLoops? then Break(k, status) else Continue(k, status)
  }

  // What is left of a jump once one loop is left.
  function Leave(o: Outcome, status: int): Outcome
    requires Abrupt(o) && o.levels > 0
  {
    if o.levels == 1 then Normal(status)
    else if o.Break? then Break(o.levels - 1, status) else Continue(o.levels - 1, status)
  }

  // Does a loop go on after its body ended so?
  predicate GoesOn(o: Outcome) { o.Normal? || (o.Continue? && o.levels == 1) }

  // The rest of a while or until loop, `status` being that of the last body.
  // A jump out of the test still has its status looked at; when that ends the
  // loop, even a continue of this very loop does.
  function WhileMeaning(w: World, f: Form, x: Context, run: Run, status: int): (r: Result)
    requires f.While? && x.loops > 0
    ensures r.run.steps <= run.steps && Bounded(r.out, x.loops - 1)
    decreases run.steps, f, 0, 0
  {
    if run.steps == 0 then Result(Cut, run)
    else
      var t := Meaning(w, f.test, Test(x), run.(steps := run.steps - 1));
      if Ended(t.out) then t
      else if (t.out.status == 0) == f.until then
        Result(if Abrupt(t.out) then Leave(t.out, status) else Normal(status), t.run)
      else
        WhileNext(w, f, x, if Abrupt(t.out) then t else Meaning(w, f.body, x, t.run))
  }

  // After the body.
  function WhileNext(w: World, f: Form, x: Context, b: Result): (r: Result)
    requires f.While? && x.loops > 0 && Bounded(b.out, x.loops)
    ensures r.run.steps <= b.run.steps && Bounded(r.out, x.loops - 1)
    decreases b.run.steps, f, 0, 1
  {
    if Ended(b.out) then b
    else if GoesOn(b.out) then WhileMeaning(w, f, x, b.run, b.out.status)
    else Result(Leave(b.out, b.out.status), b.run)
  }

  // The rest of a for loop with n words to go. A variable that cannot be
  // assigned ends it.
  function ForMeaning(w: World, id: nat, f: Form, x: Context, n: nat, run: Run, status: int): (r: Result)
    requires f.For? && x.loops > 0
    ensures r.run.steps <= run.steps && Bounded(r.out, x.loops - 1)
    decreases run.steps, f, 0, n, 0
  {
    if n == 0 then Result(Normal(status), run)
    else
      var (denied, run') := Ask(w, id, run);
      if denied != 0 then Result(Normal(1), run')
      else
        ForNext(w, id, f, x, n - 1, Meaning(w, f.body, x, run'))
  }

  // After the body, with n words to go.
  function ForNext(w: World, id: nat, f: Form, x: Context, n: nat, b: Result): (r: Result)
    requires f.For? && x.loops > 0 && Bounded(b.out, x.loops)
    ensures r.run.steps <= b.run.steps && Bounded(r.out, x.loops - 1)
    decreases b.run.steps, f, 0, n, 1
  {
    if Ended(b.out) then b
    else if GoesOn(b.out) then ForMeaning(w, id, f, x, n, b.run, b.out.status)
    else Result(Leave(b.out, b.out.status), b.run)
  }

  // Tries n patterns in order until one matches.
  function Matches(w: World, id: nat, n: nat, run: Run): (r: (bool, Run))
    ensures r.1.steps == run.steps
    decreases n
  {
    if n == 0 then (false, run)
    else
      var (answer, run') := Ask(w, id, run);
      if answer != 0 then (true, run') else Matches(w, id, n - 1, run')
  }

  // The rest of a case command, from its first clause on; `so` is how it has
  // gone so far. After ;& the next action runs untested; after ;;& the next
  // patterns are tested, which a jump does not prevent: it only skips actions.
  function CaseMeaning(w: World, id: nat, cl: Clauses, falling: bool, x: Context, so: Result): (r: Result)
    requires Bounded(so.out, x.loops) && !Ended(so.out)
    ensures r.run.steps <= so.run.steps && Bounded(r.out, x.loops)
    decreases so.run.steps, cl, 0, 0
  {
    if cl.NoClause? then so
    else
      var (hit, run) := if falling then (true, so.run) else Matches(w, id, cl.patterns, so.run);
      if !hit then CaseMeaning(w, id, cl.next, false, x, Result(so.out, run))
      else
        var r := if Abrupt(so.out) then Result(so.out, run) else Meaning(w, cl.action, x, run);
        if Ended(r.out) || cl.ending.Stop? then r
        else CaseMeaning(w, id, cl.next, cl.ending.FallThrough?, x, r)
  }

  // ---------------------------------------------------------------- one step at a time

  lemma SimpleForm(w: World, id: nat, f: Form, x: Context, invert: bool, run: Run)
    requires f.Simple?
    ensures FormMeaning(w, id, f, x, invert, run) == SimpleMeaning(w, id, f.action, Part(x, invert), run)
  {
    hide Meaning, SimpleMeaning;
  }

  lemma WhileForm(w: World, id: nat, f: Form, x: Context, invert: bool, run: Run)
    requires f.While?
    ensures FormMeaning(w, id, f, x, invert, run) == WhileMeaning(w, f, InLoop(Part(x, invert)), run, 0)
  {
    hide Meaning, WhileMeaning;
  }

  lemma WhileStep(w: World, f: Form, x: Context, run: Run, status: int)
    requires f.While? && x.loops > 0 && run.steps > 0
    ensures var t := Meaning(w, f.test, Test(x), run.(steps := run.steps - 1));
            WhileMeaning(w, f, x, run, status) ==
              if Ended(t.out) then t
              else if (t.out.status == 0) == f.until then
                Result(if Abrupt(t.out) then Leave(t.out, status) else Normal(status), t.run)
              else WhileNext(w, f, x, if Abrupt(t.out) then t else Meaning(w, f.body, x, t.run))
  {
    hide Meaning, WhileNext, Leave;
  }

  lemma WhileCut(w: World, f: Form, x: Context, run: Run, status: int)
    requires f.While? && x.loops > 0 && run.steps == 0
    ensures WhileMeaning(w, f, x, run, status) == Result(Cut, run)
  {
  }

  lemma WhileGoesOn(w: World, f: Form, x: Context, b: Result)
    requires f.While? && x.loops > 0 && Bounded(b.out, x.loops)
    ensures WhileNext(w, f, x, b) ==
              if Ended(b.out) then b
              else if GoesOn(b.out) then WhileMeaning(w, f, x, b.run, b.out.status)
              else Result(Leave(b.out, b.out.status), b.run)
  {
    hide WhileMeaning, Leave;
  }

  lemma ForForm(w: World, id: nat, f: Form, x: Context, invert: bool, run: Run)
    requires f.For?
    ensures FormMeaning(w, id, f, x, invert, run)
         == (var (bad, run1) := Ask(w, id, run);
             var (n, run2) := Ask(w, id, run1);
             if bad != 0 then Result(Normal(1), run1)
             else ForMeaning(w, id, f, InLoop(Part(x, invert)), if n < 0 then 0 else n, run2, 0))
  {
    hide Meaning, ForMeaning;
  }

  lemma ForStep(w: World, id: nat, f: Form, x: Context, n: nat, run: Run, status: int)
    requires f.For? && x.loops > 0 && n > 0
    ensures ForMeaning(w, id, f, x, n, run, status)
         == (var (denied, run') := Ask(w, id, run);
             if denied != 0 then Result(Normal(1), run')
             else ForNext(w, id, f, x, n - 1, Meaning(w, f.body, x, run')))
  {
    hide Meaning, ForNext;
  }

  lemma ForStops(w: World, id: nat, f: Form, x: Context, run: Run, status: int)
    requires f.For? && x.loops > 0
    ensures ForMeaning(w, id, f, x, 0, run, status) == Result(Normal(status), run)
  {
  }

  lemma ForGoesOn(w: World, id: nat, f: Form, x: Context, n: nat, b: Result)
    requires f.For? && x.loops > 0 && Bounded(b.out, x.loops)
    ensures ForNext(w, id, f, x, n, b) ==
              if Ended(b.out) then b
              else if GoesOn(b.out) then ForMeaning(w, id, f, x, n, b.run, b.out.status)
              else Result(Leave(b.out, b.out.status), b.run)
  {
    hide ForMeaning, Leave;
  }

  lemma CaseForm(w: World, id: nat, f: Form, x: Context, invert: bool, run: Run)
    requires f.Case?
    ensures FormMeaning(w, id, f, x, invert, run)
         == CaseMeaning(w, id, f.clauses, false, Part(x, invert), Result(Normal(0), run))
  {
    hide Meaning, CaseMeaning;
  }

  lemma CaseStops(w: World, id: nat, falling: bool, x: Context, so: Result)
    requires Bounded(so.out, x.loops) && !Ended(so.out)
    ensures CaseMeaning(w, id, NoClause, falling, x, so) == so
  {
  }

  lemma CaseTests(w: World, id: nat, cl: Clauses, x: Context, so: Result)
    requires Bounded(so.out, x.loops) && !Ended(so.out) && cl.Clause?
    ensures CaseMeaning(w, id, cl, false, x, so)
         == (var (hit, run) := Matches(w, id, cl.patterns, so.run);
             CaseMeaning(w, id, if hit then cl else cl.next, hit, x, Result(so.out, run)))
  {
    hide Meaning, Matches;
  }

  lemma CaseActs(w: World, id: nat, cl: Clauses, x: Context, so: Result)
    requires Bounded(so.out, x.loops) && !Ended(so.out) && cl.Clause?
    ensures CaseMeaning(w, id, cl, true, x, so)
         == (var r := if Abrupt(so.out) then so else Meaning(w, cl.action, x, so.run);
             if Ended(r.out) || cl.ending.Stop? then r
             else CaseMeaning(w, id, cl.next, cl.ending.FallThrough?, x, r))
  {
    hide Meaning, Matches;
  }

  // A whole script: no loop around it, nothing ignored.
  function Script(w: World, c: Command, errexit: bool, steps: nat): (r: Result)
    ensures !Abrupt(r.out)
  {
    Meaning(w, c, Context(errexit, 0, false), Run(0, steps, []))
  }
}
