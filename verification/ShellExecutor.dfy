// The executor as bash/execute_cmd.c writes it: `break` and `continue` are
// counters that every loop unwinds, and whether a failure is ignored is a
// flag written onto the commands while they run. Each method is proved to do
// what ShellMeaning says.

module ShellExecutor {
  import opened ShellSyntax
  import opened ShellMeaning
  import opened ShellFlags

  // What executing gives: a status, or the end of the run.
  datatype Exec = Good(status: int) | Exited(status: int) | CutOff {
    predicate IsFailure() { !Good? }
    function PropagateFailure(): Exec { this }
    function Extract(): int requires Good? { status }
  }

  class Shell {
    const errexit: bool
    const world: World
    var breaking: nat
    var continuing: nat
    var loopLevel: nat
    var lastStatus: int
    var flags: set<nat>
    var inner: set<nat>
    var clock: nat
    var steps: nat
    ghost var trace: seq<Event>

    constructor (errexit: bool, world: World, steps: nat)
      ensures this.errexit == errexit && this.world == world && AtRest() && loopLevel == 0
      ensures flags == {} && inner == {} && Now() == Run(0, steps, [])
    {
      this.errexit, this.world, this.steps := errexit, world, steps;
      breaking, continuing, loopLevel, lastStatus, clock := 0, 0, 0, 0, 0;
      flags, inner, trace := {}, {}, [];
    }

    ghost function Now(): Run
      reads this
    {
      Run(clock, steps, trace)
    }

    // No jump is under way.
    predicate AtRest()
      reads `breaking, `continuing
    {
      breaking == 0 && continuing == 0
    }

    // A command about to be executed in context x: its flags are in order, and
    // if it is to be ignored it is marked.
    ghost predicate Ready(c: Command, x: Context)
      reads this
    {
      && Distinct(c) && Prepared(c, x, flags, inner)
      && x.errexit == errexit && x.loops == loopLevel
    }

    // A command whose form is about to be executed: its own flag is exact.
    ghost predicate Entered(c: Command, x: Context)
      reads this
    {
      && c.Node? && c.id !in FormIds(c.form) && DistinctForm(c.form)
      && FormInOrder(c.form, x, c.invert, flags, inner)
      && (c.id in flags <==> Right(x, c.invert).ignored)
      && (c.id in inner ==> Part(x, c.invert).ignored)
      && x.errexit == errexit && x.loops == loopLevel && AtRest()
    }

    // The flag of the structure inside is exact too.
    ghost predicate EnteredInner(c: Command, x: Context)
      reads this
    {
      Entered(c, x) && (c.id in inner <==> Part(x, c.invert).ignored)
    }

    // The outcome is o; the jump it stands for is what the counters say.
    ghost predicate Says(r: Exec, o: Outcome)
      reads `breaking, `continuing, `lastStatus
    {
      match o
      case Normal(s) => r == Good(s) && breaking == 0 && continuing == 0
      case Break(k, s) => r == Good(s) && breaking == k && continuing == 0
      case Continue(k, s) => r == Good(s) && breaking == 0 && continuing == k
      case Exit(s) => r == Exited(s) && lastStatus == s
      case Cut => r == CutOff
    }

    // What this comes to without looking at the jump.
    ghost predicate Shaped(r: Exec, o: Outcome)
      reads this
    {
      && (r.Good? <==> !Ended(o)) && !(breaking > 0 && continuing > 0)
      && (r.Good? ==> r.status == o.status && (AtRest() <==> o.Normal?))
    }

    lemma SaysCut()
      ensures Says(CutOff, Cut)
    {
    }

    ghost predicate Agrees(r: Exec, o: Result)
      reads this
    {
      Now() == o.run && Says(r, o.out)
    }

    // What a structure leaves behind when it ends: the loop count as it was,
    // flags grown among its own commands only, and in order.
    twostate predicate Settled(c: Command, x: Context)
      requires c.Node?
      reads this
    {
      && loopLevel == old(loopLevel) && FormInOrder(c.form, x, c.invert, flags, inner)
      && Grown(FormIds(c.form), old(flags), old(inner), flags, inner)
    }

    // execute_command and execute_command_internal. While a jump is under way
    // nothing is done but to repeat the last status.
    method Execute(c: Command, ghost x: Context) returns (r: Exec)
      requires Ready(c, x) && !(breaking > 0 && continuing > 0)
      modifies this
      ensures !old(AtRest()) ==> r == Good(lastStatus) && unchanged(this)
      ensures old(AtRest()) ==> Agrees(r, Meaning(world, c, x, old(Now())))
      ensures r.Good? && !AtRest() ==> r.status == lastStatus
      ensures r.Good? ==> loopLevel == old(loopLevel) && Prepared(c, x, flags, inner)
                          && Grown(Ids(c), old(flags), old(inner), flags, inner)
      decreases steps, c, 0, 0
    {
      hide FormMeaning, InOrder, FormInOrder, Prepared, Ids, FormIds, Distinct, DistinctForm, Grown;
      NoneGrown(Ids(c), flags, inner);
      if breaking > 0 || continuing > 0 { return Good(lastStatus); }
      if c.Null? { return Good(0); }
      Enter(c, x);
      label A:
      var status :- ExecuteForm(c, x);
      PreparedAfter(c, x, old@A(flags), old@A(inner), flags, inner);
      Grows(FormIds(c.form), Ids(c), old(flags), old(inner), old@A(flags), old@A(inner), flags, inner) by {
        OwnIds(c, old(flags), old(inner), old@A(flags), old@A(inner));
      }
      if c.invert { status := if status == 0 then 1 else 0; }
      lastStatus := status;
      r := Good(status);
    }

    // Under set -e a negated command is ignored. Structures learn from their
    // command, in a flag of their own, that they are ignored.
    method Enter(c: Command, ghost x: Context)
      requires c.Node? && Ready(c, x) && AtRest()
      modifies `flags, `inner
      ensures Entered(c, x) && (HasFlag(c.form) ==> EnteredInner(c, x))
      ensures Grown({c.id}, old(flags), old(inner), flags, inner)
    {
      if errexit && c.invert { flags := flags + {c.id}; }
      var ignoreReturn := c.id in flags;
      if (ignoreReturn || c.invert) && HasFlag(c.form) { inner := inner + {c.id}; }
      EnterOrder(c, x, old(flags), old(inner));
    }

    lemma OwnIds(c: Command, f1: set<nat>, i1: set<nat>, f2: set<nat>, i2: set<nat>)
      requires c.Node? && Grown({c.id}, f1, i1, f2, i2)
      ensures Grown(Ids(c), f1, i1, f2, i2) && FormIds(c.form) <= Ids(c)
    {
    }

    // A command as read, its flags clear, with no loop around it: no jump
    // outlives it and the loop count is balanced.
    method ExecuteScript(c: Command) returns (r: Exec)
      requires Distinct(c) && AtRest() && loopLevel == 0 && flags !! Ids(c) && inner !! Ids(c)
      modifies this
      ensures Agrees(r, Meaning(world, c, Context(errexit, 0, false), old(Now())))
      ensures r.Good? ==> AtRest() && loopLevel == 0
      decreases steps, c, 1, 0
    {
      ghost var x := Context(errexit, 0, false);
      NoFlags(c, x, flags, inner);
      r := Execute(c, x);
    }

    // The switch on the command's type.
    method ExecuteForm(c: Command, ghost x: Context) returns (r: Exec)
      requires Entered(c, x) && (HasFlag(c.form) ==> EnteredInner(c, x))
      modifies this
      ensures Agrees(r, FormMeaning(world, c.id, c.form, x, c.invert, old(Now())))
      ensures r.Good? ==> Settled(c, x)
      decreases steps, c.form, 2, 0
    {
      hide Meaning, FormMeaning, SimpleMeaning, Says, InOrder, Ids, Distinct;
      match c.form {
        case Simple(a) =>
          SimpleForm(world, c.id, c.form, x, c.invert, Now());
          r := ExecuteSimple(c.id, a, c.id in flags || c.invert, Part(x, c.invert));
        case Group(_) => r := ExecuteGroup(c, x);
        case Sequence(_, _) => r := ExecuteSequence(c, x);
        case Connection(_, _, _) => r := ExecuteConnection(c, x);
        case If(_, _, _) => r := ExecuteIf(c, x);
        case While(_, _, _) => r := ExecuteWhileOrUntil(c, x);
        case For(_) => r := ExecuteFor(c, x);
        case Case(_) => r := ExecuteCase(c, x);
      }
    }

    lemma EnterOrder(c: Command, x: Context, f: set<nat>, i: set<nat>)
      requires c.Node? && Distinct(c) && InOrder(c, x, f, i)
      requires Grown({c.id}, f, i, flags, inner)
      ensures FormInOrder(c.form, x, c.invert, flags, inner)
    {
      assert f * FormIds(c.form) == flags * FormIds(c.form) && i * FormIds(c.form) == inner * FormIds(c.form);
      FormOrderKept(c.form, x, c.invert, f, i, flags, inner);
    }

    // Sets a command's CMD_IGNORE_RETURN, when there is a command and it is due.
    method Mark(c: Command, due: bool, ghost x: Context)
      requires Distinct(c) && InOrder(c, x, flags, inner) && due == x.ignored
      modifies `flags
      ensures Prepared(c, x, flags, inner) && Grown(Ids(c), old(flags), inner, flags, inner)
    {
      if due && c.Node? {
        OrderMarked(c, x, flags, inner);
        flags := flags + {c.id};
      }
    }

    // A simple command; a failure that nothing ignores ends the run under set -e.
    method ExecuteSimple(id: nat, a: Action, ignored: bool, ghost x: Context) returns (r: Exec)
      requires AtRest() && x.errexit == errexit && x.loops == loopLevel && ignored == x.ignored
      modifies `breaking, `continuing, `lastStatus, `clock, `trace
      ensures Agrees(r, SimpleMeaning(world, id, a, x, old(Now())))
    {
      var status := 0;
      if a.External? {
        status := world(clock);
        clock := clock + 1;
      } else if loopLevel > 0 {
        status := JumpBuiltin(a);
      }
      trace := trace + [Event.Ran(id, status, ignored)];
      if !ignored && errexit && status != 0 {
        lastStatus := status;
        return Exited(status);
      }
      r := Good(status);
    }

    // break_builtin and continue_builtin, inside a loop.
    method JumpBuiltin(a: Action) returns (status: int)
      requires !a.External? && loopLevel > 0 && AtRest()
      modifies `breaking, `continuing
      ensures status == if a.n <= 0 then 1 else 0
      ensures match Jump(a, loopLevel, status)
              case Break(k, _) => breaking == k && continuing == 0
              case Continue(k, _) => breaking == 0 && continuing == k
              case _ => false
    {
      if a.n <= 0 {
        breaking := loopLevel;
        return 1;
      }
      var count := if a.n > loopLevel then loopLevel else a.n;
      if a.BreakLoops? { breaking := count; } else { continuing := count; }
      status := 0;
    }

    // Marks a part of a command when due, and executes it.
    method ExecutePart(c: Command, due: bool, ghost x: Context) returns (r: Exec)
      requires Distinct(c) && InOrder(c, x, flags, inner) && due == x.ignored
      requires x.errexit == errexit && x.loops == loopLevel && !(breaking > 0 && continuing > 0)
      modifies this
      ensures !old(AtRest()) ==> r == Good(lastStatus) && unchanged(`lastStatus) && !AtRest()
                                 && unchanged(`breaking, `continuing) && Now() == old(Now())
      ensures old(AtRest()) ==> Agrees(r, Meaning(world, c, x, old(Now())))
      ensures r.Good? && !AtRest() ==> r.status == lastStatus
      ensures r.Good? ==> loopLevel == old(loopLevel) && Prepared(c, x, flags, inner)
                          && Grown(Ids(c), old(flags), old(inner), flags, inner)
      decreases steps, c, 1, 0
    {
      hide Meaning, InOrder, Ids, Distinct, Prepared, Says;
      Mark(c, due, x);
      r := Execute(c, x);
    }

    method ExecuteGroup(c: Command, ghost x: Context) returns (r: Exec)
      requires Entered(c, x) && c.form.Group?
      modifies this
      ensures Agrees(r, FormMeaning(world, c.id, c.form, x, c.invert, old(Now())))
      ensures r.Good? ==> Settled(c, x)
      decreases steps, c.form, 1, 0
    {
      hide Meaning, Says, InOrder, FormInOrder, Ids, FormIds, Distinct, DistinctForm, Grown;
      ghost var p := Part(x, c.invert);
      GroupParts(c.form, x, c.invert, flags, inner);
      r := ExecutePart(c.form.body, c.id in flags || c.invert, p);
      GroupParts(c.form, x, c.invert, flags, inner);
    }

    method ExecuteSequence(c: Command, ghost x: Context) returns (r: Exec)
      requires Entered(c, x) && c.form.Sequence?
      modifies this
      ensures Agrees(r, FormMeaning(world, c.id, c.form, x, c.invert, old(Now())))
      ensures r.Good? ==> Settled(c, x)
      decreases steps, c.form, 1, 0
    {
      hide Meaning, InOrder, FormInOrder, Ids, FormIds, Distinct, DistinctForm;
      var first, second := c.form.first, c.form.second;
      var due := c.id in flags || c.invert;
      ghost var p := Part(x, c.invert);
      SequenceParts(c.form, x, c.invert, flags, inner);
      Mark(first, due, p);
      OrderApart(second, p, Ids(first), old(flags), inner, flags, inner);
      label A:
      Mark(second, due, p);
      PreparedApart(first, p, Ids(second), old@A(flags), inner, flags, inner);
      label B:
      var _ :- Execute(first, p);
      PreparedApart(second, p, Ids(first), old@B(flags), old@B(inner), flags, inner);
      label C:
      var status :- Execute(second, p);
      PreparedApart(first, p, Ids(second), old@C(flags), old@C(inner), flags, inner);
      SequenceParts(c.form, x, c.invert, flags, inner);
      r := Good(status);
    }

    // && and ||.
    method ExecuteConnection(c: Command, ghost x: Context) returns (r: Exec)
      requires Entered(c, x) && c.form.Connection?
      modifies this
      ensures Agrees(r, FormMeaning(world, c.id, c.form, x, c.invert, old(Now())))
      ensures r.Good? ==> Settled(c, x)
      decreases steps, c.form, 1, 0
    {
      hide Meaning, InOrder, FormInOrder, Ids, FormIds, Distinct, DistinctForm;
      var first, second := c.form.first, c.form.second;
      var ignoreReturn := c.id in flags;
      ghost var p, q := Test(x), Right(x, c.invert);
      ConnectionParts(c.form, x, c.invert, flags, inner);
      var status :- ExecutePart(first, true, p);
      OrderApart(second, q, Ids(first), old(flags), old(inner), flags, inner);
      if (status != 0) == c.form.or {
        label A:
        status :- ExecutePart(second, ignoreReturn, q);
        OrderApart(first, p, Ids(second), old@A(flags), old@A(inner), flags, inner);
      }
      ConnectionParts(c.form, x, c.invert, flags, inner);
      r := Good(status);
    }

    method ExecuteIf(c: Command, ghost x: Context) returns (r: Exec)
      requires EnteredInner(c, x) && c.form.If?
      modifies this
      ensures Agrees(r, FormMeaning(world, c.id, c.form, x, c.invert, old(Now())))
      ensures r.Good? ==> Settled(c, x)
      decreases steps, c.form, 1, 0
    {
      hide Meaning, InOrder, FormInOrder, Ids, FormIds, Distinct, DistinctForm;
      var test := c.form.test;
      ghost var p, q := Test(x), Part(x, c.invert);
      IfParts(c.form, x, c.invert, flags, inner);
      var status :- ExecutePart(test, true, p);
      OrderApart(c.form.yes, q, Ids(test), old(flags), old(inner), flags, inner);
      OrderApart(c.form.no, q, Ids(test), old(flags), old(inner), flags, inner);
      var branch, other := c.form.yes, c.form.no;
      if status != 0 { branch, other := other, branch; }
      label A:
      status :- ExecutePart(branch, c.id in inner, q);
      OrderApart(test, p, Ids(branch), old@A(flags), old@A(inner), flags, inner);
      OrderApart(other, q, Ids(branch), old@A(flags), old@A(inner), flags, inner);
      IfParts(c.form, x, c.invert, flags, inner);
      r := Good(status);
    }

    // After the body of a loop: is the loop over?
    method Unwind(ghost r: Exec, ghost o: Outcome) returns (over: bool)
      requires r.Good? && Says(r, o) && Bounded(o, loopLevel)
      modifies `breaking, `continuing
      ensures over == !GoesOn(o)
      ensures if over then Says(r, Leave(o, o.status)) else AtRest()
    {
      if breaking > 0 {
        breaking := breaking - 1;
        return true;
      }
      if continuing > 0 {
        continuing := continuing - 1;
        if continuing > 0 { return true; }
      }
      over := false;
    }

    // After a test that ends the loop.
    method UnwindTest(ghost r: Exec, ghost o: Outcome, ghost status: int)
      requires r.Good? && Says(r, o) && Bounded(o, loopLevel)
      modifies `breaking, `continuing
      ensures Says(Good(status), if Abrupt(o) then Leave(o, status) else Normal(status))
    {
      if breaking > 0 { breaking := breaking - 1; }
      if continuing > 0 { continuing := continuing - 1; }
    }

    // while and until. A jump out of the test is unwound only if the test's
    // status ends the loop; otherwise the body is skipped over and it is then.
    method ExecuteWhileOrUntil(c: Command, ghost x: Context) returns (r: Exec)
      requires EnteredInner(c, x) && c.form.While?
      modifies this
      ensures Agrees(r, FormMeaning(world, c.id, c.form, x, c.invert, old(Now())))
      ensures r.Good? ==> Settled(c, x)
      decreases steps, c.form, 1, 0
    {
      hide Meaning, FormMeaning, WhileMeaning, WhileNext, Leave, InOrder, FormInOrder, Prepared, Ids, FormIds,
        Distinct, DistinctForm, Grown, Says;
      var f, test, body := c.form, c.form.test, c.form.body;
      ghost var q := InLoop(Part(x, c.invert));
      WhileForm(world, c.id, f, x, c.invert, Now());
      var bodyStatus, over := 0, false;
      loopLevel := loopLevel + 1;
      MarkLoop(c, x);
      while !over
        invariant loopLevel == q.loops && steps <= old(steps)
        invariant Prepared(test, Test(q), flags, inner) && Prepared(body, q, flags, inner)
        invariant Grown(FormIds(f), old(flags), old(inner), flags, inner)
        invariant if over then Agrees(Good(bodyStatus), WhileMeaning(world, f, q, old(Now()), 0))
                  else AtRest() && WhileMeaning(world, f, q, Now(), bodyStatus) == WhileMeaning(world, f, q, old(Now()), 0)
        decreases !over, steps
      {
        if steps == 0 {
          WhileCut(world, f, q, Now(), bodyStatus);
          SaysCut();
          return CutOff;
        }
        r, over := ExecuteRound(f, q, bodyStatus, old(flags), old(inner));
        if r.IsFailure() { return; }
        bodyStatus := r.status;
      }
      WhileInOrder(f, x, c.invert, flags, inner);
      loopLevel := loopLevel - 1;
      r := Good(bodyStatus);
    }

    // One round of a loop: the test and, unless that ends the loop, the body.
    method ExecuteRound(f: Form, ghost q: Context, bodyStatus: int, ghost f0: set<nat>, ghost i0: set<nat>)
      returns (r: Exec, over: bool)
      requires f.While? && AtRest() && q.errexit == errexit && q.loops == loopLevel && loopLevel > 0 && steps > 0
      requires Distinct(f.test) && Distinct(f.body) && Ids(f.test) !! Ids(f.body)
      requires FormIds(f) == Ids(f.test) + Ids(f.body)
      requires Prepared(f.test, Test(q), flags, inner) && Prepared(f.body, q, flags, inner)
      requires Grown(FormIds(f), f0, i0, flags, inner)
      modifies this
      ensures var m := WhileMeaning(world, f, q, old(Now()), bodyStatus);
              if !r.Good? || over then Agrees(r, m)
              else AtRest() && WhileMeaning(world, f, q, Now(), r.status) == m && steps < old(steps)
      ensures r.Good? ==>
                && Prepared(f.test, Test(q), flags, inner) && Prepared(f.body, q, flags, inner)
                && Grown(FormIds(f), f0, i0, flags, inner) && loopLevel == old(loopLevel)
      decreases steps, f, 0, 0
    {
      hide Meaning, WhileMeaning, WhileNext, Leave, InOrder, Prepared, Ids, FormIds, Distinct, Grown, Says;
      var test, body := f.test, f.body;
      WhileStep(world, f, q, Now(), bodyStatus);
      steps := steps - 1;
      ghost var t := Meaning(world, test, Test(q), Now());
      over := true;
      var status :- ExecuteBeside(test, Test(q), body, q, FormIds(f), f0, i0);
      if (status == 0) == f.until {
        UnwindTest(Good(status), t.out, bodyStatus);
        return Good(bodyStatus), true;
      }
      ghost var o := if AtRest() then Meaning(world, body, q, Now()) else t;
      WhileGoesOn(world, f, q, o);
      status :- ExecuteBeside(body, q, test, Test(q), FormIds(f), f0, i0);
      over := Unwind(Good(status), o.out);
      r := Good(status);
    }

    // Executes c next to a command d that stays prepared.
    method ExecuteBeside(c: Command, ghost x: Context, ghost d: Command, ghost y: Context,
                         ghost ids: set<nat>, ghost f0: set<nat>, ghost i0: set<nat>) returns (r: Exec)
      requires Ready(c, x) && !(breaking > 0 && continuing > 0)
      requires Prepared(d, y, flags, inner) && Ids(c) !! Ids(d) && Ids(c) <= ids && Grown(ids, f0, i0, flags, inner)
      modifies this
      ensures !old(AtRest()) ==> r == Good(lastStatus) && unchanged(this)
      ensures old(AtRest()) ==> Agrees(r, Meaning(world, c, x, old(Now())))
      ensures old(AtRest()) && r.Good? ==> Shaped(r, Meaning(world, c, x, old(Now())).out)
      ensures old(AtRest()) && !r.Good? ==> Ended(Meaning(world, c, x, old(Now())).out)
      ensures r.Good? && !AtRest() ==> r.status == lastStatus
      ensures r.Good? ==> loopLevel == old(loopLevel) && Prepared(c, x, flags, inner) && Prepared(d, y, flags, inner)
                          && Grown(ids, f0, i0, flags, inner)
      decreases steps, c, 1, 0
    {
      hide Meaning, InOrder, Prepared, Ids, Distinct, Grown;
      r := Execute(c, x);
      if r.Good? {
        PreparedApart(d, y, Ids(c), old(flags), old(inner), flags, inner);
        Grows(Ids(c), ids, f0, i0, old(flags), old(inner), flags, inner);
      }
    }

    // Marks the test of a loop, and its body if the loop is ignored.
    method MarkLoop(c: Command, ghost x: Context)
      requires c.Node? && c.form.While? && DistinctForm(c.form) && FormInOrder(c.form, x, c.invert, flags, inner)
      requires c.id in inner <==> Part(x, c.invert).ignored
      modifies `flags
      ensures var q := InLoop(Part(x, c.invert));
              Prepared(c.form.test, Test(q), flags, inner) && Prepared(c.form.body, q, flags, inner)
      ensures Grown(FormIds(c.form), old(flags), inner, flags, inner)
      ensures FormIds(c.form) == Ids(c.form.test) + Ids(c.form.body) && Ids(c.form.test) !! Ids(c.form.body)
      ensures Distinct(c.form.test) && Distinct(c.form.body)
    {
      hide InOrder, FormInOrder, Prepared, Ids, FormIds, Distinct, DistinctForm, Grown;
      var f, test, body := c.form, c.form.test, c.form.body;
      ghost var q := InLoop(Part(x, c.invert));
      WhileParts(f, x, c.invert, flags, inner);
      NoneGrown(FormIds(f), flags, inner);
      Mark(test, true, Test(q));
      Grows(Ids(test), FormIds(f), old(flags), inner, old(flags), inner, flags, inner);
      OrderApart(body, q, Ids(test), old(flags), inner, flags, inner);
      label A:
      Mark(body, c.id in inner, q);
      Grows(Ids(body), FormIds(f), old(flags), inner, old@A(flags), inner, flags, inner);
      PreparedApart(test, Test(q), Ids(body), old@A(flags), inner, flags, inner);
    }

    // Expands a word: the world answers.
    method Expand(id: nat) returns (answer: int)
      modifies `clock, `trace
      ensures (answer, Now()) == Ask(world, id, old(Now()))
    {
      answer := world(clock);
      clock := clock + 1;
      trace := trace + [Expanded(id, answer)];
    }

    method ExecuteFor(c: Command, ghost x: Context) returns (r: Exec)
      requires EnteredInner(c, x) && c.form.For?
      modifies this
      ensures Agrees(r, FormMeaning(world, c.id, c.form, x, c.invert, old(Now())))
      ensures r.Good? ==> Settled(c, x)
      decreases steps, c.form, 1, 0
    {
      hide Meaning, FormMeaning, ForMeaning, ForNext, Leave, InOrder, FormInOrder, Ids, FormIds,
        Distinct, DistinctForm, Says;
      var f := c.form;
      ghost var q := InLoop(Part(x, c.invert));
      ForForm(world, c.id, f, x, c.invert, Now());
      ForParts(f, x, c.invert, flags, inner);
      var bad := Expand(c.id);
      if bad != 0 {
        SaysDone(1);
        NoneGrown(FormIds(f), flags, inner);
        return Good(1);
      }
      loopLevel := loopLevel + 1;
      var words := Expand(c.id);
      if words < 0 { words := 0; }
      ghost var m := ForMeaning(world, c.id, f, q, words, Now(), 0);
      Mark(f.body, c.id in inner, q);
      var status, over := 0, false;
      while !over && words > 0
        invariant 0 <= words && loopLevel == q.loops && steps <= old(steps)
        invariant Prepared(f.body, q, flags, inner) && Grown(Ids(f.body), old(flags), old(inner), flags, inner)
        invariant if over then Agrees(Good(status), m)
                  else AtRest() && ForMeaning(world, c.id, f, q, words, Now(), status) == m
        decreases !over, words
      {
        r, over := ExecuteWord(c.id, f, q, words, status, old(flags), old(inner));
        if r.IsFailure() { return; }
        status := r.status;
        words := words - 1;
      }
      if !over {
        ForStops(world, c.id, f, q, Now(), status);
        SaysDone(status);
      }
      ForParts(f, x, c.invert, flags, inner);
      loopLevel := loopLevel - 1;
      r := Good(status);
    }

    lemma SaysDone(status: int)
      requires AtRest()
      ensures Says(Good(status), Normal(status))
    {
    }

    // One word of a for loop: binds the variable, which may be refused, and
    // executes the body.
    method ExecuteWord(id: nat, f: Form, ghost q: Context, ghost words: nat, ghost status: int,
                       ghost f0: set<nat>, ghost i0: set<nat>) returns (r: Exec, over: bool)
      requires f.For? && AtRest() && q.errexit == errexit && q.loops == loopLevel && loopLevel > 0 && words > 0
      requires Distinct(f.body) && Prepared(f.body, q, flags, inner) && Grown(Ids(f.body), f0, i0, flags, inner)
      modifies this
      ensures var m := ForMeaning(world, id, f, q, words, old(Now()), status);
              if !r.Good? || over then Agrees(r, m)
              else AtRest() && ForMeaning(world, id, f, q, words - 1, Now(), r.status) == m
      ensures steps <= old(steps)
      ensures r.Good? ==> Prepared(f.body, q, flags, inner) && Grown(Ids(f.body), f0, i0, flags, inner)
                          && loopLevel == old(loopLevel)
      decreases steps, f, 0, 0
    {
      hide Meaning, ForMeaning, ForNext, Leave, InOrder, Prepared, Ids, Distinct;
      ForStep(world, id, f, q, words, Now(), status);
      over := true;
      var denied := Expand(id);
      if denied != 0 { return Good(1), true; }
      ghost var o := Meaning(world, f.body, q, Now());
      ForGoesOn(world, id, f, q, words - 1, o);
      var bodyStatus :- Execute(f.body, q);
      over := Unwind(Good(bodyStatus), o.out);
      r := Good(bodyStatus);
    }

    // The patterns of a clause, up to the first that matches.
    method TestPatterns(id: nat, patterns: nat) returns (matched: bool)
      modifies `clock, `trace
      ensures (matched, Now()) == Matches(world, id, patterns, old(Now()))
    {
      var left := patterns;
      while left > 0
        invariant Matches(world, id, left, Now()) == Matches(world, id, patterns, old(Now()))
      {
        var answer := Expand(id);
        if answer != 0 { return true; }
        left := left - 1;
      }
      matched := false;
    }

    // How a case command has gone so far.
    ghost function SoFar(status: int): Result
      reads this
    {
      Result(if breaking > 0 then Break(breaking, status)
             else if continuing > 0 then Continue(continuing, status) else Normal(status), Now())
    }

    // While a case command runs, `clauses` being what is left of it.
    ghost predicate CaseInvariant(c: Command, clauses: Clauses, x: Context, status: int)
      reads this
    {
      && c.Node? && c.form.Case? && Within(clauses, c.form.clauses) && (c.form decreases to clauses)
      && DistinctClauses(c.form.clauses) && ClausesInOrder(c.form.clauses, x, flags, inner)
      && c.id !in FormIds(c.form) && (c.id in inner <==> x.ignored)
      && x.errexit == errexit && x.loops == loopLevel && breaking <= loopLevel && continuing <= loopLevel
      && !(breaking > 0 && continuing > 0) && (!AtRest() ==> status == lastStatus)
    }

    // The action of a clause.
    method ExecuteAction(c: Command, cl: Clauses, ghost x: Context, ghost status: int) returns (r: Exec)
      requires CaseInvariant(c, cl, x, status) && cl.Clause?
      modifies this
      ensures Agrees(r, if old(AtRest()) then Meaning(world, cl.action, x, old(Now())) else old(SoFar(status)))
      ensures r.Good? ==> CaseInvariant(c, cl, x, r.status)
                          && Grown(FormIds(c.form), old(flags), old(inner), flags, inner)
      decreases steps, cl, 0, 0
    {
      hide Meaning, InOrder, Ids, Distinct;
      ClauseReady(cl, c.form.clauses, x, flags, inner);
      Mark(cl.action, c.id in inner, x);
      r := Execute(cl.action, x);
      if r.Good? {
        ClauseDone(cl, c.form.clauses, x, old(flags), old(inner), flags, inner);
        assert Bounded(Meaning(world, cl.action, x, old(Now())).out, x.loops);
      }
    }

    method ExecuteCase(c: Command, ghost x: Context) returns (r: Exec)
      requires EnteredInner(c, x) && c.form.Case?
      modifies this
      ensures Agrees(r, FormMeaning(world, c.id, c.form, x, c.invert, old(Now())))
      ensures r.Good? ==> Settled(c, x)
      decreases steps, c.form, 1, 0
    {
      hide Meaning, FormMeaning, CaseMeaning, InOrder, FormInOrder, ClausesInOrder, Ids, FormIds, ClauseIds,
        Distinct, DistinctForm, DistinctClauses;
      ghost var p := Part(x, c.invert);
      CaseForm(world, c.id, c.form, x, c.invert, Now());
      CaseParts(c.form, x, c.invert, flags, inner);
      var clauses, status, over := c.form.clauses, 0, false;
      ghost var m := CaseMeaning(world, c.id, clauses, false, p, SoFar(0));
      while !over && clauses.Clause?
        invariant CaseInvariant(c, clauses, p, status) && steps <= old(steps)
        invariant Grown(FormIds(c.form), old(flags), old(inner), flags, inner)
        invariant if over then SoFar(status) == m else CaseMeaning(world, c.id, clauses, false, p, SoFar(status)) == m
        decreases !over, clauses
      {
        CaseTests(world, c.id, clauses, p, SoFar(status));
        var matched := TestPatterns(c.id, clauses.patterns);
        if matched {
          r, clauses := ExecuteChain(c, clauses, p, status, old(flags), old(inner));
          if r.IsFailure() { return; }
          status := r.status;
          over := clauses.NoClause? || !clauses.ending.TestNext?;
        }
        if !over {
          WithinNext(clauses, c.form.clauses);
          clauses := clauses.next;
        }
      }
      if !over { CaseStops(world, c.id, false, p, SoFar(status)); }
      CaseParts(c.form, x, c.invert, flags, inner);
      r := Good(status);
    }

    // The actions from a clause whose pattern matched on, up to and with the
    // first that does not fall through.
    method ExecuteChain(c: Command, first: Clauses, ghost x: Context, status: int,
                        ghost f0: set<nat>, ghost i0: set<nat>) returns (r: Exec, clauses: Clauses)
      requires CaseInvariant(c, first, x, status) && first.Clause? && Grown(FormIds(c.form), f0, i0, flags, inner)
      modifies this
      ensures steps <= old(steps)
      ensures var m := CaseMeaning(world, c.id, first, true, x, old(SoFar(status)));
              if !r.Good? then Agrees(r, m)
              else
                && CaseInvariant(c, clauses, x, r.status) && Grown(FormIds(c.form), f0, i0, flags, inner)
                && (clauses == first || (first decreases to clauses))
                && if clauses.NoClause? || !clauses.ending.TestNext? then SoFar(r.status) == m
                   else CaseMeaning(world, c.id, clauses.next, false, x, SoFar(r.status)) == m
      decreases steps, first, 1, 0
    {
      hide Meaning, CaseMeaning, InOrder, ClausesInOrder, Ids, FormIds, ClauseIds, Distinct, DistinctClauses;
      clauses := first;
      r := Good(status);
      while true
        invariant clauses.Clause? && r.Good? && CaseInvariant(c, clauses, x, r.status) && steps <= old(steps)
        invariant Grown(FormIds(c.form), f0, i0, flags, inner)
        invariant clauses == first || (first decreases to clauses)
        invariant CaseMeaning(world, c.id, clauses, true, x, SoFar(r.status))
               == CaseMeaning(world, c.id, first, true, x, old(SoFar(status)))
        decreases clauses
      {
        CaseActs(world, c.id, clauses, x, SoFar(r.status));
        r := ExecuteAction(c, clauses, x, r.status);
        if r.IsFailure() || !clauses.ending.FallThrough? { return; }
        WithinNext(clauses, c.form.clauses);
        clauses := clauses.next;
        if clauses.NoClause? {
          CaseStops(world, c.id, true, x, SoFar(r.status));
          return;
        }
      }
    }
  }
}
