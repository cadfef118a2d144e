// What the commands do to a run, construct by construct: which part runs,
// how often, and with what status.

module ShellLaws {
  import opened ShellSyntax
  import opened ShellMeaning
  import opened ShellPlaces
  import opened ShellRuns

  // All commands that ran are among these.
  predicate RanOnly(es: seq<Event>, ids: set<nat>) {
    forall i :: 0 <= i < |es| && es[i].Ran? ==> es[i].id in ids
  }

  // The one event is the running of this command.
  predicate JustRan(es: seq<Event>, c: Command) {
    c.Node? && c.form.Simple? ==> |es| == 1 && es[0].Ran? && es[0].id == c.id
  }

  // A negation turns success into 1 and every failure into success.
  predicate Negated(before: Outcome, after: Outcome) {
    match before
    case Normal(s) => after == Normal(if s == 0 then 1 else 0)
    case Break(k, s) => after == Break(k, if s == 0 then 1 else 0)
    case Continue(k, s) => after == Continue(k, if s == 0 then 1 else 0)
    case _ => after == before
  }

  // A command comes to what its part came to, or to the contrary.
  predicate ComesTo(invert: bool, part: Result, whole: Result) {
    whole.run == part.run && if invert then Negated(part.out, whole.out) else whole.out == part.out
  }

  lemma ComesToIs(w: World, c: Command, x: Context, run: Run)
    requires c.Node?
    ensures ComesTo(c.invert, FormMeaning(w, c.id, c.form, x, c.invert, run), Meaning(w, c, x, run))
  {
    hide FormMeaning;
  }

  // Where failures are ignored anyway, a negated command does what it does
  // otherwise, and comes to the contrary.
  lemma Negates(w: World, id: nat, f: Form, x: Context, run: Run)
    requires x.ignored
    ensures ComesTo(true, Meaning(w, Node(id, false, f), x, run), Meaning(w, Node(id, true, f), x, run))
  {
    hide Meaning, WhileMeaning, ForMeaning, CaseMeaning, SimpleMeaning, ComesTo;
    ComesToIs(w, Node(id, false, f), x, run);
    ComesToIs(w, Node(id, true, f), x, run);
    assert Part(x, true) == x == Part(x, false) && Right(x, true) == x == Right(x, false);
    assert FormMeaning(w, id, f, x, true, run) == FormMeaning(w, id, f, x, false, run);
    Contrary(FormMeaning(w, id, f, x, true, run), Meaning(w, Node(id, false, f), x, run), Meaning(w, Node(id, true, f), x, run));
  }

  lemma Contrary(part: Result, plain: Result, negated: Result)
    requires ComesTo(false, part, plain) && ComesTo(true, part, negated)
    ensures ComesTo(true, plain, negated)
  {
  }

  // Only a command's own parts run when it runs.
  lemma RunsWithin(w: World, c: Command, x: Context, run: Run) returns (es: seq<Event>)
    ensures Meaning(w, c, x, run).run.trace == run.trace + es && RanOnly(es, Ids(c)) && JustRan(es, c)
    ensures c.Null? ==> es == [] && Meaning(w, c, x, run) == Result(Normal(0), run)
  {
    es := CommandRuns(w, c, x, run);
    var o := Meaning(w, c, x, run).out;
    if c.Null? {
      assert run.trace + [] == run.trace;
      SameSuffix(run.trace, es, []);
    } else if c.form.Simple? {
      var a, p := c.form.action, Part(x, c.invert);
      SameSuffix(run.trace, es, [Event.Ran(c.id, Status(w, a, p.loops, run), p.ignored)]);
    }
    hide Meaning, Sound;
    forall i | 0 <= i < |es| && es[i].Ran? ensures es[i].id in Ids(c) {
      var p := PlaceAt(c, x, es, i, o, x.loops);
      PlaceInIds(c, p, es[i].id);
    }
  }

  lemma SameSuffix(a: seq<Event>, b: seq<Event>, c: seq<Event>)
    ensures a + b == a + c ==> b == c
  {
    if a + b == a + c { assert (a + b)[|a|..] == b && (a + c)[|a|..] == c; }
  }

  // ---------------------------------------------------------------- one or the other

  // After a test with status 0 only the first branch of an if command runs,
  // and after any other status only the second.
  lemma IfSelects(w: World, id: nat, invert: bool, t: Command, yes: Command, no: Command, x: Context, run: Run)
    returns (es: seq<Event>)
    requires Distinct(Node(id, invert, If(t, yes, no))) && Meaning(w, t, Test(x), run).out.Normal?
    ensures var r, tested := Meaning(w, Node(id, invert, If(t, yes, no)), x, run), Meaning(w, t, Test(x), run);
            var chosen, other := if tested.out.status == 0 then yes else no, if tested.out.status == 0 then no else yes;
            && r.run.trace == tested.run.trace + es && RanOnly(es, Ids(chosen)) && JustRan(es, chosen)
            && Ids(chosen) !! Ids(other) && Ids(chosen) !! Ids(t)
            && ComesTo(invert, Meaning(w, chosen, Part(x, invert), tested.run), r)
  {
    hide Meaning, FormMeaning;
    ComesToIs(w, Node(id, invert, If(t, yes, no)), x, run);
    IfForm(w, id, t, yes, no, x, invert, run);
    var tested := Meaning(w, t, Test(x), run);
    es := RunsWithin(w, if tested.out.status == 0 then yes else no, Part(x, invert), tested.run);
  }

  lemma IfForm(w: World, id: nat, t: Command, yes: Command, no: Command, x: Context, invert: bool, run: Run)
    ensures var tested := Meaning(w, t, Test(x), run);
            FormMeaning(w, id, If(t, yes, no), x, invert, run)
            == if !tested.out.Normal? then tested
               else if tested.out.status == 0 then Meaning(w, yes, Part(x, invert), tested.run)
               else Meaning(w, no, Part(x, invert), tested.run)
  {
    hide Meaning;
  }

  // The right side of && runs if and only if the left succeeds, that of || if
  // and only if it fails; otherwise the left has the last word.
  lemma ConnectionSelects(w: World, id: nat, invert: bool, or: bool, a: Command, b: Command, x: Context, run: Run)
    returns (es: seq<Event>)
    requires Distinct(Node(id, invert, Connection(or, a, b))) && Meaning(w, a, Test(x), run).out.Normal?
    ensures var r, left := Meaning(w, Node(id, invert, Connection(or, a, b)), x, run), Meaning(w, a, Test(x), run);
            && Ids(a) !! Ids(b) && r.run.trace == left.run.trace + es
            && if (if or then left.out.status != 0 else left.out.status == 0) then
                 RanOnly(es, Ids(b)) && JustRan(es, b) && ComesTo(invert, Meaning(w, b, Right(x, invert), left.run), r)
               else es == [] && ComesTo(invert, left, r)
  {
    hide Meaning, FormMeaning;
    ComesToIs(w, Node(id, invert, Connection(or, a, b)), x, run);
    ConnectionForm(w, id, or, a, b, x, invert, run);
    var left := Meaning(w, a, Test(x), run);
    es := [];
    if or == (left.out.status != 0) {
      es := RunsWithin(w, b, Right(x, invert), left.run);
    }
  }

  lemma ConnectionForm(w: World, id: nat, or: bool, a: Command, b: Command, x: Context, invert: bool, run: Run)
    ensures var left := Meaning(w, a, Test(x), run);
            FormMeaning(w, id, Connection(or, a, b), x, invert, run)
            == if !left.out.Normal? then left
               else if or == (left.out.status != 0) then Meaning(w, b, Right(x, invert), left.run)
               else left
  {
    hide Meaning;
  }

  // ---------------------------------------------------------------- one after the other

  lemma SequenceRunsBoth(w: World, id: nat, invert: bool, a: Command, b: Command, x: Context, run: Run)
    returns (es: seq<Event>)
    requires Distinct(Node(id, invert, Sequence(a, b))) && Meaning(w, a, Part(x, invert), run).out.Normal?
    ensures var r, first := Meaning(w, Node(id, invert, Sequence(a, b)), x, run), Meaning(w, a, Part(x, invert), run);
            && r.run.trace == first.run.trace + es && RanOnly(es, Ids(b)) && JustRan(es, b) && Ids(a) !! Ids(b)
            && ComesTo(invert, Meaning(w, b, Part(x, invert), first.run), r)
  {
    hide Meaning, FormMeaning;
    ComesToIs(w, Node(id, invert, Sequence(a, b)), x, run);
    SequenceForm(w, id, a, b, x, invert, run);
    es := RunsWithin(w, b, Part(x, invert), Meaning(w, a, Part(x, invert), run).run);
  }

  lemma SequenceForm(w: World, id: nat, a: Command, b: Command, x: Context, invert: bool, run: Run)
    ensures var first := Meaning(w, a, Part(x, invert), run);
            FormMeaning(w, id, Sequence(a, b), x, invert, run)
            == if first.out.Normal? then Meaning(w, b, Part(x, invert), first.run) else first
  {
    hide Meaning;
  }

  lemma GroupIsBody(w: World, id: nat, invert: bool, b: Command, x: Context, run: Run)
    ensures ComesTo(invert, Meaning(w, b, Part(x, invert), run), Meaning(w, Node(id, invert, Group(b)), x, run))
  {
    ComesToIs(w, Node(id, invert, Group(b)), x, run);
  }

  // When the first part jumps or ends the run, nothing else of the command runs.
  lemma NothingAfterJump(w: World, id: nat, invert: bool, f: Form, x: Context, run: Run)
    requires f.Sequence? || f.Connection? || f.If?
    requires var first := if f.If? then f.test else f.first;
             !Meaning(w, first, if f.Sequence? then Part(x, invert) else Test(x), run).out.Normal?
    ensures var first := if f.If? then f.test else f.first;
            ComesTo(invert, Meaning(w, first, if f.Sequence? then Part(x, invert) else Test(x), run),
                    Meaning(w, Node(id, invert, f), x, run))
  {
    hide Meaning;
    ComesToIs(w, Node(id, invert, f), x, run);
  }

  // ---------------------------------------------------------------- simple commands

  // A command from outside ends with the status it is given; break and
  // continue outside loops do nothing, with a count below 1 they fail and
  // leave every loop, and otherwise at most all of them.
  lemma SimpleEnds(w: World, id: nat, invert: bool, a: Action, x: Context, run: Run)
    requires !x.errexit || x.ignored || invert
    ensures var r := Meaning(w, Node(id, invert, Simple(a)), x, run);
            var status := if a.External? then w(run.clock) else if x.loops > 0 && a.n < 1 then 1 else 0;
            var k := if !a.External? && a.n < x.loops then a.n else x.loops;
            && r.run.trace == run.trace + [Ran(id, status, x.ignored || invert)]
            && r.run.clock == run.clock + (if a.External? then 1 else 0) && r.run.steps == run.steps
            && var before := if a.External? || x.loops == 0 then Normal(status)
                             else if a.n < 1 then Break(x.loops, 1)
                             else if a.BreakLoops? then Break(k, 0) else Continue(k, 0);
               if invert then Negated(before, r.out) else r.out == before
  {
    ComesToIs(w, Node(id, invert, Simple(a)), x, run);
  }

  // ---------------------------------------------------------------- over and over

  // One round of a while or until loop: the test, and if it lets the loop go
  // on, the body.
  function Tested(w: World, t: Command, x: Context, run: Run): Result
    requires run.steps > 0
  {
    Meaning(w, t, Test(x), run.(steps := run.steps - 1))
  }

  // Status 0 lets a while loop go on, any other an until loop.
  predicate LetsGoOn(until: bool, o: Outcome) {
    !Ended(o) && if until then o.status != 0 else o.status == 0
  }

  // How a round ended; a jump out of the test skips the body.
  function Round(w: World, t: Command, b: Command, x: Context, run: Run): Result
    requires run.steps > 0
  {
    var tested := Tested(w, t, x, run);
    if tested.out.Normal? then Meaning(w, b, x, tested.run) else tested
  }

  // The rounds of a loop that another round follows, n of them, from a run and
  // the status so far.
  predicate Rounds(w: World, until: bool, t: Command, b: Command, x: Context, run: Run, n: nat)
    decreases n
  {
    n == 0 ||
    (run.steps > 0 && LetsGoOn(until, Tested(w, t, x, run).out) &&
     var r := Round(w, t, b, x, run);
     (r.out.Normal? || (r.out.Continue? && r.out.levels == 1)) && Rounds(w, until, t, b, x, r.run, n - 1))
  }

  function AfterRounds(w: World, until: bool, t: Command, b: Command, x: Context, run: Run, status: int, n: nat): (Run, int)
    requires Rounds(w, until, t, b, x, run, n)
    decreases n
  {
    if n == 0 then (run, status)
    else
      var r := Round(w, t, b, x, run);
      AfterRounds(w, until, t, b, x, r.run, r.out.status, n - 1)
  }

  // What a loop comes to when it ends with this, `status` being that of its
  // last body: a jump has one loop less to go.
  function Left(o: Outcome, status: int): Outcome {
    match o
    case Break(k, _) => if k <= 1 then Normal(status) else Break(k - 1, status)
    case Continue(k, _) => if k <= 1 then Normal(status) else Continue(k - 1, status)
    case _ => Normal(status)
  }

  lemma {:induction false} RoundsPass(w: World, f: Form, x: Context, run: Run, status: int, n: nat)
    requires f.While? && x.loops > 0 && Rounds(w, f.until, f.test, f.body, x, run, n)
    ensures var (last, s) := AfterRounds(w, f.until, f.test, f.body, x, run, status, n);
            WhileMeaning(w, f, x, run, status) == WhileMeaning(w, f, x, last, s)
    decreases n
  {
    hide Meaning, WhileMeaning, WhileNext, Leave;
    if n > 0 {
      WhileStep(w, f, x, run, status);
      var r := Round(w, f.test, f.body, x, run);
      WhileGoesOn(w, f, x, r);
      RoundsPass(w, f, x, r.run, r.out.status, n - 1);
    }
  }

  // After any number of rounds the loop is cut, or ends at a test that does not
  // let it go on, with the status of the last body, 0 if there was none; or the
  // next round jumps out of it, or ends the run.
  lemma WhileRepeats(w: World, id: nat, invert: bool, until: bool, t: Command, b: Command, x: Context, run: Run, n: nat)
    requires Rounds(w, until, t, b, InLoop(Part(x, invert)), run, n)
    ensures var y := InLoop(Part(x, invert));
            var (last, status) := AfterRounds(w, until, t, b, y, run, 0, n);
            var r := Meaning(w, Node(id, invert, While(until, t, b)), x, run);
            if last.steps == 0 then r == Result(Cut, last)
            else
              var tested, round := Tested(w, t, y, last), Round(w, t, b, y, last);
              if Ended(tested.out) then r == tested
              else if !LetsGoOn(until, tested.out) then
                ComesTo(invert, Result(Left(tested.out, status), tested.run), r)
              else if Ended(round.out) then r == round
              else if Abrupt(round.out) && !(round.out.Continue? && round.out.levels == 1) then
                ComesTo(invert, Result(Left(round.out, round.out.status), round.run), r)
              else Rounds(w, until, t, b, y, run, n + 1)
  {
    hide Meaning, FormMeaning, WhileMeaning, WhileNext, ComesTo, Leave, Rounds, AfterRounds, Left;
    var y := InLoop(Part(x, invert));
    var f := While(until, t, b);
    ComesToIs(w, Node(id, invert, f), x, run);
    WhileForm(w, id, f, x, invert, run);
    RoundsPass(w, f, y, run, 0, n);
    var (last, status) := AfterRounds(w, until, t, b, y, run, 0, n);
    var r := Meaning(w, Node(id, invert, f), x, run);
    if last.steps == 0 {
      WhileCut(w, f, y, last, status);
      ComesToEnded(invert, Result(Cut, last), r);
    } else {
      WhileStep(w, f, y, last, status);
      var tested, round := Tested(w, t, y, last), Round(w, t, b, y, last);
      WhileGoesOn(w, f, y, round);
      if Ended(tested.out) {
        ComesToEnded(invert, tested, r);
      } else if !LetsGoOn(until, tested.out) {
        Leaves(tested.out, status);
      } else if Ended(round.out) {
        ComesToEnded(invert, round, r);
      } else if Abrupt(round.out) && !(round.out.Continue? && round.out.levels == 1) {
        Leaves(round.out, round.out.status);
      } else {
        OneRound(w, until, t, b, y, last);
        OneMoreRound(w, until, t, b, y, run, 0, n);
      }
    }
  }

  lemma ComesToEnded(invert: bool, part: Result, r: Result)
    requires ComesTo(invert, part, r) && Ended(part.out)
    ensures r == part
  {
  }

  lemma Leaves(o: Outcome, status: int)
    requires !Ended(o) && (Abrupt(o) ==> o.levels > 0)
    ensures Left(o, status) == if Abrupt(o) then Leave(o, status) else Normal(status)
  {
  }

  lemma OneRound(w: World, until: bool, t: Command, b: Command, x: Context, run: Run)
    requires run.steps > 0 && LetsGoOn(until, Tested(w, t, x, run).out)
    requires var o := Round(w, t, b, x, run).out; o.Normal? || (o.Continue? && o.levels == 1)
    ensures Rounds(w, until, t, b, x, run, 1)
  {
    hide Meaning;
    assert Rounds(w, until, t, b, x, Round(w, t, b, x, run).run, 0);
  }

  lemma {:induction false} OneMoreRound(w: World, until: bool, t: Command, b: Command, x: Context, run: Run, status: int, n: nat)
    requires Rounds(w, until, t, b, x, run, n)
    requires Rounds(w, until, t, b, x, AfterRounds(w, until, t, b, x, run, status, n).0, 1)
    ensures Rounds(w, until, t, b, x, run, n + 1)
    decreases n
  {
    hide Meaning;
    if n > 0 {
      var r := Round(w, t, b, x, run);
      OneMoreRound(w, until, t, b, x, r.run, r.out.status, n - 1);
    }
  }

  // One word of a for loop: whether its variable can be assigned, then the body.
  function Word(w: World, id: nat, b: Command, x: Context, run: Run): Result {
    Meaning(w, b, x, Ask(w, id, run).1)
  }

  // The first n words of a for loop, each followed by another or the end.
  predicate Words(w: World, id: nat, b: Command, x: Context, run: Run, n: nat)
    decreases n
  {
    n == 0 ||
    (w(run.clock) == 0 &&
     var r := Word(w, id, b, x, run);
     (r.out.Normal? || (r.out.Continue? && r.out.levels == 1)) && Words(w, id, b, x, r.run, n - 1))
  }

  function AfterWords(w: World, id: nat, b: Command, x: Context, run: Run, status: int, n: nat): (Run, int)
    requires Words(w, id, b, x, run, n)
    decreases n
  {
    if n == 0 then (run, status)
    else
      var r := Word(w, id, b, x, run);
      AfterWords(w, id, b, x, r.run, r.out.status, n - 1)
  }

  lemma {:induction false} WordsPass(w: World, id: nat, f: Form, x: Context, run: Run, status: int, n: nat, more: nat)
    requires f.For? && x.loops > 0 && Words(w, id, f.body, x, run, n)
    ensures var (last, s) := AfterWords(w, id, f.body, x, run, status, n);
            ForMeaning(w, id, f, x, n + more, run, status) == ForMeaning(w, id, f, x, more, last, s)
    decreases n
  {
    hide Meaning, ForMeaning, ForNext, Leave;
    if n > 0 {
      ForStep(w, id, f, x, n + more, run, status);
      var r := Word(w, id, f.body, x, run);
      ForGoesOn(w, id, f, x, n - 1 + more, r);
      WordsPass(w, id, f, x, r.run, r.out.status, n - 1, more);
    }
  }

  // A for loop whose variable has a bad name fails. Otherwise the body runs once
  // for every word, and the status is the last body's, 0 if there was none;
  // unless before that an assignment is refused, which fails, or a round jumps
  // out of the loop, or ends the run.
  lemma ForRepeats(w: World, id: nat, invert: bool, b: Command, x: Context, run: Run, n: nat)
    requires var words := Ask(w, id, Ask(w, id, run).1);
             w(run.clock) == 0 && n <= (if words.0 < 0 then 0 else words.0)
             && Words(w, id, b, InLoop(Part(x, invert)), words.1, n)
    ensures var y := InLoop(Part(x, invert));
            var (words, run0) := Ask(w, id, Ask(w, id, run).1);
            var (last, status) := AfterWords(w, id, b, y, run0, 0, n);
            var r := Meaning(w, Node(id, invert, For(b)), x, run);
            if n >= words then ComesTo(invert, Result(Normal(status), last), r)
            else if w(last.clock) != 0 then ComesTo(invert, Result(Normal(1), Ask(w, id, last).1), r)
            else
              var round := Word(w, id, b, y, last);
              if Ended(round.out) then r == round
              else if Abrupt(round.out) && !(round.out.Continue? && round.out.levels == 1) then
                ComesTo(invert, Result(Left(round.out, round.out.status), round.run), r)
              else Words(w, id, b, y, run0, n + 1)
  {
    hide Meaning, FormMeaning, ForMeaning, ForNext, ComesTo, Leave, Words, AfterWords, Left;
    var y, f := InLoop(Part(x, invert)), For(b);
    var (words, run0) := Ask(w, id, Ask(w, id, run).1);
    ComesToIs(w, Node(id, invert, f), x, run);
    ForForm(w, id, f, x, invert, run);
    var more := (if words < 0 then 0 else words) - n;
    WordsPass(w, id, f, y, run0, 0, n, more);
    var (last, status) := AfterWords(w, id, b, y, run0, 0, n);
    var r := Meaning(w, Node(id, invert, f), x, run);
    if more == 0 {
      ForStops(w, id, f, y, last, status);
    } else {
      ForStep(w, id, f, y, more, last, status);
      if w(last.clock) == 0 {
        var round := Word(w, id, b, y, last);
        ForGoesOn(w, id, f, y, more - 1, round);
        if Ended(round.out) {
          ComesToEnded(invert, round, r);
        } else if Abrupt(round.out) && !(round.out.Continue? && round.out.levels == 1) {
          Leaves(round.out, round.out.status);
        } else {
          OneWord(w, id, b, y, last);
          OneMoreWord(w, id, b, y, run0, 0, n);
        }
      }
    }
  }

  lemma BadName(w: World, id: nat, invert: bool, b: Command, x: Context, run: Run)
    requires w(run.clock) != 0
    ensures ComesTo(invert, Result(Normal(1), Ask(w, id, run).1), Meaning(w, Node(id, invert, For(b)), x, run))
  {
    hide Meaning, FormMeaning, ForMeaning;
    ComesToIs(w, Node(id, invert, For(b)), x, run);
    ForForm(w, id, For(b), x, invert, run);
  }

  lemma OneWord(w: World, id: nat, b: Command, x: Context, run: Run)
    requires w(run.clock) == 0
    requires var o := Word(w, id, b, x, run).out; o.Normal? || (o.Continue? && o.levels == 1)
    ensures Words(w, id, b, x, run, 1)
  {
    hide Meaning;
    assert Words(w, id, b, x, Word(w, id, b, x, run).run, 0);
  }

  lemma {:induction false} OneMoreWord(w: World, id: nat, b: Command, x: Context, run: Run, status: int, n: nat)
    requires Words(w, id, b, x, run, n)
    requires Words(w, id, b, x, AfterWords(w, id, b, x, run, status, n).0, 1)
    ensures Words(w, id, b, x, run, n + 1)
    decreases n
  {
    hide Meaning;
    if n > 0 {
      var r := Word(w, id, b, x, run);
      OneMoreWord(w, id, b, x, r.run, r.out.status, n - 1);
    }
  }

  // ---------------------------------------------------------------- one of many

  // After asking for n patterns.
  function Asked(w: World, id: nat, run: Run, n: nat): Run {
    run.(clock := run.clock + n, trace := run.trace + seq(n, i requires 0 <= i => Expanded(id, w(run.clock + i))))
  }

  // The patterns of the first k clauses.
  function Patterns(cl: Clauses, k: nat): nat {
    if k == 0 || cl.NoClause? then 0 else cl.patterns + Patterns(cl.next, k - 1)
  }

  predicate NoneMatch(w: World, run: Run, n: nat) { forall t: nat :: run.clock <= t < run.clock + n ==> w(t) == 0 }

  lemma AskedMore(w: World, id: nat, run: Run, m: nat, n: nat)
    ensures Asked(w, id, Asked(w, id, run, m), n) == Asked(w, id, run, m + n)
  {
    var a := seq(m, i requires 0 <= i => Expanded(id, w(run.clock + i)));
    var b := seq(n, i requires 0 <= i => Expanded(id, w(run.clock + m + i)));
    var c := seq(m + n, i requires 0 <= i => Expanded(id, w(run.clock + i)));
    assert a + b == c;
    assert run.trace + a + b == run.trace + c;
  }

  lemma {:induction false} MatchesFirst(w: World, id: nat, n: nat, run: Run, j: nat)
    requires j <= n && NoneMatch(w, run, j) && (j < n ==> w(run.clock + j) != 0)
    ensures Matches(w, id, n, run) == if j < n then (true, Asked(w, id, run, j + 1)) else (false, Asked(w, id, run, n))
    decreases n
  {
    if n > 0 {
      var run' := Ask(w, id, run).1;
      assert run' == Asked(w, id, run, 1);
      if j > 0 {
        assert w(run.clock) == 0 && NoneMatch(w, run', j - 1);
        MatchesFirst(w, id, n - 1, run', j - 1);
        AskedMore(w, id, run, 1, if j < n then j else n - 1);
      }
    } else {
      assert Asked(w, id, run, 0) == run;
    }
  }

  // The patterns are tried in order. The first that matches, the j-th of the
  // k-th clause, selects that clause.
  lemma {:induction false} Searches(w: World, id: nat, cl: Clauses, x: Context, so: Result, k: nat, j: nat)
    requires Bounded(so.out, x.loops) && !Ended(so.out) && Drop(cl, k).Clause? && j < Drop(cl, k).patterns
    requires var g := Patterns(cl, k) + j; NoneMatch(w, so.run, g) && w(so.run.clock + g) != 0
    ensures CaseMeaning(w, id, cl, false, x, so)
         == CaseMeaning(w, id, Drop(cl, k), true, x, Result(so.out, Asked(w, id, so.run, Patterns(cl, k) + j + 1)))
    decreases k
  {
    hide CaseMeaning, Matches;
    CaseTests(w, id, cl, x, so);
    if k == 0 {
      MatchesFirst(w, id, cl.patterns, so.run, j);
    } else {
      var g := Patterns(cl, k) + j;
      MatchesFirst(w, id, cl.patterns, so.run, cl.patterns);
      var so' := Result(so.out, Asked(w, id, so.run, cl.patterns));
      assert w(so'.run.clock + (g - cl.patterns)) == w(so.run.clock + g);
      assert NoneMatch(w, so'.run, g - cl.patterns);
      Searches(w, id, cl.next, x, so', k - 1, j);
      AskedMore(w, id, so.run, cl.patterns, Patterns(cl.next, k - 1) + j + 1);
    }
  }

  function AllPatterns(cl: Clauses): nat {
    if cl.NoClause? then 0 else cl.patterns + AllPatterns(cl.next)
  }

  // When none matches nothing runs.
  lemma {:induction false} SearchesInVain(w: World, id: nat, cl: Clauses, x: Context, so: Result)
    requires Bounded(so.out, x.loops) && !Ended(so.out) && NoneMatch(w, so.run, AllPatterns(cl))
    ensures CaseMeaning(w, id, cl, false, x, so) == Result(so.out, Asked(w, id, so.run, AllPatterns(cl)))
    decreases cl
  {
    hide CaseMeaning, Matches;
    if cl.NoClause? {
      CaseStops(w, id, false, x, so);
      assert Asked(w, id, so.run, 0) == so.run;
    } else {
      CaseTests(w, id, cl, x, so);
      MatchesFirst(w, id, cl.patterns, so.run, cl.patterns);
      var so' := Result(so.out, Asked(w, id, so.run, cl.patterns));
      assert NoneMatch(w, so'.run, AllPatterns(cl.next));
      SearchesInVain(w, id, cl.next, x, so');
      AskedMore(w, id, so.run, cl.patterns, AllPatterns(cl.next));
    }
  }

  // The clause of the first pattern that matches is the one whose action runs;
  // after ;; the command is over.
  lemma CaseSelects(w: World, id: nat, invert: bool, cl: Clauses, x: Context, run: Run, k: nat, j: nat)
    returns (es: seq<Event>)
    requires Drop(cl, k).Clause? && j < Drop(cl, k).patterns
    requires var g := Patterns(cl, k) + j; NoneMatch(w, run, g) && w(run.clock + g) != 0
    ensures var chosen := Drop(cl, k);
            var run' := Asked(w, id, run, Patterns(cl, k) + j + 1);
            var acted := Meaning(w, chosen.action, Part(x, invert), run');
            var r := Meaning(w, Node(id, invert, Case(cl)), x, run);
            && acted.run.trace == run'.trace + es && RanOnly(es, Ids(chosen.action)) && JustRan(es, chosen.action)
            && if chosen.ending.Stop? || chosen.next.NoClause? || Ended(acted.out) then ComesTo(invert, acted, r)
               else ComesTo(invert, CaseMeaning(w, id, chosen.next, chosen.ending.FallThrough?, Part(x, invert), acted), r)
  {
    hide Meaning, FormMeaning, CaseMeaning, ComesTo;
    var p := Part(x, invert);
    ComesToIs(w, Node(id, invert, Case(cl)), x, run);
    CaseForm(w, id, Case(cl), x, invert, run);
    Searches(w, id, cl, p, Result(Normal(0), run), k, j);
    var chosen := Drop(cl, k);
    var so := Result(Normal(0), Asked(w, id, run, Patterns(cl, k) + j + 1));
    CaseActs(w, id, chosen, p, so);
    es := RunsWithin(w, chosen.action, p, so.run);
    var acted := Meaning(w, chosen.action, p, so.run);
    if !Ended(acted.out) && chosen.next.NoClause? { CaseStops(w, id, chosen.ending.FallThrough?, p, acted); }
  }

  lemma CaseSelectsNone(w: World, id: nat, invert: bool, cl: Clauses, x: Context, run: Run)
    requires NoneMatch(w, run, AllPatterns(cl))
    ensures ComesTo(invert, Result(Normal(0), Asked(w, id, run, AllPatterns(cl))), Meaning(w, Node(id, invert, Case(cl)), x, run))
  {
    hide Meaning, FormMeaning, CaseMeaning, ComesTo;
    ComesToIs(w, Node(id, invert, Case(cl)), x, run);
    CaseForm(w, id, Case(cl), x, invert, run);
    SearchesInVain(w, id, cl, Part(x, invert), Result(Normal(0), run));
  }

  // After ;& the action of the next clause runs, its patterns not looked at.
  lemma FallsThrough(w: World, id: nat, cl: Clauses, x: Context, so: Result) returns (es: seq<Event>)
    requires so.out.Normal? && cl.Clause?
    ensures var acted := Meaning(w, cl.action, x, so.run);
            var rest := CaseMeaning(w, id, cl, true, x, so);
            && acted.run.trace == so.run.trace + es && RanOnly(es, Ids(cl.action)) && JustRan(es, cl.action)
            && if cl.ending.Stop? || cl.next.NoClause? || Ended(acted.out) then rest == acted
               else rest == CaseMeaning(w, id, cl.next, cl.ending.FallThrough?, x, acted)
  {
    hide Meaning, CaseMeaning;
    CaseActs(w, id, cl, x, so);
    es := RunsWithin(w, cl.action, x, so.run);
    var acted := Meaning(w, cl.action, x, so.run);
    if !Ended(acted.out) && cl.next.NoClause? { CaseStops(w, id, cl.ending.FallThrough?, x, acted); }
  }
}
