// What every run looks like. Under `set -e` each simple command that ran is
// at a place in the script, its failure ignored exactly where that place is
// shielded, and the run ends at the first failure that is not. A jump comes
// from a break or continue after which no command runs until the loop it
// names is reached.

module ShellRuns {
  import opened ShellSyntax
  import opened ShellMeaning
  import opened ShellPlaces

  predicate Fatal(e: Event) { e.Ran? && e.status != 0 && !e.ignored }

  // How many loops a jump of n out of `loops` leaves standing.
  function Standing(n: int, loops: nat): nat {
    if n <= 0 || n > loops then 0 else loops - n
  }

  // The event is the running of some simple command of c, ignored as its
  // place says; and if that is a jump to outside `depth` loops, then the run
  // goes there.
  ghost predicate Placed(c: Command, x: Context, es: seq<Event>, i: nat, o: Outcome, depth: nat)
    requires i < |es|
  {
    es[i].Ran? ==> exists p :: PlaceOf(c, x, p, es[i]) && Goes(At(c, p).form.action, x.loops + LoopsOn(c, p), es, i, o, depth)
  }

  predicate PlaceOf(c: Command, x: Context, p: Path, e: Event) {
    e.Ran? && SimpleAt(c, p, e.id) && (x.errexit ==> e.ignored == (x.ignored || Shielded(c, p)))
  }

  // A jump out of `loops` loops leaves fewer than `depth` standing.
  predicate JumpsOut(a: Action, loops: nat, depth: nat) {
    !a.External? && loops > 0 && Standing(a.n, loops) < depth
  }

  predicate Goes(a: Action, loops: nat, es: seq<Event>, i: nat, o: Outcome, depth: nat) {
    JumpsOut(a, loops, depth) ==>
      || (o.Exit? && i == |es| - 1)
      || (Abrupt(o) && depth - o.levels == Standing(a.n, loops) && forall j :: i < j < |es| ==> es[j].Expanded?)
  }

  // The jump o, met inside `depth` loops, was raised by the simple command id
  // at some place: it leaves standing as many loops as that command asks for.
  ghost predicate Raised(c: Command, x: Context, id: nat, o: Outcome, depth: nat) {
    Abrupt(o) ==>
      exists p :: SimpleAt(c, p, id) && RaisedAt(At(c, p).form.action, x.loops + LoopsOn(c, p), o, depth)
  }

  predicate RaisedAt(a: Action, loops: nat, o: Outcome, depth: nat)
    requires Abrupt(o)
  {
    !a.External? && depth - o.levels == Standing(a.n, loops) && (o.Break? <==> a.BreakLoops? || a.n <= 0)
  }

  // The last command to run among the events.
  predicate LastRan(es: seq<Event>, id: nat)
    decreases |es|
  {
    es != [] && var e := es[|es| - 1]; if e.Ran? then e.id == id else LastRan(es[..|es| - 1], id)
  }

  // The events of executing c, or part of it, with outcome o.
  ghost predicate Sound(c: Command, x: Context, es: seq<Event>, o: Outcome, depth: nat) {
    && (forall i :: 0 <= i < |es| ==> Placed(c, x, es, i, o, depth))
    && (forall i :: 0 <= i < |es| && x.errexit && Fatal(es[i]) ==> o.Exit? && i == |es| - 1)
    && (o.Exit? ==> x.errexit && es != [] && Fatal(es[|es| - 1]) && es[|es| - 1].status == o.status)
    && (Abrupt(o) ==> exists id :: LastRan(es, id) && Raised(c, x, id, o, depth))
  }

  // ---------------------------------------------------------------- building runs

  // The context a turn leads to.
  function TurnContext(c: Command, x: Context, t: Turn): Context
    requires c.Node?
  {
    Context(x.errexit, if Loops(c.form, t) then x.loops + 1 else x.loops,
            if c.form.Connection? && t.Second? then Right(x, c.invert).ignored
            else x.ignored || c.invert || Tests(c.form, t))
  }

  lemma PlaceBelow(c: Command, t: Turn, p: Path, id: nat)
    requires c.Node? && SimpleAt(Child(c.form, t), p, id)
    ensures SimpleAt(c, [t] + p, id) && At(c, [t] + p) == At(Child(c.form, t), p)
    ensures Shielded(c, [t] + p) == (c.invert || Tests(c.form, t) || Shielded(Child(c.form, t), p))
    ensures LoopsOn(c, [t] + p) == (if Loops(c.form, t) then 1 else 0) + LoopsOn(Child(c.form, t), p)
  {
    assert ([t] + p)[1..] == p;
  }

  lemma EventBelow(c: Command, x: Context, t: Turn, es: seq<Event>, i: nat, o: Outcome, depth: nat)
    requires c.Node? && i < |es| && Placed(Child(c.form, t), TurnContext(c, x, t), es, i, o, depth)
    ensures Placed(c, x, es, i, o, depth)
  {
    hide Goes;
    if es[i].Ran? {
      var d, y := Child(c.form, t), TurnContext(c, x, t);
      var p :| PlaceOf(d, y, p, es[i]) && Goes(At(d, p).form.action, y.loops + LoopsOn(d, p), es, i, o, depth);
      PlaceBelow(c, t, p, es[i].id);
      assert PlaceOf(c, x, [t] + p, es[i]);
    }
  }

  // An event of a run stays placed when the run goes on, or is looked at from
  // fewer loops, provided a jump under way keeps its target or has reached it.
  lemma EventThen(c: Command, x: Context, es: seq<Event>, o: Outcome, d: nat, i: nat, all: seq<Event>, o': Outcome, d': nat)
    requires i < |es| && es <= all && Placed(c, x, es, i, o, d) && d' <= d && !o.Exit?
    requires Abrupt(o) ==>
               || (o.levels == 1 && d' < d)
               || (Abrupt(o') && d' - o'.levels == d - o.levels && forall j :: |es| <= j < |all| ==> all[j].Expanded?)
    ensures Placed(c, x, all, i, o', d')
  {
    if es[i].Ran? {
      var p :| PlaceOf(c, x, p, es[i]) && Goes(At(c, p).form.action, x.loops + LoopsOn(c, p), es, i, o, d);
      assert PlaceOf(c, x, p, all[i]) && Goes(At(c, p).form.action, x.loops + LoopsOn(c, p), all, i, o', d');
    }
  }

  // An event of a later part.
  lemma EventAfter(c: Command, x: Context, before: seq<Event>, fs: seq<Event>, o: Outcome, d: nat, i: nat)
    requires i < |fs| && Placed(c, x, fs, i, o, d)
    ensures Placed(c, x, before + fs, |before| + i, o, d)
  {
    var all := before + fs;
    if fs[i].Ran? {
      var p :| PlaceOf(c, x, p, fs[i]) && Goes(At(c, p).form.action, x.loops + LoopsOn(c, p), fs, i, o, d);
      assert forall j :: i < j < |fs| ==> all[|before| + j] == fs[j];
      assert PlaceOf(c, x, p, all[|before| + i]);
      assert Goes(At(c, p).form.action, x.loops + LoopsOn(c, p), all, |before| + i, o, d) by {
        assert forall k :: |before| + i < k < |all| ==> all[k] == fs[k - |before|];
      }
    }
  }

  lemma JumpBelow(c: Command, x: Context, t: Turn, id: nat, o: Outcome, depth: nat)
    requires c.Node? && Raised(Child(c.form, t), TurnContext(c, x, t), id, o, depth)
    ensures Raised(c, x, id, o, depth)
  {
    if Abrupt(o) {
      var d := Child(c.form, t);
      var p :| SimpleAt(d, p, id) && RaisedAt(At(d, p).form.action, TurnContext(c, x, t).loops + LoopsOn(d, p), o, depth);
      PlaceBelow(c, t, p, id);
    }
  }

  // A run of a part is a run of the whole.
  lemma SoundBelow(c: Command, x: Context, t: Turn, es: seq<Event>, o: Outcome, depth: nat)
    requires c.Node? && Sound(Child(c.form, t), TurnContext(c, x, t), es, o, depth)
    ensures Sound(c, x, es, o, depth)
  {
    hide Placed, Raised, LastRan, Fatal;
    forall i | 0 <= i < |es| ensures Placed(c, x, es, i, o, depth) {
      EventBelow(c, x, t, es, i, o, depth);
    }
    if Abrupt(o) {
      var id :| LastRan(es, id) && Raised(Child(c.form, t), TurnContext(c, x, t), id, o, depth);
      JumpBelow(c, x, t, id, o, depth);
    }
  }

  lemma {:induction false} LastRanLater(es: seq<Event>, fs: seq<Event>, id: nat)
    requires LastRan(fs, id)
    ensures LastRan(es + fs, id)
    decreases |fs|
  {
    var n := |fs| - 1;
    assert (es + fs)[|es + fs| - 1] == fs[n] && (es + fs)[..|es + fs| - 1] == es + fs[..n];
    if !fs[n].Ran? { LastRanLater(es, fs[..n], id); }
  }

  // Runs follow one another; a jump that is over by then does not matter.
  lemma SoundThen(c: Command, x: Context, es: seq<Event>, o: Outcome, d: nat, fs: seq<Event>, o': Outcome, d': nat)
    requires Sound(c, x, es, o, d) && !o.Exit? && Sound(c, x, fs, o', d')
    requires d' <= d && (Abrupt(o) ==> o.levels == 1 && d' < d)
    ensures Sound(c, x, es + fs, o', d')
  {
    hide Placed, Raised, LastRan, Fatal;
    var all := es + fs;
    forall i | 0 <= i < |all|
      ensures Placed(c, x, all, i, o', d') && (x.errexit && Fatal(all[i]) ==> o'.Exit? && i == |all| - 1)
    {
      assert all[i] == if i < |es| then es[i] else fs[i - |es|];
      if i < |es| { EventThen(c, x, es, o, d, i, all, o', d'); } else { EventAfter(c, x, es, fs, o', d', i - |es|); }
    }
    if o'.Exit? { assert all[|all| - 1] == fs[|fs| - 1]; }
    if Abrupt(o') {
      var id :| LastRan(fs, id) && Raised(c, x, id, o', d');
      LastRanLater(es, fs, id);
    }
  }

  // A jump that is over, or has left loops, or was negated.
  lemma SoundAs(c: Command, x: Context, es: seq<Event>, o: Outcome, d: nat, o': Outcome, d': nat)
    requires Sound(c, x, es, o, d) && !o.Exit? && !o'.Exit?
    requires Abrupt(o') ==> Abrupt(o) && o'.Break? == o.Break? && d' - o'.levels == d - o.levels
    requires d' <= d && (Abrupt(o) && !Abrupt(o') ==> o.levels == 1 && d' < d)
    ensures Sound(c, x, es, o', d')
  {
    hide Placed, LastRan, Fatal;
    forall i | 0 <= i < |es| ensures Placed(c, x, es, i, o', d') { EventThen(c, x, es, o, d, i, es, o', d'); }
    if Abrupt(o') {
      var id :| LastRan(es, id) && Raised(c, x, id, o, d);
      assert Raised(c, x, id, o', d');
    }
  }

  // Expanding words changes nothing.
  lemma SoundExpanding(c: Command, x: Context, es: seq<Event>, o: Outcome, d: nat, id: nat, answer: int)
    requires Sound(c, x, es, o, d) && !o.Exit?
    ensures Sound(c, x, es + [Expanded(id, answer)], o, d)
  {
    hide Raised, Placed;
    var all := es + [Expanded(id, answer)];
    assert all[..|all| - 1] == es;
    forall i | 0 <= i < |all| ensures Placed(c, x, all, i, o, d) {
      if i < |es| { EventThen(c, x, es, o, d, i, all, o, d); } else { ExpandedPlaced(c, x, all, i, o, d); }
    }
    if Abrupt(o) {
      var k :| LastRan(es, k) && Raised(c, x, k, o, d);
      assert LastRan(all, k);
    }
  }

  lemma ExpandedPlaced(c: Command, x: Context, es: seq<Event>, i: nat, o: Outcome, d: nat)
    requires i < |es| && es[i].Expanded?
    ensures Placed(c, x, es, i, o, d)
  {
  }

  lemma SoundNothing(c: Command, x: Context, status: int, d: nat)
    ensures Sound(c, x, [], Normal(status), d)
  {
  }

  // ---------------------------------------------------------------- all runs

  lemma TraceGrows(s: seq<Event>, a: seq<Event>, b: seq<Event>)
    ensures s + a + b == s + (a + b)
  {
  }

  lemma {:induction false} CommandRuns(w: World, c: Command, x: Context, run: Run) returns (es: seq<Event>)
    ensures var r := Meaning(w, c, x, run); r.run.trace == run.trace + es && Sound(c, x, es, r.out, x.loops)
    decreases run.steps, c, 0, 0
  {
    hide FormMeaning, Sound;
    if c.Null? {
      es := [];
      SoundNothing(c, x, 0, x.loops);
    } else {
      es := FormRuns(w, c, x, run);
      var r := FormMeaning(w, c.id, c.form, x, c.invert, run);
      if !r.out.Exit? { SoundAs(c, x, es, r.out, x.loops, Inverted(c.invert, r).out, x.loops); }
    }
  }

  lemma {:induction false} PartRuns(w: World, c: Command, x: Context, t: Turn, run: Run) returns (es: seq<Event>)
    requires c.Node?
    ensures var y := TurnContext(c, x, t);
            var r := Meaning(w, Child(c.form, t), y, run);
            r.run.trace == run.trace + es && Sound(c, x, es, r.out, y.loops)
    decreases run.steps, Child(c.form, t), 1, 0
  {
    hide Meaning, Sound;
    var y := TurnContext(c, x, t);
    es := CommandRuns(w, Child(c.form, t), y, run);
    SoundBelow(c, x, t, es, Meaning(w, Child(c.form, t), y, run).out, y.loops);
  }

  lemma {:induction false} FormRuns(w: World, c: Command, x: Context, run: Run) returns (es: seq<Event>)
    requires c.Node?
    ensures var r := FormMeaning(w, c.id, c.form, x, c.invert, run);
            r.run.trace == run.trace + es && Sound(c, x, es, r.out, x.loops)
    decreases run.steps, c.form, 1, 1
  {
    hide Meaning, Sound, SimpleMeaning, WhileMeaning, ForMeaning, CaseMeaning;
    var p := Part(x, c.invert);
    match c.form
    case Simple(a) => es := SimpleRuns(w, c, x, run);
    case Group(b) => es := PartRuns(w, c, x, InGroup, run);
    case Sequence(a, b) =>
      es := PartRuns(w, c, x, First, run);
      var r := Meaning(w, a, p, run);
      if r.out.Normal? {
        var fs := PartRuns(w, c, x, Second, r.run);
        var r' := Meaning(w, b, p, r.run);
        SoundThen(c, x, es, r.out, x.loops, fs, r'.out, x.loops);
        TraceGrows(run.trace, es, fs);
        es := es + fs;
      }
    case Connection(or, a, b) =>
      es := PartRuns(w, c, x, First, run);
      var r := Meaning(w, a, Test(x), run);
      if r.out.Normal? && (r.out.status != 0) == or {
        var fs := PartRuns(w, c, x, Second, r.run);
        var r' := Meaning(w, b, Right(x, c.invert), r.run);
        SoundThen(c, x, es, r.out, x.loops, fs, r'.out, x.loops);
        TraceGrows(run.trace, es, fs);
        es := es + fs;
      }
    case If(t, a, b) =>
      es := PartRuns(w, c, x, InTest, run);
      var r := Meaning(w, t, Test(x), run);
      if r.out.Normal? {
        var fs := PartRuns(w, c, x, if r.out.status == 0 then Yes else No, r.run);
        var r' := Meaning(w, if r.out.status == 0 then a else b, p, r.run);
        SoundThen(c, x, es, r.out, x.loops, fs, r'.out, x.loops);
        TraceGrows(run.trace, es, fs);
        es := es + fs;
      }
    case While(_, _, _) => es := WhileRuns(w, c, x, run, 0);
    case For(_) =>
      es := ForAllRuns(w, c, x, run);
    case Case(cl) =>
      SoundNothing(c, x, 0, x.loops);
      es := CaseRuns(w, c, x, cl, 0, false, Result(Normal(0), run), [], run.trace);
  }

  lemma SimpleRuns(w: World, c: Command, x: Context, run: Run) returns (es: seq<Event>)
    requires c.Node? && c.form.Simple?
    ensures var r := SimpleMeaning(w, c.id, c.form.action, Part(x, c.invert), run);
            r.run.trace == run.trace + es && Sound(c, x, es, r.out, x.loops)
  {
    var a, p := c.form.action, Part(x, c.invert);
    var r := SimpleMeaning(w, c.id, a, p, run);
    es := [Event.Ran(c.id, Status(w, a, p.loops, run), p.ignored)];
    assert SimpleAt(c, [], c.id) && LoopsOn(c, []) == 0;
    assert PlaceOf(c, x, [], es[0]) && Goes(a, x.loops, es, 0, r.out, x.loops);
    assert Placed(c, x, es, 0, r.out, x.loops);
    if Abrupt(r.out) {
      assert LastRan(es, c.id);
      assert RaisedAt(At(c, []).form.action, x.loops + LoopsOn(c, []), r.out, x.loops);
      assert Raised(c, x, c.id, r.out, x.loops);
    }
  }

  lemma {:induction false} WhileRuns(w: World, c: Command, x: Context, run: Run, status: int) returns (es: seq<Event>)
    requires c.Node? && c.form.While?
    ensures var r := WhileMeaning(w, c.form, InLoop(Part(x, c.invert)), run, status);
            r.run.trace == run.trace + es && Sound(c, x, es, r.out, x.loops)
    decreases run.steps, c.form, 0, 0
  {
    hide Meaning, Sound, WhileMeaning, WhileNext, Leave;
    var q := InLoop(Part(x, c.invert));
    es := [];
    if run.steps == 0 {
      WhileCut(w, c.form, q, run, status);
      SoundNothing(c, x, 0, x.loops);
      SoundAs(c, x, [], Normal(0), x.loops, Cut, x.loops);
    } else {
      WhileStep(w, c.form, q, run, status);
      var run' := run.(steps := run.steps - 1);
      var t := Meaning(w, c.form.test, Test(q), run');
      es := PartRuns(w, c, x, InTest, run');
      if t.out.Cut? {
        SoundAs(c, x, es, Cut, q.loops, Cut, x.loops);
      } else if !Ended(t.out) {
        if (t.out.status == 0) == c.form.until {
          LeaveShape(t.out, status);
          SoundAs(c, x, es, t.out, q.loops, if Abrupt(t.out) then Leave(t.out, status) else Normal(status), x.loops);
        } else if Abrupt(t.out) {
          es := WhileNextRuns(w, c, x, run, es, t);
        } else {
          var b := Meaning(w, c.form.body, q, t.run);
          var fs := PartRuns(w, c, x, Body, t.run);
          SoundThen(c, x, es, t.out, q.loops, fs, b.out, q.loops);
          TraceGrows(run.trace, es, fs);
          es := WhileNextRuns(w, c, x, run, es + fs, b);
        }
      } else {
        ExitAnywhere(c, x, es, t.out, q.loops, x.loops);
      }
    }
  }

  lemma ExitAnywhere(c: Command, x: Context, es: seq<Event>, o: Outcome, d: nat, d': nat)
    requires Sound(c, x, es, o, d) && Ended(o) && d' <= d
    ensures Sound(c, x, es, o, d')
  {
    hide LastRan, Fatal, Raised;
    forall i | 0 <= i < |es| ensures Placed(c, x, es, i, o, d') {
      if es[i].Ran? {
        var p := PlaceAt(c, x, es, i, o, d);
        assert PlaceOf(c, x, p, es[i]) && Goes(At(c, p).form.action, x.loops + LoopsOn(c, p), es, i, o, d');
      }
    }
  }

  lemma LeaveShape(o: Outcome, status: int)
    ensures Abrupt(o) && o.levels > 0 ==>
              var l := Leave(o, status);
              && !Ended(l) && (Abrupt(l) ==> l.Break? == o.Break? && l.levels == o.levels - 1)
              && (!Abrupt(l) ==> o.levels == 1)
  {
  }

  // After a round of a loop, es being the events so far since `run`.
  lemma {:induction false} WhileNextRuns(w: World, c: Command, x: Context, run: Run, es: seq<Event>, b: Result)
    returns (all: seq<Event>)
    requires c.Node? && c.form.While? && b.run.steps < run.steps && Bounded(b.out, x.loops + 1)
    requires b.run.trace == run.trace + es && Sound(c, x, es, b.out, x.loops + 1)
    ensures var r := WhileNext(w, c.form, InLoop(Part(x, c.invert)), b);
            r.run.trace == run.trace + all && Sound(c, x, all, r.out, x.loops)
    decreases b.run.steps, c.form, 0, 1
  {
    hide Meaning, Sound, WhileMeaning, WhileNext, Leave;
    var q := InLoop(Part(x, c.invert));
    WhileGoesOn(w, c.form, q, b);
    all := es;
    if Ended(b.out) {
      ExitAnywhere(c, x, es, b.out, q.loops, x.loops);
    } else if GoesOn(b.out) {
      var fs := WhileRuns(w, c, x, b.run, b.out.status);
      SoundThen(c, x, es, b.out, q.loops, fs, WhileMeaning(w, c.form, q, b.run, b.out.status).out, x.loops);
      TraceGrows(run.trace, es, fs);
      all := es + fs;
    } else {
      LeaveShape(b.out, b.out.status);
      SoundAs(c, x, es, b.out, q.loops, Leave(b.out, b.out.status), x.loops);
    }
  }

  lemma {:induction false} ForRuns(w: World, c: Command, x: Context, n: nat, run: Run, status: int) returns (es: seq<Event>)
    requires c.Node? && c.form.For?
    ensures var r := ForMeaning(w, c.id, c.form, InLoop(Part(x, c.invert)), n, run, status);
            r.run.trace == run.trace + es && Sound(c, x, es, r.out, x.loops)
    decreases run.steps, c.form, 0, n
  {
    hide Meaning, Sound, ForMeaning, ForNext, Leave;
    var q := InLoop(Part(x, c.invert));
    es := [];
    SoundNothing(c, x, status, x.loops);
    SoundNothing(c, x, status, q.loops);
    if n == 0 {
      ForStops(w, c.id, c.form, q, run, status);
    } else {
      ForStep(w, c.id, c.form, q, n, run, status);
      var (denied, run') := Ask(w, c.id, run);
      SoundExpanding(c, x, [], Normal(status), q.loops, c.id, denied);
      es := [] + [Expanded(c.id, denied)];
      if denied != 0 {
        SoundAs(c, x, es, Normal(status), q.loops, Normal(1), x.loops);
      } else {
        var b := Meaning(w, c.form.body, q, run');
        var fs := PartRuns(w, c, x, Body, run');
        SoundThen(c, x, es, Normal(status), q.loops, fs, b.out, q.loops);
        TraceGrows(run.trace, es, fs);
        es := es + fs;
        ForGoesOn(w, c.id, c.form, q, n - 1, b);
        if Ended(b.out) {
          ExitAnywhere(c, x, es, b.out, q.loops, x.loops);
        } else if GoesOn(b.out) {
          var gs := ForRuns(w, c, x, n - 1, b.run, b.out.status);
          SoundThen(c, x, es, b.out, q.loops, gs, ForMeaning(w, c.id, c.form, q, n - 1, b.run, b.out.status).out, x.loops);
          TraceGrows(run.trace, es, gs);
          es := es + gs;
        } else {
          LeaveShape(b.out, b.out.status);
          SoundAs(c, x, es, b.out, q.loops, Leave(b.out, b.out.status), x.loops);
        }
      }
    }
  }

  // From the check of the variable's name on.
  lemma {:induction false} ForAllRuns(w: World, c: Command, x: Context, run: Run) returns (es: seq<Event>)
    requires c.Node? && c.form.For?
    ensures var r := FormMeaning(w, c.id, c.form, x, c.invert, run);
            r.run.trace == run.trace + es && Sound(c, x, es, r.out, x.loops)
    decreases run.steps, c.form, 1, 0
  {
    hide Meaning, Sound, FormMeaning, ForMeaning;
    var q := InLoop(Part(x, c.invert));
    ForForm(w, c.id, c.form, x, c.invert, run);
    var (bad, run1) := Ask(w, c.id, run);
    es := [Expanded(c.id, bad)];
    assert es == [] + [Expanded(c.id, bad)];
    SoundNothing(c, x, 1, x.loops);
    SoundExpanding(c, x, [], Normal(1), x.loops, c.id, bad);
    if bad == 0 {
      var (n, run2) := Ask(w, c.id, run1);
      SoundExpanding(c, x, es, Normal(1), x.loops, c.id, n);
      TraceGrows(run.trace, es, [Expanded(c.id, n)]);
      es := es + [Expanded(c.id, n)];
      var fs := ForRuns(w, c, x, if n < 0 then 0 else n, run2, 0);
      var r := ForMeaning(w, c.id, c.form, q, if n < 0 then 0 else n, run2, 0);
      SoundThen(c, x, es, Normal(1), x.loops, fs, r.out, x.loops);
      TraceGrows(run.trace, es, fs);
      es := es + fs;
    }
  }

  lemma {:induction false} MatchRuns(w: World, c: Command, x: Context, n: nat, run: Run, so: Outcome,
                                     was: seq<Event>, start: seq<Event>) returns (es: seq<Event>)
    requires Sound(c, x, was, so, x.loops) && !so.Exit? && c.Node? && run.trace == start + was
    ensures var (_, run') := Matches(w, c.id, n, run); run'.trace == start + es && Sound(c, x, es, so, x.loops)
    decreases n
  {
    hide Sound;
    es := was;
    if n > 0 {
      var (answer, run') := Ask(w, c.id, run);
      SoundExpanding(c, x, was, so, x.loops, c.id, answer);
      es := was + [Expanded(c.id, answer)];
      TraceGrows(start, was, [Expanded(c.id, answer)]);
      if answer == 0 {
        es := MatchRuns(w, c, x, n - 1, run', so, es, start);
      }
    }
  }

  // The clauses cl of a case command from the k-th on, `was` being the events
  // so far since `start`.
  lemma {:induction false} CaseRuns(w: World, c: Command, x: Context, cl: Clauses, k: nat, falling: bool, so: Result,
                                    was: seq<Event>, start: seq<Event>) returns (es: seq<Event>)
    requires c.Node? && c.form.Case? && Drop(c.form.clauses, k) == cl
    requires Bounded(so.out, x.loops) && !Ended(so.out) && Sound(c, x, was, so.out, x.loops) && so.run.trace == start + was
    ensures var r := CaseMeaning(w, c.id, cl, falling, Part(x, c.invert), so);
            r.run.trace == start + es && Sound(c, x, es, r.out, x.loops)
    decreases so.run.steps, cl, 0, if falling then 0 else 1
  {
    hide Meaning, Sound, CaseMeaning, Matches;
    var p := Part(x, c.invert);
    es := was;
    if cl.NoClause? {
      CaseStops(w, c.id, falling, p, so);
    } else if !falling {
      CaseTests(w, c.id, cl, p, so);
      var (hit, run) := Matches(w, c.id, cl.patterns, so.run);
      es := MatchRuns(w, c, x, cl.patterns, so.run, so.out, was, start);
      DropNext(c.form.clauses, k);
      es := CaseRuns(w, c, x, if hit then cl else cl.next, if hit then k else k + 1, hit, Result(so.out, run), es, start);
    } else {
      CaseActs(w, c.id, cl, p, so);
      var r := so;
      if !Abrupt(so.out) {
        r := Meaning(w, cl.action, p, so.run);
        var fs := PartRuns(w, c, x, InClause(k), so.run);
        SoundThen(c, x, was, so.out, x.loops, fs, r.out, x.loops);
        TraceGrows(start, was, fs);
        es := was + fs;
      }
      if !Ended(r.out) && !cl.ending.Stop? {
        DropNext(c.form.clauses, k);
        es := CaseRuns(w, c, x, cl.next, k + 1, cl.ending.FallThrough?, r, es, start);
      }
    }
  }

  lemma {:induction false} DropNext(cl: Clauses, k: nat)
    requires Drop(cl, k).Clause?
    ensures Drop(cl, k + 1) == Drop(cl, k).next
  {
    if k > 0 { DropNext(cl.next, k - 1); }
  }

  // ---------------------------------------------------------------- scripts

  lemma PlaceAt(c: Command, x: Context, es: seq<Event>, i: nat, o: Outcome, d: nat) returns (p: Path)
    requires i < |es| && Sound(c, x, es, o, d) && es[i].Ran?
    ensures PlaceOf(c, x, p, es[i]) && Goes(At(c, p).form.action, x.loops + LoopsOn(c, p), es, i, o, d)
  {
    assert Placed(c, x, es, i, o, d);
    p :| PlaceOf(c, x, p, es[i]) && Goes(At(c, p).form.action, x.loops + LoopsOn(c, p), es, i, o, d);
  }

  // Under `set -e` a script ends at the first failure of a simple command
  // whose place is not shielded, and at no other.
  lemma ScriptExits(w: World, c: Command, steps: nat, p: Path, i: nat)
    requires Distinct(c)
    requires var es := Script(w, c, true, steps).run.trace;
             i < |es| && es[i].Ran? && es[i].status != 0 && SimpleAt(c, p, es[i].id)
    ensures var r := Script(w, c, true, steps);
            var exits := r.out == Exit(r.run.trace[i].status) && i == |r.run.trace| - 1;
            exits <==> !Shielded(c, p)
  {
    hide Meaning;
    var x := Context(true, 0, false);
    var es := CommandRuns(w, c, x, Run(0, steps, []));
    var trace := Script(w, c, true, steps).run.trace;
    assert trace == es;
    var q := PlaceAt(c, x, es, i, Script(w, c, true, steps).out, 0);
    OnePlace(c, p, q, es[i].id);
  }

  // Nothing else ends it: an exit is that of the last event, a failure of a
  // simple command at an unshielded place.
  lemma ExitHasReason(w: World, c: Command, steps: nat) returns (p: Path)
    requires Script(w, c, true, steps).out.Exit?
    ensures var r := Script(w, c, true, steps);
            r.run.trace != [] && var e := r.run.trace[|r.run.trace| - 1];
            e.Ran? && e.status == r.out.status != 0 && SimpleAt(c, p, e.id) && !Shielded(c, p)
  {
    hide Meaning;
    var x := Context(true, 0, false);
    var es := CommandRuns(w, c, x, Run(0, steps, []));
    var e := es[|es| - 1];
    p := PlaceAt(c, x, es, |es| - 1, Script(w, c, true, steps).out, 0);
  }

  // Without `set -e` no failure ends a run.
  lemma NoExitWithout(w: World, c: Command, x: Context, run: Run)
    requires !x.errexit
    ensures !Meaning(w, c, x, run).out.Exit?
  {
    hide Meaning;
    var es := CommandRuns(w, c, x, run);
  }

  // A jump that leaves a command, wherever that stands: it was raised by a
  // break or continue in it, leaves standing as many loops as that asks for,
  // and no command has run since.
  lemma JumpHasReason(w: World, c: Command, x: Context, run: Run) returns (es: seq<Event>, p: Path)
    requires Abrupt(Meaning(w, c, x, run).out)
    ensures var r := Meaning(w, c, x, run);
            && r.run.trace == run.trace + es && At(c, p).Node? && At(c, p).form.Simple?
            && LastRan(es, At(c, p).id) && !At(c, p).form.action.External?
            && x.loops - r.out.levels == Standing(At(c, p).form.action.n, x.loops + LoopsOn(c, p))
            && (r.out.Break? <==> At(c, p).form.action.BreakLoops? || At(c, p).form.action.n <= 0)
  {
    hide Meaning;
    es := CommandRuns(w, c, x, run);
    var o := Meaning(w, c, x, run).out;
    var id :| LastRan(es, id) && Raised(c, x, id, o, x.loops);
    p :| SimpleAt(c, p, id) && RaisedAt(At(c, p).form.action, x.loops + LoopsOn(c, p), o, x.loops);
  }

  // Conversely a break or continue that asks for a loop outside a command
  // always gets there: the command ends with that jump, and no command runs
  // after it, unless its own failure ends the whole run.
  lemma JumpGetsThere(w: World, c: Command, x: Context, run: Run, p: Path, i: nat) returns (es: seq<Event>)
    requires Distinct(c)
    requires var trace := Meaning(w, c, x, run).run.trace;
             |run.trace| <= i < |trace| && trace[i].Ran? && SimpleAt(c, p, trace[i].id)
    requires JumpsOut(At(c, p).form.action, x.loops + LoopsOn(c, p), x.loops)
    ensures var r := Meaning(w, c, x, run);
            && r.run.trace == run.trace + es
            && (r.out.Exit? || (Abrupt(r.out) && x.loops - r.out.levels == Standing(At(c, p).form.action.n, x.loops + LoopsOn(c, p))))
            && forall j :: i < j < |r.run.trace| ==> r.run.trace[j].Expanded?
  {
    hide Meaning;
    es := CommandRuns(w, c, x, run);
    var o, trace := Meaning(w, c, x, run).out, Meaning(w, c, x, run).run.trace;
    var k := i - |run.trace|;
    assert trace[i] == es[k];
    var q := PlaceAt(c, x, es, k, o, x.loops);
    OnePlace(c, p, q, es[k].id);
    forall j | i < j < |trace| ensures trace[j].Expanded? {
      assert trace[j] == es[j - |run.trace|];
    }
  }
}
