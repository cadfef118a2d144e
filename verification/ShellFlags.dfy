// The CMD_IGNORE_RETURN bits: one set of ids for the flags of the commands,
// one for the flags of the structures inside them. Execution only ever sets
// them; a flag is in order when only a command that is ignored where it
// stands carries it.

module ShellFlags {
  import opened ShellSyntax
  import opened ShellMeaning

  predicate InOrder(c: Command, x: Context, flags: set<nat>, inner: set<nat>) {
    c.Null? ||
    (&& (c.id in flags ==> Right(x, c.invert).ignored)
     && (c.id in inner ==> Part(x, c.invert).ignored)
     && FormInOrder(c.form, x, c.invert, flags, inner))
  }

  predicate FormInOrder(f: Form, x: Context, invert: bool, flags: set<nat>, inner: set<nat>) {
    var p := Part(x, invert);
    match f
    case Simple(_) => true
    case Group(b) => InOrder(b, p, flags, inner)
    case Sequence(a, b) => InOrder(a, p, flags, inner) && InOrder(b, p, flags, inner)
    case Connection(_, a, b) => InOrder(a, Test(x), flags, inner) && InOrder(b, Right(x, invert), flags, inner)
    case If(t, a, b) => InOrder(t, Test(x), flags, inner) && InOrder(a, p, flags, inner) && InOrder(b, p, flags, inner)
    case While(_, t, b) => InOrder(t, Test(InLoop(p)), flags, inner) && InOrder(b, InLoop(p), flags, inner)
    case For(b) => InOrder(b, InLoop(p), flags, inner)
    case Case(cl) => ClausesInOrder(cl, p, flags, inner)
  }

  predicate ClausesInOrder(cl: Clauses, x: Context, flags: set<nat>, inner: set<nat>) {
    cl.NoClause? || (InOrder(cl.action, x, flags, inner) && ClausesInOrder(cl.next, x, flags, inner))
  }

  // Flags f2, i2 differ from f1, i1 by additions among ids at most.
  predicate Grown(ids: set<nat>, f1: set<nat>, i1: set<nat>, f2: set<nat>, i2: set<nat>) {
    f1 <= f2 <= f1 + ids && i1 <= i2 <= i1 + ids
  }

  // Being in order does not depend on the flags of other commands.
  lemma {:induction false} OrderKept(c: Command, x: Context, f1: set<nat>, i1: set<nat>, f2: set<nat>, i2: set<nat>)
    requires InOrder(c, x, f1, i1)
    requires f1 * Ids(c) == f2 * Ids(c) && i1 * Ids(c) == i2 * Ids(c)
    ensures InOrder(c, x, f2, i2)
    decreases c, 0
  {
    if c.Node? {
      assert c.id in Ids(c);
      assert c.id in f1 * Ids(c) <==> c.id in f2 * Ids(c);
      assert c.id in i1 * Ids(c) <==> c.id in i2 * Ids(c);
      FormOrderKept(c.form, x, c.invert, f1, i1, f2, i2) by {
        Narrow(FormIds(c.form), Ids(c), f1, f2);
        Narrow(FormIds(c.form), Ids(c), i1, i2);
      }
    }
  }

  lemma Narrow(s: set<nat>, t: set<nat>, f1: set<nat>, f2: set<nat>)
    requires s <= t && f1 * t == f2 * t
    ensures f1 * s == f2 * s
  {
    assert forall k :: k in f1 * s <==> k in f1 * t && k in s;
    assert forall k :: k in f2 * s <==> k in f2 * t && k in s;
  }

  lemma {:induction false} FormOrderKept(f: Form, x: Context, invert: bool,
                                         f1: set<nat>, i1: set<nat>, f2: set<nat>, i2: set<nat>)
    requires FormInOrder(f, x, invert, f1, i1)
    requires f1 * FormIds(f) == f2 * FormIds(f) && i1 * FormIds(f) == i2 * FormIds(f)
    ensures FormInOrder(f, x, invert, f2, i2)
    decreases f, 0
  {
    hide InOrder, Ids;
    var p := Part(x, invert);
    match f
    case Simple(_) =>
    case Group(b) => ChildOrderKept(b, FormIds(f), p, f1, i1, f2, i2);
    case Sequence(a, b) =>
      ChildOrderKept(a, FormIds(f), p, f1, i1, f2, i2);
      ChildOrderKept(b, FormIds(f), p, f1, i1, f2, i2);
    case Connection(_, a, b) =>
      ChildOrderKept(a, FormIds(f), Test(x), f1, i1, f2, i2);
      ChildOrderKept(b, FormIds(f), Right(x, invert), f1, i1, f2, i2);
    case If(t, a, b) =>
      ChildOrderKept(t, FormIds(f), Test(x), f1, i1, f2, i2);
      ChildOrderKept(a, FormIds(f), p, f1, i1, f2, i2);
      ChildOrderKept(b, FormIds(f), p, f1, i1, f2, i2);
    case While(_, t, b) =>
      ChildOrderKept(t, FormIds(f), Test(InLoop(p)), f1, i1, f2, i2);
      ChildOrderKept(b, FormIds(f), InLoop(p), f1, i1, f2, i2);
    case For(b) => ChildOrderKept(b, FormIds(f), InLoop(p), f1, i1, f2, i2);
    case Case(cl) => ClausesOrderKept(cl, p, f1, i1, f2, i2);
  }

  lemma {:induction false} ChildOrderKept(c: Command, ids: set<nat>, x: Context,
                                          f1: set<nat>, i1: set<nat>, f2: set<nat>, i2: set<nat>)
    requires InOrder(c, x, f1, i1)
    requires Ids(c) <= ids && f1 * ids == f2 * ids && i1 * ids == i2 * ids
    ensures InOrder(c, x, f2, i2)
    decreases c, 1
  {
    Narrow(Ids(c), ids, f1, f2);
    Narrow(Ids(c), ids, i1, i2);
    OrderKept(c, x, f1, i1, f2, i2);
  }

  lemma {:induction false} ClausesOrderKept(cl: Clauses, x: Context,
                                            f1: set<nat>, i1: set<nat>, f2: set<nat>, i2: set<nat>)
    requires ClausesInOrder(cl, x, f1, i1)
    requires f1 * ClauseIds(cl) == f2 * ClauseIds(cl) && i1 * ClauseIds(cl) == i2 * ClauseIds(cl)
    ensures ClausesInOrder(cl, x, f2, i2)
    decreases cl, 0
  {
    if cl.Clause? {
      Narrow(Ids(cl.action), ClauseIds(cl), f1, f2);
      Narrow(Ids(cl.action), ClauseIds(cl), i1, i2);
      Narrow(ClauseIds(cl.next), ClauseIds(cl), f1, f2);
      Narrow(ClauseIds(cl.next), ClauseIds(cl), i1, i2);
      OrderKept(cl.action, x, f1, i1, f2, i2);
      ClausesOrderKept(cl.next, x, f1, i1, f2, i2);
    }
  }

  // Where nothing is flagged everything is in order.
  lemma {:induction false} NoFlags(c: Command, x: Context, flags: set<nat>, inner: set<nat>)
    requires flags !! Ids(c) && inner !! Ids(c)
    ensures InOrder(c, x, flags, inner)
    decreases c
  {
    if c.Node? {
      var p := Part(x, c.invert);
      match c.form
      case Simple(_) =>
      case Group(b) => NoFlags(b, p, flags, inner);
      case Sequence(a, b) => NoFlags(a, p, flags, inner); NoFlags(b, p, flags, inner);
      case Connection(_, a, b) => NoFlags(a, Test(x), flags, inner); NoFlags(b, Right(x, c.invert), flags, inner);
      case If(t, a, b) => NoFlags(t, Test(x), flags, inner); NoFlags(a, p, flags, inner); NoFlags(b, p, flags, inner);
      case While(_, t, b) => NoFlags(t, Test(InLoop(p)), flags, inner); NoFlags(b, InLoop(p), flags, inner);
      case For(b) => NoFlags(b, InLoop(p), flags, inner);
      case Case(cl) => NoClauseFlags(cl, p, flags, inner);
    }
  }

  lemma {:induction false} NoClauseFlags(cl: Clauses, x: Context, flags: set<nat>, inner: set<nat>)
    requires flags !! ClauseIds(cl) && inner !! ClauseIds(cl)
    ensures ClausesInOrder(cl, x, flags, inner)
    decreases cl
  {
    if cl.Clause? {
      NoFlags(cl.action, x, flags, inner);
      NoClauseFlags(cl.next, x, flags, inner);
    }
  }

  // A command ready to be executed: if it is to be ignored, it is marked.
  predicate Prepared(c: Command, x: Context, flags: set<nat>, inner: set<nat>) {
    InOrder(c, x, flags, inner) && (x.ignored && c.Node? ==> c.id in flags)
  }

  // Changes among ids apart from c's do not matter to c.
  lemma OrderApart(c: Command, x: Context, ids: set<nat>, f1: set<nat>, i1: set<nat>, f2: set<nat>, i2: set<nat>)
    requires InOrder(c, x, f1, i1) && Grown(ids, f1, i1, f2, i2) && ids !! Ids(c)
    ensures InOrder(c, x, f2, i2)
  {
    hide InOrder, Ids;
    assert f1 * Ids(c) == f2 * Ids(c) && i1 * Ids(c) == i2 * Ids(c);
    OrderKept(c, x, f1, i1, f2, i2);
  }

  lemma PreparedApart(c: Command, x: Context, ids: set<nat>, f1: set<nat>, i1: set<nat>, f2: set<nat>, i2: set<nat>)
    requires Prepared(c, x, f1, i1) && Grown(ids, f1, i1, f2, i2) && ids !! Ids(c)
    ensures Prepared(c, x, f2, i2)
  {
    hide InOrder, Ids;
    OrderApart(c, x, ids, f1, i1, f2, i2);
  }

  // The forms whose structure has a flag of its own.
  predicate HasFlag(f: Form) { !f.Group? && !f.Sequence? && !f.Connection? }

  function Marked(c: Command, flags: set<nat>): set<nat> {
    if c.Null? then flags else flags + {c.id}
  }

  // Marking a command that is ignored prepares it.
  lemma OrderMarked(c: Command, x: Context, flags: set<nat>, inner: set<nat>)
    requires InOrder(c, x, flags, inner) && x.ignored && Distinct(c)
    ensures Prepared(c, x, Marked(c, flags), inner) && Grown(Ids(c), flags, inner, Marked(c, flags), inner)
  {
    if c.Node? {
      var f2 := flags + {c.id};
      assert flags * FormIds(c.form) == f2 * FormIds(c.form);
      FormOrderKept(c.form, x, c.invert, flags, inner, f2, inner);
    }
  }

  lemma Grows(part: set<nat>, ids: set<nat>,
              f0: set<nat>, i0: set<nat>, f1: set<nat>, i1: set<nat>, f2: set<nat>, i2: set<nat>)
    requires Grown(ids, f0, i0, f1, i1) && Grown(part, f1, i1, f2, i2) && part <= ids
    ensures Grown(ids, f0, i0, f2, i2)
  {
  }

  // A command whose own flag is exact is prepared again after its form ran.
  lemma PreparedAfter(c: Command, x: Context, f1: set<nat>, i1: set<nat>, f2: set<nat>, i2: set<nat>)
    requires c.Node? && c.id !in FormIds(c.form) && (c.id in f1 <==> Right(x, c.invert).ignored)
    requires (c.id in i1 ==> Part(x, c.invert).ignored)
    requires Grown(FormIds(c.form), f1, i1, f2, i2) && FormInOrder(c.form, x, c.invert, f2, i2)
    ensures Prepared(c, x, f2, i2)
  {
    hide FormInOrder, FormIds;
  }

  lemma NoneGrown(ids: set<nat>, flags: set<nat>, inner: set<nat>)
    ensures Grown(ids, flags, inner, flags, inner)
  {
  }

  // ---------------------------------------------------------------- the parts of a form

  lemma GroupParts(f: Form, x: Context, invert: bool, flags: set<nat>, inner: set<nat>)
    requires f.Group?
    ensures DistinctForm(f) ==> Distinct(f.body)
    ensures FormIds(f) == Ids(f.body)
    ensures FormInOrder(f, x, invert, flags, inner) <==> InOrder(f.body, Part(x, invert), flags, inner)
  {
    hide Distinct, Ids, InOrder;
  }

  lemma SequenceParts(f: Form, x: Context, invert: bool, flags: set<nat>, inner: set<nat>)
    requires f.Sequence?
    ensures DistinctForm(f) ==> Distinct(f.first) && Distinct(f.second) && Ids(f.first) !! Ids(f.second)
    ensures FormIds(f) == Ids(f.first) + Ids(f.second)
    ensures FormInOrder(f, x, invert, flags, inner) <==>
              InOrder(f.first, Part(x, invert), flags, inner) && InOrder(f.second, Part(x, invert), flags, inner)
  {
    hide Distinct, Ids, InOrder;
  }

  lemma ConnectionParts(f: Form, x: Context, invert: bool, flags: set<nat>, inner: set<nat>)
    requires f.Connection?
    ensures DistinctForm(f) ==> Distinct(f.first) && Distinct(f.second) && Ids(f.first) !! Ids(f.second)
    ensures FormIds(f) == Ids(f.first) + Ids(f.second)
    ensures FormInOrder(f, x, invert, flags, inner) <==>
              InOrder(f.first, Test(x), flags, inner) && InOrder(f.second, Right(x, invert), flags, inner)
  {
    hide Distinct, Ids, InOrder;
  }

  lemma IfParts(f: Form, x: Context, invert: bool, flags: set<nat>, inner: set<nat>)
    requires f.If?
    ensures DistinctForm(f) ==>
              && Distinct(f.test) && Distinct(f.yes) && Distinct(f.no)
              && Ids(f.test) !! Ids(f.yes) && Ids(f.test) !! Ids(f.no) && Ids(f.yes) !! Ids(f.no)
    ensures FormIds(f) == Ids(f.test) + Ids(f.yes) + Ids(f.no)
    ensures FormInOrder(f, x, invert, flags, inner) <==>
              InOrder(f.test, Test(x), flags, inner) && InOrder(f.yes, Part(x, invert), flags, inner)
              && InOrder(f.no, Part(x, invert), flags, inner)
  {
    hide Distinct, Ids, InOrder;
  }

  lemma WhileParts(f: Form, x: Context, invert: bool, flags: set<nat>, inner: set<nat>)
    requires f.While?
    ensures DistinctForm(f) ==> Distinct(f.test) && Distinct(f.body) && Ids(f.test) !! Ids(f.body)
    ensures FormIds(f) == Ids(f.test) + Ids(f.body)
    ensures var q := InLoop(Part(x, invert));
            FormInOrder(f, x, invert, flags, inner) <==>
              InOrder(f.test, Test(q), flags, inner) && InOrder(f.body, q, flags, inner)
  {
    hide Distinct, Ids, InOrder;
  }

  lemma WhileInOrder(f: Form, x: Context, invert: bool, flags: set<nat>, inner: set<nat>)
    requires f.While?
    requires var q := InLoop(Part(x, invert)); Prepared(f.test, Test(q), flags, inner) && Prepared(f.body, q, flags, inner)
    ensures FormInOrder(f, x, invert, flags, inner)
  {
    hide InOrder, FormInOrder;
    WhileParts(f, x, invert, flags, inner);
  }

  lemma ForParts(f: Form, x: Context, invert: bool, flags: set<nat>, inner: set<nat>)
    requires f.For?
    ensures DistinctForm(f) ==> Distinct(f.body)
    ensures FormIds(f) == Ids(f.body)
    ensures FormInOrder(f, x, invert, flags, inner) <==> InOrder(f.body, InLoop(Part(x, invert)), flags, inner)
  {
    hide Distinct, Ids, InOrder;
  }

  lemma CaseParts(f: Form, x: Context, invert: bool, flags: set<nat>, inner: set<nat>)
    requires f.Case?
    ensures DistinctForm(f) ==> DistinctClauses(f.clauses)
    ensures FormIds(f) == ClauseIds(f.clauses)
    ensures FormInOrder(f, x, invert, flags, inner) <==> ClausesInOrder(f.clauses, Part(x, invert), flags, inner)
  {
    hide DistinctClauses, ClauseIds, ClausesInOrder;
  }

  // ---------------------------------------------------------------- the clauses of a case

  predicate Within(cl: Clauses, whole: Clauses) {
    cl == whole || (whole.Clause? && Within(cl, whole.next))
  }

  lemma {:induction false} WithinNext(cl: Clauses, whole: Clauses)
    requires Within(cl, whole) && cl.Clause?
    ensures Within(cl.next, whole)
    decreases whole
  {
    if cl != whole { WithinNext(cl, whole.next); }
  }

  lemma {:induction false} ClauseReady(cl: Clauses, whole: Clauses, x: Context, flags: set<nat>, inner: set<nat>)
    requires Within(cl, whole) && cl.Clause? && ClausesInOrder(whole, x, flags, inner) && DistinctClauses(whole)
    ensures InOrder(cl.action, x, flags, inner) && Distinct(cl.action) && Ids(cl.action) <= ClauseIds(whole)
    decreases whole
  {
    if cl != whole { ClauseReady(cl, whole.next, x, flags, inner); }
  }

  // Running one clause's action leaves all clauses in order.
  lemma {:induction false} ClauseDone(cl: Clauses, whole: Clauses, x: Context,
                                      f1: set<nat>, i1: set<nat>, f2: set<nat>, i2: set<nat>)
    requires Within(cl, whole) && cl.Clause? && ClausesInOrder(whole, x, f1, i1) && DistinctClauses(whole)
    requires Grown(Ids(cl.action), f1, i1, f2, i2) && InOrder(cl.action, x, f2, i2)
    ensures ClausesInOrder(whole, x, f2, i2)
    decreases whole
  {
    if cl == whole {
      assert f1 * ClauseIds(cl.next) == f2 * ClauseIds(cl.next) && i1 * ClauseIds(cl.next) == i2 * ClauseIds(cl.next);
      ClausesOrderKept(cl.next, x, f1, i1, f2, i2);
    } else {
      ClauseDone(cl, whole.next, x, f1, i1, f2, i2);
      ClauseReady(cl, whole.next, x, f1, i1);
      OrderApart(whole.action, x, Ids(cl.action), f1, i1, f2, i2);
    }
  }
}
