// The sequential commands that bash/execute_cmd.c runs, and the external
// events a run meets.

module ShellSyntax {

  // Every command node has an id, by which its flags are kept.
  datatype Command = Null | Node(id: nat, invert: bool, form: Form)

  datatype Form =
    | Simple(action: Action)
    | Group(body: Command)
    | Sequence(first: Command, second: Command)
    | Connection(or: bool, first: Command, second: Command)
    | If(test: Command, yes: Command, no: Command)
    | While(until: bool, test: Command, body: Command)
    | For(body: Command)
    | Case(clauses: Clauses)

  datatype Action = External | BreakLoops(n: int) | ContinueLoops(n: int)

  // A clause has some patterns, and ends with ;; or ;& or ;;&
  datatype Clauses = NoClause | Clause(patterns: nat, action: Command, ending: Ending, next: Clauses)

  datatype Ending = Stop | FallThrough | TestNext

  function Ids(c: Command): set<nat> {
    if c.Null? then {} else {c.id} + FormIds(c.form)
  }

  function FormIds(f: Form): set<nat> {
    match f
    case Simple(_) => {}
    case Group(b) => Ids(b)
    case Sequence(a, b) => Ids(a) + Ids(b)
    case Connection(_, a, b) => Ids(a) + Ids(b)
    case If(t, a, b) => Ids(t) + Ids(a) + Ids(b)
    case While(_, t, b) => Ids(t) + Ids(b)
    case For(b) => Ids(b)
    case Case(cl) => ClauseIds(cl)
  }

  function ClauseIds(cl: Clauses): set<nat> {
    if cl.NoClause? then {} else Ids(cl.action) + ClauseIds(cl.next)
  }

  // No node occurs twice.
  predicate Distinct(c: Command) {
    c.Null? || (c.id !in FormIds(c.form) && DistinctForm(c.form))
  }

  predicate DistinctForm(f: Form) {
    match f
    case Simple(_) => true
    case Group(b) => Distinct(b)
    case Sequence(a, b) => Distinct(a) && Distinct(b) && Ids(a) !! Ids(b)
    case Connection(_, a, b) => Distinct(a) && Distinct(b) && Ids(a) !! Ids(b)
    case If(t, a, b) =>
      Distinct(t) && Distinct(a) && Distinct(b) && Ids(t) !! Ids(a) && Ids(t) !! Ids(b) && Ids(a) !! Ids(b)
    case While(_, t, b) => Distinct(t) && Distinct(b) && Ids(t) !! Ids(b)
    case For(b) => Distinct(b)
    case Case(cl) => DistinctClauses(cl)
  }

  predicate DistinctClauses(cl: Clauses) {
    cl.NoClause? || (Distinct(cl.action) && DistinctClauses(cl.next) && Ids(cl.action) !! ClauseIds(cl.next))
  }

  // What happens in a run: a simple command ends with a status, its failure
  // ignored or not; or a word is expanded and answers something.
  datatype Event = Ran(id: nat, status: int, ignored: bool) | Expanded(id: nat, answer: int)

  // How far a run has come. The n-th external event is what the world answers
  // at n; `steps` bounds the number of while and until tests still to be made.
  datatype Run = Run(clock: nat, steps: nat, trace: seq<Event>)

  type World = nat -> int

  function Ask(w: World, id: nat, run: Run): (r: (int, Run))
    ensures r.1.steps == run.steps
  {
    (w(run.clock), run.(clock := run.clock + 1, trace := run.trace + [Expanded(id, w(run.clock))]))
  }
}
