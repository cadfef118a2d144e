// Places in a command, and what a run says about them: which failures are
// ignored, which end the run under `set -e`, and where a jump comes from.

module ShellPlaces {
  import opened ShellSyntax
  import opened ShellMeaning

  // From a command to one of its parts.
  datatype Turn = InGroup | First | Second | InTest | Yes | No | Body | InClause(k: nat)

  type Path = seq<Turn>

  function Drop(cl: Clauses, k: nat): Clauses {
    if k == 0 || cl.NoClause? then cl else Drop(cl.next, k - 1)
  }

  // The part a turn leads to; Null where there is none.
  function Child(f: Form, t: Turn): Command {
    match f
    case Group(b) => if t.InGroup? then b else Null
    case Sequence(a, b) => if t.First? then a else if t.Second? then b else Null
    case Connection(_, a, b) => if t.First? then a else if t.Second? then b else Null
    case If(c, a, b) => if t.InTest? then c else if t.Yes? then a else if t.No? then b else Null
    case While(_, c, b) => if t.InTest? then c else if t.Body? then b else Null
    case For(b) => if t.Body? then b else Null
    case Case(cl) => if t.InClause? && Drop(cl, t.k).Clause? then Drop(cl, t.k).action else Null
    case _ => Null
  }

  function At(c: Command, p: Path): Command
    decreases |p|
  {
    if p == [] || c.Null? then c else At(Child(c.form, p[0]), p[1..])
  }

  predicate SimpleAt(c: Command, p: Path, id: nat) {
    At(c, p).Node? && At(c, p).id == id && At(c, p).form.Simple?
  }

  // A turn into a test, or to the left of && or ||.
  predicate Tests(f: Form, t: Turn) {
    (t.InTest? && (f.If? || f.While?)) || (t.First? && f.Connection?)
  }

  // A turn into a loop.
  predicate Loops(f: Form, t: Turn) {
    (f.While? && (t.InTest? || t.Body?)) || (f.For? && t.Body?)
  }

  // The place is under a negation, in a test, or to the left of && or ||.
  predicate Shielded(c: Command, p: Path)
    decreases |p|
  {
    c.Node? && (c.invert || (p != [] && (Tests(c.form, p[0]) || Shielded(Child(c.form, p[0]), p[1..]))))
  }

  // The loops between a command and a place in it.
  function LoopsOn(c: Command, p: Path): nat
    decreases |p|
  {
    if c.Null? || p == [] then 0
    else (if Loops(c.form, p[0]) then 1 else 0) + LoopsOn(Child(c.form, p[0]), p[1..])
  }

  // Step by step: some command on the way is negated, or some turn tests.
  lemma {:induction false} ShieldedOnTheWay(c: Command, p: Path)
    ensures Shielded(c, p) <==>
              exists i :: 0 <= i <= |p| && At(c, p[..i]).Node?
                          && (At(c, p[..i]).invert || (i < |p| && Tests(At(c, p[..i]).form, p[i])))
    decreases |p|
  {
    if c.Node? && p != [] {
      var d := Child(c.form, p[0]);
      ShieldedOnTheWay(d, p[1..]);
      assert p[..0] == [];
      forall i | 0 <= i <= |p| - 1 ensures At(c, p[..i + 1]) == At(d, p[1..][..i]) {
        assert p[..i + 1][1..] == p[1..][..i];
      }
      if Shielded(d, p[1..]) {
        var i :| 0 <= i <= |p[1..]| && At(d, p[1..][..i]).Node?
                 && (At(d, p[1..][..i]).invert || (i < |p[1..]| && Tests(At(d, p[1..][..i]).form, p[1..][i])));
        assert At(c, p[..i + 1]).Node?;
      }
      if i :| 0 < i <= |p| && At(c, p[..i]).Node?
              && (At(c, p[..i]).invert || (i < |p| && Tests(At(c, p[..i]).form, p[i]))) {
        assert At(c, p[..i - 1 + 1]) == At(d, p[1..][..i - 1]);
        assert i < |p| ==> p[i] == p[1..][i - 1];
      }
      if c.invert || Tests(c.form, p[0]) { assert At(c, p[..0]) == c; }
    } else if c.Node? {
      assert p[..0] == [];
    } else {
      assert forall i :: 0 <= i <= |p| ==> At(c, p[..i]) == c;
    }
  }

  // ---------------------------------------------------------------- places are unique

  lemma {:induction false} PlaceInIds(c: Command, p: Path, id: nat)
    requires SimpleAt(c, p, id)
    ensures id in Ids(c)
    decreases |p|
  {
    if p != [] && c.Node? {
      PlaceInIds(Child(c.form, p[0]), p[1..], id);
      ChildIds(c.form, p[0]);
    }
  }

  lemma {:induction false} DropIds(cl: Clauses, k: nat)
    requires Drop(cl, k).Clause?
    ensures Ids(Drop(cl, k).action) <= ClauseIds(cl)
    ensures DistinctClauses(cl) ==> Distinct(Drop(cl, k).action)
  {
    if k > 0 && cl.Clause? { DropIds(cl.next, k - 1); }
  }

  lemma ChildIds(f: Form, t: Turn)
    ensures Ids(Child(f, t)) <= FormIds(f)
    ensures DistinctForm(f) ==> Distinct(Child(f, t))
  {
    hide Ids, Distinct;
    if f.Case? && t.InClause? && Drop(f.clauses, t.k).Clause? {
      DropIds(f.clauses, t.k);
    }
    NullIds();
  }

  lemma NullIds()
    ensures Ids(Null) == {} && Distinct(Null)
  {
  }

  lemma {:induction false} ClausesApart(cl: Clauses, j: nat, k: nat)
    requires DistinctClauses(cl) && Drop(cl, j).Clause? && Drop(cl, k).Clause? && j < k
    ensures Ids(Drop(cl, j).action) !! Ids(Drop(cl, k).action)
    decreases j
  {
    if j == 0 {
      DropIds(cl.next, k - 1);
    } else {
      ClausesApart(cl.next, j - 1, k - 1);
    }
  }

  lemma TurnsApart(f: Form, t: Turn, u: Turn)
    requires DistinctForm(f) && t != u
    ensures Ids(Child(f, t)) !! Ids(Child(f, u))
  {
    hide Ids, Distinct;
    NullIds();
    if f.Case? && t.InClause? && u.InClause? && Drop(f.clauses, t.k).Clause? && Drop(f.clauses, u.k).Clause? {
      if t.k < u.k { ClausesApart(f.clauses, t.k, u.k); } else { ClausesApart(f.clauses, u.k, t.k); }
    }
  }

  // In a tree without repetition a simple command has one place.
  lemma {:induction false} OnePlace(c: Command, p: Path, q: Path, id: nat)
    requires Distinct(c) && SimpleAt(c, p, id) && SimpleAt(c, q, id)
    ensures p == q
    decreases |p|
  {
    if p == [] || q == [] {
      if p != q { NothingBelow(c, if p == [] then q else p); }
    } else {
      ChildIds(c.form, p[0]);
      PlaceInIds(Child(c.form, p[0]), p[1..], id);
      PlaceInIds(Child(c.form, q[0]), q[1..], id);
      if p[0] != q[0] { TurnsApart(c.form, p[0], q[0]); }
      OnePlace(Child(c.form, p[0]), p[1..], q[1..], id);
    }
  }

  lemma NothingBelow(c: Command, p: Path)
    requires c.Node? && c.form.Simple? && p != []
    ensures At(c, p) == Null
  {
    assert Child(c.form, p[0]) == Null;
  }
}
