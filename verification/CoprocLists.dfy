// The list of coprocesses of bash/execute_cmd.c: a linked list with a tail
// pointer, changed in place.

module CoprocLists {

  class Coproc {
    var pid: int
    var dead: bool
    var next: Coproc?

    constructor (pid: int, dead: bool)
      ensures this.pid == pid && this.dead == dead && next == null
    {
      this.pid, this.dead, next := pid, dead, null;
    }
  }

  function Following(c: seq<Coproc>, k: nat): Coproc?
    requires k < |c|
  {
    if k + 1 < |c| then c[k + 1] else null
  }

  function First(c: seq<Coproc>): Coproc? { if c == [] then null else c[0] }

  function Last(c: seq<Coproc>): Coproc? { if c == [] then null else c[|c| - 1] }

  // Linked in order, ending in null.
  ghost predicate IsList(c: seq<Coproc>)
    reads (set x | x in c)`next
  {
    forall k :: 0 <= k < |c| ==> c[k].next == Following(c, k)
  }

  // Linked in order; where the last points does not matter.
  ghost predicate IsOpen(c: seq<Coproc>)
    reads (set x | x in c)`next
  {
    forall k :: 0 <= k < |c| - 1 ==> c[k].next == c[k + 1]
  }

  predicate NoRepeat(c: seq<Coproc>) {
    forall j, k :: 0 <= j < k < |c| ==> c[j] != c[k]
  }

  // A list that ends in null is acyclic.
  lemma {:induction false} ListDistinct(c: seq<Coproc>, j: nat, k: nat)
    requires IsList(c) && j < k < |c|
    ensures c[j] != c[k]
    decreases |c| - k
  {
    assert c[j].next == Following(c, j) && c[k].next == Following(c, k);
    if k + 1 < |c| { ListDistinct(c, j + 1, k + 1); }
  }

  lemma ListNoRepeat(c: seq<Coproc>)
    requires IsList(c)
    ensures NoRepeat(c)
  {
    forall j, k | 0 <= j < k < |c| ensures c[j] != c[k] { ListDistinct(c, j, k); }
  }

  // The position of a process, or the length if it is not there.
  function Position(c: seq<Coproc>, pid: int): (k: nat)
    reads (set x | x in c)`pid
    ensures k <= |c| && (k < |c| ==> c[k].pid == pid)
    ensures forall j :: 0 <= j < k ==> c[j].pid != pid
  {
    if c == [] || c[0].pid == pid then 0 else 1 + Position(c[1..], pid)
  }

  function Without(c: seq<Coproc>, k: nat): seq<Coproc>
    requires k < |c|
  {
    c[..k] + c[k + 1..]
  }

  // The living, in order.
  function Alive(c: seq<Coproc>): (a: seq<Coproc>)
    reads (set x | x in c)`dead
  {
    if c == [] then []
    else
      var x := c[|c| - 1];
      Alive(c[..|c| - 1]) + if x.dead then [] else [x]
  }

  lemma {:induction false} AliveMembers(c: seq<Coproc>)
    ensures forall x :: x in Alive(c) ==> x in c && !x.dead
    ensures forall x :: x in c && !x.dead ==> x in Alive(c)
  {
    if c != [] {
      var n := |c| - 1;
      AliveMembers(c[..n]);
      assert c == c[..n] + [c[n]];
    }
  }

  // The list whose k-th element the one before it, or the head, passes over.
  lemma CutList(c: seq<Coproc>, k: nat)
    requires k < |c| && (forall j :: 0 <= j < |c| && j + 1 != k ==> c[j].next == Following(c, j))
    requires k > 0 ==> c[k - 1].next == Following(c, k)
    ensures IsList(Without(c, k))
  {
    var d := Without(c, k);
    forall j | 0 <= j < |d| ensures d[j].next == Following(d, j) {
      assert d[j] == if j < k then c[j] else c[j + 1];
      assert j + 1 < |d| ==> d[j + 1] == if j + 1 < k then c[j + 1] else c[j + 2];
    }
  }

  // The links from position k on are still as they were.
  ghost predicate Rest(c: seq<Coproc>, k: nat)
    reads (set x | x in c)`next
  {
    forall j :: k <= j < |c| ==> c[j].next == Following(c, j)
  }

  lemma RestNext(c: seq<Coproc>, k: nat)
    requires Rest(c, k) && k < |c|
    ensures c[k].next == Following(c, k) && Rest(c, k + 1)
  {
  }

  lemma AliveMore(c: seq<Coproc>, k: nat)
    requires k < |c|
    ensures Alive(c[..k + 1]) == if c[k].dead then Alive(c[..k]) else Alive(c[..k]) + [c[k]]
  {
    assert c[..k + 1][..k] == c[..k];
  }

  class CoprocList {
    var head: Coproc?
    var tail: Coproc?
    var ncoproc: int
    ghost var nodes: seq<Coproc>

    ghost predicate Valid()
      reads this, (set x | x in nodes)`next
    {
      head == First(nodes) && tail == Last(nodes) && ncoproc == |nodes| && IsList(nodes)
    }

    constructor ()
      ensures Valid() && nodes == []
    {
      head, tail, ncoproc, nodes := null, null, 0, [];
    }

    // cpl_add: at the end.
    method Add(c: Coproc)
      requires Valid() && c !in nodes && c.next == null
      modifies this, (set x | x in nodes)`next
      ensures Valid() && nodes == old(nodes) + [c]
    {
      ListNoRepeat(nodes);
      if head == null {
        head, tail, ncoproc := c, c, 0;
      } else {
        tail.next := c;
        tail := c;
      }
      ncoproc := ncoproc + 1;
      nodes := nodes + [c];
    }

    // cpl_delete: the first with that process id, which is returned.
    method Delete(pid: int) returns (p: Coproc?)
      requires Valid()
      modifies this, (set x | x in nodes)`next
      ensures Valid()
      ensures var k := Position(old(nodes), pid);
              if k < |old(nodes)| then p == old(nodes)[k] && nodes == Without(old(nodes), k)
              else p == null && nodes == old(nodes)
    {
      hide Position, IsList;
      var prev;
      prev, p := Find(pid);
      if p == null { return; }
      Unlink(prev, p, Position(nodes, pid));
    }

    // The first with that process id and the one before it; at the head, itself.
    method Find(pid: int) returns (prev: Coproc?, p: Coproc?)
      requires Valid()
      ensures var k := Position(nodes, pid);
              if k < |nodes| then p == nodes[k] && prev == nodes[if k == 0 then 0 else k - 1] else p == null
    {
      hide Position;
      ghost var k := 0;
      prev, p := head, head;
      while p != null && p.pid != pid
        invariant 0 <= k <= |nodes| && p == (if k < |nodes| then nodes[k] else null)
        invariant prev == (if k == 0 then head else nodes[k - 1])
        invariant forall j :: 0 <= j < k ==> nodes[j].pid != pid
        decreases |nodes| - k
      {
        assert nodes[k].next == Following(nodes, k);
        prev := p;
        p := p.next;
        k := k + 1;
      }
      assert k == Position(nodes, pid);
    }

    method Unlink(prev: Coproc, p: Coproc, ghost k: nat)
      requires Valid() && k < |nodes| && p == nodes[k] && prev == nodes[if k == 0 then 0 else k - 1]
      modifies this, (set x | x in nodes)`next
      ensures Valid() && nodes == Without(old(nodes), k)
    {
      ghost var c := nodes;
      ListNoRepeat(c);
      assert forall j :: 0 <= j < |c| ==> c[j].next == Following(c, j);
      prev.next := p.next;
      CutList(c, k);
      Ends(prev, p, k);
    }

    // The head, the tail and the count after p, the k-th, is unlinked.
    method Ends(prev: Coproc, p: Coproc, ghost k: nat)
      requires k < |nodes| && p == nodes[k] && prev == nodes[if k == 0 then 0 else k - 1] && NoRepeat(nodes)
      requires head == First(nodes) && tail == Last(nodes) && ncoproc == |nodes|
      requires IsList(Without(nodes, k)) && (k == 0 ==> p.next == First(Without(nodes, k)))
      modifies this
      ensures Valid() && nodes == Without(old(nodes), k)
    {
      hide IsList;
      if p == head {
        head := head.next;
      } else if p == tail {
        tail := prev;
      }
      ncoproc := ncoproc - 1;
      if ncoproc == 0 {
        head, tail := null, null;
      } else if ncoproc == 1 {
        tail := head;
      }
      nodes := Without(nodes, k);
    }

    // cpl_reap: exactly the dead go, the others keep their order.
    method Reap()
      requires Valid()
      modifies this, (set x | x in nodes)`next
      ensures Valid() && nodes == Alive(old(nodes))
    {
      hide Alive, Rest, IsOpen, NoRepeat, IsList;
      ghost var c, k := nodes, 0;
      ListNoRepeat(c);
      AliveNoRepeat(c);
      AliveNone(c);
      AliveMembers(c);
      var nh: Coproc?, nt: Coproc? := null, null;
      var p := head;
      while p != null
        invariant 0 <= k <= |c| && p == (if k < |c| then c[k] else null) && ReapedTo(c, k, nh, nt)
        decreases |c| - k
      {
        nh, nt, p := ReapOne(p, nh, nt, c, k);
        k := k + 1;
      }
      assert c[..|c|] == c;
      AliveMembers(c);
      ghost var a := Alive(c);
      assert forall x :: x in a ==> x in c;
      Finish(nh, nt, a);
    }

    // The first k have been looked at: the living among them are linked up.
    ghost predicate ReapedTo(c: seq<Coproc>, k: nat, nh: Coproc?, nt: Coproc?)
      requires k <= |c|
      reads `ncoproc, (set x | x in c)`next, (set x | x in c)`dead
    {
      AliveMembers(c[..k]);
      var a := Alive(c[..k]);
      && (forall x :: x in a ==> x in c)
      && nh == First(a) && nt == Last(a) && IsOpen(a) && Rest(c, k) && NoRepeat(c) && ncoproc == |a| + |c| - k
    }

    method ReapOne(p: Coproc, nh: Coproc?, nt: Coproc?, ghost c: seq<Coproc>, ghost k: nat)
      returns (nh': Coproc?, nt': Coproc?, next: Coproc?)
      requires k < |c| && p == c[k] && ReapedTo(c, k, nh, nt)
      modifies `ncoproc, (set x | x in c)`next
      ensures next == Following(c, k) && ReapedTo(c, k + 1, nh', nt')
    {
      hide Alive, Rest, IsOpen, NoRepeat;
      AliveMembers(c[..k + 1]);
      AliveMore(c, k);
      RestNext(c, k);
      nh', nt', next := nh, nt, p.next;
      if p.dead {
        ncoproc := ncoproc - 1;
      } else if nh == null {
        OpenOne(p);
        nh', nt' := p, p;
      } else {
        LastAlive(c, k);
        Append(Alive(c[..k]), nt, p, c, k);
        nt' := p;
      }
    }

    // Links p behind the living so far.
    method Append(ghost a: seq<Coproc>, nt: Coproc, p: Coproc, ghost c: seq<Coproc>, ghost k: nat)
      requires k < |c| && a == Alive(c[..k]) && p == c[k] && IsOpen(a) && a != [] && nt == Last(a) && NoRepeat(c)
      requires Rest(c, k + 1)
      modifies nt`next
      ensures IsOpen(a + [p]) && Rest(c, k + 1) && nt in c
    {
      AliveMembers(c[..k]);
      assert nt in a && nt in c[..k];
      AliveNoRepeat(c[..k]);
      nt.next := p;
    }

    method Finish(nh: Coproc?, nt: Coproc?, ghost a: seq<Coproc>)
      requires nh == First(a) && nt == Last(a) && IsOpen(a) && NoRepeat(a) && ncoproc == |a|
      modifies this, (set x | x in a)`next
      ensures Valid() && nodes == a
    {
      if ncoproc == 0 {
        head, tail := null, null;
      } else {
        if nt != null { nt.next := null; }
        head, tail := nh, nt;
        if ncoproc == 1 { tail := head; }
      }
      nodes := a;
    }
  }

  lemma LastAlive(c: seq<Coproc>, k: nat)
    requires k <= |c| && Alive(c[..k]) != []
    ensures Last(Alive(c[..k])) in c
  {
    AliveMembers(c[..k]);
    assert Last(Alive(c[..k])) in Alive(c[..k]);
  }

  lemma AliveNone(c: seq<Coproc>)
    ensures Alive(c[..0]) == [] && IsOpen(Alive(c[..0])) && (IsList(c) ==> Rest(c, 0))
  {
  }

  lemma OpenOne(p: Coproc)
    ensures IsOpen([p]) && [] + [p] == [p]
  {
  }

  lemma {:induction false} AliveNoRepeat(c: seq<Coproc>)
    requires NoRepeat(c)
    ensures NoRepeat(Alive(c))
    decreases |c|
  {
    if c != [] {
      var n := |c| - 1;
      AliveNoRepeat(c[..n]);
      AliveMembers(c[..n]);
      assert c[n] !in c[..n];
    }
  }
}
