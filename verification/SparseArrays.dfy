// The sparse arrays of bash/array.c: a circular doubly linked list with a
// dummy head, cached bookkeeping, and a roving pointer that searches start
// from.

module SparseArrays {
  import opened Options
  import opened SparseMaps

  class Element {
    var ind: int
    var value: string
    var next: Element?
    var prev: Element?

    constructor (ind: int, value: string)
      ensures this.ind == ind && this.value == value && next == null && prev == null
    {
      this.ind, this.value, next, prev := ind, value, null, null;
    }
  }

  ghost function EntriesOf(ns: seq<Element>): (es: Entries)
    reads ns`ind, ns`value
    ensures |es| == |ns|
    ensures forall k :: 0 <= k < |ns| ==> es[k] == (ns[k].ind, ns[k].value)
  {
    if ns == [] then [] else EntriesOf(ns[..|ns| - 1]) + [(ns[|ns| - 1].ind, ns[|ns| - 1].value)]
  }

  // Neighbours point at each other.
  ghost predicate IsRing(c: seq<Element>)
    reads c`next, c`prev
  {
    forall k :: 0 <= k < |c| - 1 ==> c[k].next == c[k + 1] && c[k + 1].prev == c[k]
  }

  // What comes after position k: the next, or `end`.
  function Following(c: seq<Element>, k: nat, end: Element?): Element?
    requires k < |c|
  {
    if k + 1 < |c| then c[k + 1] else end
  }

  // No element twice, nor the head among them.
  predicate Different(ns: seq<Element>, head: Element) {
    head !in ns && forall j, k :: 0 <= j < k < |ns| ==> ns[j] != ns[k]
  }

  lemma DifferentTail(ns: seq<Element>, head: Element, n: nat)
    requires Different(ns, head) && n <= |ns|
    ensures Different(ns[n..], head)
    ensures forall e :: e in ns[..n] ==> e !in ns[n..]
  {
  }

  lemma DifferentMore(e: Element, ns: seq<Element>, head: Element)
    requires Different(ns, head) && e !in ns && e != head
    ensures Different([e] + ns, head)
  {
  }

  // A list linked forward that ends in null.
  ghost predicate IsList(c: seq<Element>)
    reads c`next
  {
    forall k :: 0 <= k < |c| ==> c[k].next == Following(c, k, null)
  }

  // The chain with e after position k.
  function Spliced(c: seq<Element>, k: nat, e: Element): seq<Element>
    requires k < |c|
  {
    c[..k + 1] + [e] + c[k + 1..]
  }

  // A ring except for the link from position k to the next.
  ghost predicate RingBut(c: seq<Element>, k: nat)
    reads c`next, c`prev
  {
    forall j :: 0 <= j < |c| - 1 && j != k ==> c[j].next == c[j + 1] && c[j + 1].prev == c[j]
  }

  lemma SplicedRing(c: seq<Element>, k: nat, e: Element)
    requires k < |c| - 1 && RingBut(c, k)
    requires e.prev == c[k] && e.next == c[k + 1] && c[k].next == e && c[k + 1].prev == e
    ensures IsRing(Spliced(c, k, e))
  {
    var d := Spliced(c, k, e);
    forall j | 0 <= j < |d| - 1 ensures d[j].next == d[j + 1] && d[j + 1].prev == d[j] {
      if j < k {
        assert d[j] == c[j] && d[j + 1] == c[j + 1];
      } else if j > k + 1 {
        assert d[j] == c[j - 1] && d[j + 1] == c[j];
      }
    }
  }

  lemma CutRing(c: seq<Element>, k: nat)
    requires 0 < k < |c| - 1 && c[k - 1].next == c[k + 1] && c[k + 1].prev == c[k - 1]
    requires forall j :: 0 <= j < |c| - 1 && j != k - 1 && j != k ==> c[j].next == c[j + 1] && c[j + 1].prev == c[j]
    ensures IsRing(c[..k] + c[k + 1..])
  {
    var d := c[..k] + c[k + 1..];
    forall j | 0 <= j < |d| - 1 ensures d[j].next == d[j + 1] && d[j + 1].prev == d[j] {
      if j < k - 1 {
        assert d[j] == c[j] && d[j + 1] == c[j + 1];
      } else if j >= k {
        assert d[j] == c[j + 1] && d[j + 1] == c[j + 2];
      }
    }
  }

  class SparseArray {
    var maxIndex: int
    var numElements: int
    var head: Element
    var lastref: Element?
    ghost var nodes: seq<Element>

    // Once around the ring.
    ghost function Chain(): (c: seq<Element>)
      reads `head, `nodes
      ensures |c| == |nodes| + 2
    {
      [head] + nodes + [head]
    }

    ghost function Entries(): Entries
      reads `nodes, nodes`ind, nodes`value
    {
      EntriesOf(nodes)
    }

    // The list is circular and doubly linked both ways, the indices increase,
    // the bookkeeping is exact, and the roving pointer points into the list.
    ghost predicate Valid()
      reads this, head, nodes
    {
      && head.ind == -1 && IsRing(Chain()) && Sorted(Entries())
      && maxIndex == (if nodes == [] then -1 else nodes[|nodes| - 1].ind)
      && numElements == |nodes|
      && (lastref == null || lastref in nodes)
    }

    ghost function Map(): map<int, string>
      requires Valid()
      reads this, head, nodes
    {
      MapOf(Entries())
    }

    // Going round, no element is met twice.
    lemma ChainDistinct(k: nat)
      requires head.ind == -1 && Sorted(Entries()) && k <= |nodes| + 1
      ensures forall j :: 0 <= j <= |nodes| && j != k && k <= |nodes| ==> Chain()[j] != Chain()[k]
      ensures forall j :: 1 <= j <= |nodes| + 1 && j != k && 1 <= k ==> Chain()[j] != Chain()[k]
    {
      var es := Entries();
      forall j | 0 <= j <= |nodes| + 1 ensures Chain()[j].ind == if 1 <= j <= |nodes| then es[j - 1].0 else -1 {
      }
    }

    constructor ()
      ensures Valid() && Map() == map[] && fresh(head) && nodes == [] && lastref == null
    {
      maxIndex, numElements, lastref, nodes := -1, 0, null, [];
      var e := new Element(-1, "");
      head := e;
      new;
      head.next, head.prev := head, head;
    }

    // Puts e, not yet linked, before ae, which stands at k + 1 on the chain.
    method AddBefore(ae: Element, e: Element, ghost k: nat, ghost before: Element)
      requires head.ind == -1 && IsRing(Chain()) && Sorted(Entries()) && e !in Chain()
      requires k <= |nodes| && ae == Chain()[k + 1] && before == Chain()[k]
      modifies `nodes, e`next, e`prev, ae`prev, before`next
      ensures nodes == old(nodes)[..k] + [e] + old(nodes)[k..] && IsRing(Chain())
    {
      hide Sorted, EntriesOf;
      ghost var c := Chain();
      ChainDistinct(k);
      ChainDistinct(k + 1);
      var p := ae.prev;
      p.next := e;
      e.prev := p;
      ae.prev := e;
      e.next := ae;
      SplicedRing(c, k, e);
      nodes := nodes[..k] + [e] + nodes[k..];
      assert Chain() == Spliced(c, k, e);
    }

    // The same after ae, which stands at k.
    method AddAfter(ae: Element, e: Element, ghost k: nat, ghost after: Element)
      requires head.ind == -1 && IsRing(Chain()) && Sorted(Entries()) && e !in Chain()
      requires k <= |nodes| && ae == Chain()[k] && after == Chain()[k + 1]
      modifies `nodes, e`next, e`prev, ae`next, after`prev
      ensures nodes == old(nodes)[..k] + [e] + old(nodes)[k..] && IsRing(Chain())
    {
      hide Sorted, EntriesOf;
      ghost var c := Chain();
      ChainDistinct(k);
      ChainDistinct(k + 1);
      ae.next.prev := e;
      e.next := ae.next;
      e.prev := ae;
      ae.next := e;
      SplicedRing(c, k, e);
      nodes := nodes[..k] + [e] + nodes[k..];
      assert Chain() == Spliced(c, k, e);
    }

    // Counts an element just put at position k, and points at it.
    method Count(e: Element, ghost k: nat, ghost es: Entries)
      requires head.ind == -1 && IsRing(Chain()) && Sorted(es) && k <= |es| && k < |nodes| && nodes[k] == e && e.ind >= 0
      requires Entries() == Inserted(es, k, e.ind, e.value) && numElements == |es|
      requires (k > 0 ==> es[k - 1].0 < e.ind) && (k < |es| ==> e.ind < es[k].0)
      requires nodes != [] && maxIndex == nodes[|nodes| - 1].ind
      modifies `numElements, `lastref
      ensures Valid() && Map() == MapOf(es)[e.ind := e.value]
    {
      hide MapOf, Sorted;
      numElements := numElements + 1;
      lastref := e;
      InsertedMap(es, k, e.ind, e.value);
    }

    // Where a search for i starts, and which way it goes: from the roving
    // pointer, or from the front when that seems closer.
    method StartSearch(i: int) returns (start: Element, forward: bool, ghost k: nat)
      requires Valid() && nodes != []
      ensures k < |nodes| && start == nodes[k]
      ensures if forward then k == 0 || start.ind <= i else i < start.ind
    {
      assert Chain()[0].next == Chain()[1] && Chain()[1] == nodes[0];
      var first := head.next;
      start := first;
      k := 0;
      if lastref != null {
        start := lastref;
        k :| 0 <= k < |nodes| && nodes[k] == lastref;
      }
      forward := i >= start.ind;
      assert Entries()[k].0 == start.ind >= 0;
      if i < start.ind / 2 {
        start, forward, k := first, true, 0;
      }
    }

    lemma Bounds()
      requires Valid() && nodes != []
      ensures head.next == nodes[0] && head.prev == nodes[|nodes| - 1]
      ensures forall k :: 0 <= k < |nodes| ==>
                nodes[0].ind <= nodes[k].ind <= maxIndex && nodes[k] != head && nodes[k].ind == Entries()[k].0 >= 0
    {
      assert Chain()[0].next == Chain()[1] && Chain()[1] == nodes[0];
      assert Chain()[|nodes| + 1].prev == Chain()[|nodes|] && Chain()[|nodes|] == nodes[|nodes| - 1];
      var es := Entries();
      forall k | 0 <= k < |nodes| ensures nodes[0].ind <= nodes[k].ind <= maxIndex && nodes[k].ind == es[k].0 >= 0 {
      }
    }

    // A place among the elements for index i, not at the end.
    ghost predicate Fits(k: nat, i: int)
      requires Valid()
      reads this, head, nodes
    {
      k < |nodes| && (k > 0 ==> nodes[k - 1].ind < i) && i < nodes[k].ind
    }

    method HookBefore(ae: Element, e: Element, ghost k: nat)
      requires Valid() && e !in Chain() && e.ind >= 0 && Fits(k, e.ind) && ae == nodes[k]
      modifies this, head, nodes, e
      ensures Valid() && head == old(head) && Map() == old(Map())[old(e.ind) := old(e.value)]
      ensures nodes == old(nodes)[..k] + [e] + old(nodes)[k..]
    {
      hide MapOf, Sorted, EntriesOf;
      ghost var es := Entries();
      LastIndex();
      assert ae == Chain()[k + 1];
      AddBefore(ae, e, k, Chain()[k]);
      assert Entries() == Inserted(es, k, e.ind, e.value);
      Count(e, k, es);
    }

    method HookAfter(ae: Element, e: Element, ghost k: nat)
      requires Valid() && e !in Chain() && e.ind >= 0 && Fits(k, e.ind) && ae == Chain()[k]
      modifies this, head, nodes, e
      ensures Valid() && head == old(head) && Map() == old(Map())[old(e.ind) := old(e.value)]
      ensures nodes == old(nodes)[..k] + [e] + old(nodes)[k..]
    {
      hide MapOf, Sorted, EntriesOf;
      ghost var es := Entries();
      LastIndex();
      AddAfter(ae, e, k, Chain()[k + 1]);
      assert Entries() == Inserted(es, k, e.ind, e.value);
      Count(e, k, es);
    }

    // At the end, which raises the highest index.
    method HookLast(e: Element)
      requires Valid() && e !in Chain() && e.ind > maxIndex
      modifies this, head, nodes, e
      ensures Valid() && head == old(head) && Map() == old(Map())[old(e.ind) := old(e.value)]
      ensures nodes == old(nodes) + [e]
    {
      hide MapOf, Sorted, EntriesOf;
      ghost var es, n := Entries(), |nodes|;
      LastIndex();
      AddBefore(head, e, n, Chain()[n]);
      maxIndex := e.ind;
      assert Entries() == Inserted(es, n, e.ind, e.value);
      Count(e, n, es);
    }

    // a[i] = v. The exit the original keeps for problems is never taken.
    method Insert(i: nat, v: string) returns (r: int)
      requires Valid()
      modifies this, head, nodes
      ensures r == 0 && Valid() && head == old(head) && Map() == old(Map())[i := v]
      ensures forall e :: e in nodes ==> e in old(nodes) || fresh(e)
    {
      hide MapOf, Sorted, EntriesOf, IsRing;
      var e := new Element(i, v);
      if i > maxIndex {
        HookLast(e);
        return 0;
      }
      LastIndex();
      Bounds();
      if i < head.next.ind {
        HookAfter(head, e, 0);
        return 0;
      }
      InsertAmong(e);
      r := 0;
    }

    // Between the first index and the highest: replaces a value, or finds the place.
    method InsertAmong(e: Element)
      requires Valid() && nodes != [] && e !in Chain() && 0 <= nodes[0].ind <= e.ind <= maxIndex
      modifies this, head, nodes, e
      ensures Valid() && head == old(head) && Map() == old(Map())[old(e.ind) := old(e.value)]
      ensures forall f :: f in nodes ==> f in old(nodes) || f == e
    {
      hide MapOf, Sorted, EntriesOf, IsRing;
      var start, forward, p := StartSearch(e.ind);
      var ae, k := Search(start, forward, p, e.ind);
      if ae.ind == e.ind {
        Replace(ae, e.value, k);
      } else if forward {
        HookBefore(ae, e, k);
      } else {
        HookAfter(ae, e, k + 1);
      }
    }

    lemma LastIndex()
      requires Valid()
      ensures nodes != [] ==> maxIndex == Entries()[|nodes| - 1].0 >= 0
      ensures nodes == [] ==> maxIndex == -1
    {
    }

    // Elements with different indices are different, and in order.
    lemma InOrder(j: nat, k: nat)
      requires Valid() && j < k < |nodes|
      ensures nodes[j].ind < nodes[k].ind
    {
      assert Entries()[j].0 < Entries()[k].0;
    }

    lemma NodesDistinct(k: nat)
      requires Valid() && k < |nodes|
      ensures forall j :: 0 <= j < |nodes| && j != k ==> nodes[j] != nodes[k]
    {
      ChainDistinct(k + 1);
      forall j | 0 <= j < |nodes| && j != k ensures nodes[j] != nodes[k] {
        assert nodes[j] == Chain()[j + 1] && nodes[k] == Chain()[k + 1];
      }
    }

    // The neighbours of the k-th on the chain.
    lemma Around(k: nat)
      requires Valid() && 1 <= k <= |nodes|
      ensures Chain()[k] == nodes[k - 1] && Chain()[k].next == Chain()[k + 1] && Chain()[k].prev == Chain()[k - 1]
    {
      assert Chain()[k - 1].next == Chain()[k];
    }

    // Going from the p-th element on, the element with index i, or the first
    // on the other side of i. The head is never met: where the original gives
    // up there, it cannot be.
    method Search(start: Element, forward: bool, ghost p: nat, i: int) returns (ae: Element, ghost k: nat)
      requires Valid() && p < |nodes| && start == nodes[p] && nodes[0].ind <= i <= maxIndex
      requires if forward then p == 0 || start.ind <= i else i < start.ind
      ensures ae != head && k < |nodes| && ae == nodes[k]
      ensures if ae.ind == i then true
              else if forward then i < ae.ind && k > 0 && nodes[k - 1].ind < i
              else ae.ind < i && k + 1 < |nodes| && i < nodes[k + 1].ind
    {
      hide MapOf, Sorted, EntriesOf, IsRing, Chain, Valid;
      Bounds();
      LastIndex();
      ChainShape();
      ghost var n := |nodes|;
      assert nodes[n - 1].ind == maxIndex;
      ae := start;
      k := p + 1;
      if p > 0 { InOrder(p - 1, p); }
      if p < n - 1 { InOrder(p, p + 1); }
      while ae != head && ae.ind != i && (if forward then ae.ind < i else ae.ind > i)
        invariant 0 <= k <= n + 1 && ae == Chain()[k]
        invariant if forward then k > 0 && (k > 1 ==> nodes[k - 2].ind < i)
                  else k <= n && (k < n ==> i < nodes[k].ind)
        decreases if forward then n + 1 - k else k
      {
        Around(k);
        ae := if forward then ae.next else ae.prev;
        k := if forward then k + 1 else k - 1;
      }
      assert 1 <= k <= n && Chain()[k] == nodes[k - 1];
      k := k - 1;
    }

    method Replace(ae: Element, v: string, ghost k: nat)
      requires Valid() && k < |nodes| && ae == nodes[k]
      modifies ae`value, `lastref
      ensures Valid() && Map() == old(Map())[ae.ind := v]
    {
      hide MapOf, Sorted, EntriesOf, IsRing;
      ghost var es := Entries();
      NodesDistinct(k);
      ae.value := v;
      lastref := ae;
      assert Entries() == es[k := (ae.ind, v)];
      ReplacedMap(es, k, v);
    }

    // Takes the k-th element off the ring.
    method Unlink(ae: Element, ghost k: nat, ghost before: Element, ghost after: Element)
      requires head.ind == -1 && IsRing(Chain()) && Sorted(Entries()) && k < |nodes| && ae == nodes[k]
      requires before == Chain()[k] && after == Chain()[k + 2]
      modifies `nodes, before`next, after`prev
      ensures IsRing(Chain()) && nodes == old(nodes)[..k] + old(nodes)[k + 1..]
      ensures ae.prev == before && ae.next == after
    {
      hide Sorted, EntriesOf;
      ghost var c := Chain();
      ChainDistinct(k);
      ChainDistinct(k + 1);
      ChainDistinct(k + 2);
      assert c[k].next == c[k + 1] && c[k + 1] == ae && c[k + 1].next == c[k + 2] && c[k + 1].prev == c[k];
      ae.next.prev := ae.prev;
      ae.prev.next := ae.next;
      nodes := nodes[..k] + nodes[k + 1..];
      CutRing(c, k + 1);
      assert Chain() == c[..k + 1] + c[k + 2..];
    }

    // The k-th element goes; the roving pointer moves to a neighbour.
    method Detach(ae: Element, ghost k: nat)
      requires Valid() && k < |nodes| && ae == nodes[k]
      modifies this, head, nodes
      ensures Valid() && head == old(head) && Map() == old(Map()) - {ae.ind} && ae !in nodes
      ensures ae.ind in old(Map()) && old(Map())[ae.ind] == ae.value
      ensures nodes == old(nodes)[..k] + old(nodes)[k + 1..] && ae.ind == old(ae.ind)
    {
      hide MapOf, Sorted, EntriesOf, IsRing;
      ghost var es, n, c := Entries(), |nodes|, Chain();
      Bounds();
      LastIndex();
      NodesDistinct(k);
      if k < n - 1 { InOrder(k, n - 1); }
      assert k > 0 ==> c[k] == nodes[k - 1];
      assert k + 1 < n ==> c[k + 2] == nodes[k + 1];
      Unlink(ae, k, c[k], c[k + 2]);
      assert Entries() == Removed(es, k);
      assert k > 0 ==> nodes[k - 1] == c[k];
      assert k < n - 1 ==> nodes[k] == c[k + 2] && nodes[|nodes| - 1] == old(nodes)[n - 1];
      RemovedMap(es, k);
      MapOfAt(es, k);
      Forget(ae, k);
    }

    // The bookkeeping after the element that was k-th has gone.
    method Forget(ae: Element, ghost k: nat)
      requires head.ind == -1 && IsRing(Chain()) && Sorted(Entries()) && k <= |nodes| == numElements - 1
      requires ae !in nodes && ae != head && (lastref == null || lastref == ae || lastref in nodes)
      requires ae.prev == (if k > 0 then nodes[k - 1] else head) && ae.next == (if k < |nodes| then nodes[k] else head)
      requires maxIndex == if k < |nodes| then nodes[|nodes| - 1].ind else ae.ind
      requires k < |nodes| ==> ae.ind != maxIndex
      requires head !in nodes
      modifies `numElements, `maxIndex, `lastref
      ensures Valid()
    {
      hide Sorted, EntriesOf, IsRing;
      numElements := numElements - 1;
      if ae.ind == maxIndex { maxIndex := ae.prev.ind; }
      if ae.next != head {
        lastref := ae.next;
      } else if ae.prev != head {
        lastref := ae.prev;
      } else {
        lastref := null;
      }
    }

    // Deletes the element with index i, and returns it.
    method Remove(i: nat) returns (ae: Element?)
      requires Valid()
      modifies this, head, nodes
      ensures Valid() && head == old(head) && Map() == old(Map()) - {i}
      ensures if i in old(Map()) then ae != null && ae.ind == i && ae.value == old(Map())[i] && ae !in nodes else ae == null
      ensures forall e :: e in nodes ==> e in old(nodes)
    {
      hide MapOf, Sorted, EntriesOf, IsRing, Chain;
      ghost var es := Entries();
      if numElements == 0 {
        Absent(i, 0);
        return null;
      }
      Bounds();
      if i > maxIndex || i < head.next.ind {
        Absent(i, if i > maxIndex then |nodes| else 0);
        return null;
      }
      var start, forward, p := StartSearch(i);
      var found, k := Search(start, forward, p, i);
      if found.ind != i {
        Absent(i, if forward then k else k + 1);
        return null;
      }
      Detach(found, k);
      ae := found;
    }

    // No element stands between its neighbours at p.
    lemma Absent(i: int, p: nat)
      requires Valid() && p <= |nodes| && (p > 0 ==> nodes[p - 1].ind < i) && (p < |nodes| ==> i < nodes[p].ind)
      ensures i !in Map() && Map() - {i} == Map()
    {
      hide MapOf, Sorted, EntriesOf, IsRing;
      NotBetween(Entries(), p, i);
    }

    lemma NoElements()
      requires Valid()
      ensures numElements == |nodes| && Map() == MapOf(Entries()) && Sorted(Entries())
    {
    }

    // The roving pointer moves to the k-th element.
    method Rove(ae: Element, ghost k: nat)
      requires Valid() && k < |nodes| && ae == nodes[k]
      modifies `lastref
      ensures Valid() && Map() == old(Map()) && Entries() == old(Entries()) && nodes == old(nodes) && head == old(head)
    {
      hide MapOf, Sorted, EntriesOf, IsRing;
      lastref := ae;
    }

    // The value of a[i]. Only the roving pointer may move.
    method Reference(i: nat) returns (v: Option<string>)
      requires Valid()
      modifies `lastref
      ensures Valid() && Map() == old(Map())
      ensures v == Lookup(Map(), i)
    {
      hide MapOf, Sorted, EntriesOf, IsRing, Chain, Valid;
      NoElements();
      if numElements == 0 {
        Absent(i, 0);
        return None;
      }
      Bounds();
      if i > maxIndex || i < head.next.ind {
        Absent(i, if i > maxIndex then |nodes| else 0);
        return None;
      }
      var start, forward, p := StartSearch(i);
      var ae, k := Search(start, forward, p, i);
      Rove(ae, k);
      if ae.ind == i {
        MapOfAt(Entries(), k);
        return Some(ae.value);
      }
      Absent(i, if forward then k else k + 1);
      v := None;
    }

    method Flush()
      requires Valid()
      modifies this, head
      ensures Valid() && head == old(head) && Map() == map[] && nodes == []
    {
      head.next, head.prev := head, head;
      nodes := [];
      maxIndex, numElements, lastref := -1, 0, null;
    }

    // A copy in new elements; its roving pointer stands where this one's does.
    method Copy() returns (a: SparseArray)
      requires Valid()
      ensures fresh(a) && fresh(a.head) && (forall e :: e in a.nodes ==> fresh(e))
      ensures a.Valid() && a.Entries() == Entries()
    {
      hide MapOf, Sorted, EntriesOf, IsRing, Chain, Valid;
      ghost var es, c, n := Entries(), Chain(), |nodes|;
      NoElements();
      a := new SparseArray();
      a.maxIndex, a.numElements := maxIndex, numElements;
      var h := head;
      ghost var k, last := 0, a.head;
      RingRound();
      LastIndex();
      assert a.Entries() == es[..0];
      ChainShape();
      a.ChainShape();
      var ae := head.next;
      while ae != h
        invariant 0 <= k <= n && ae == c[k + 1]
        invariant fresh(a) && fresh(a.head) && fresh(last) && forall e :: e in a.nodes ==> fresh(e)
        invariant a.maxIndex == old(maxIndex) && a.numElements == n && (a.lastref == null || a.lastref in a.nodes)
        invariant a.head.ind == -1 && IsRing(a.Chain()) && a.Entries() == es[..k] && last == a.Chain()[|a.nodes|]
        decreases n - k
      {
        assert es[k] == (ae.ind, ae.value);
        SortedPrefix(es, k);
        last := CopyElement(ae, a, last);
        TakeOne(es, k);
        ae := ae.next;
        k := k + 1;
      }
      assert es[..n] == es;
      a.Accepted();
    }

    lemma Accepted()
      requires head.ind == -1 && IsRing(Chain()) && Sorted(Entries()) && numElements == |nodes|
      requires maxIndex == (if nodes == [] then -1 else Entries()[|nodes| - 1].0) && (lastref == null || lastref in nodes)
      ensures Valid()
    {
      hide Sorted, IsRing, MapOf;
    }

    lemma ChainShape()
      ensures |Chain()| == |nodes| + 2 && Chain()[0] == head && Chain()[|nodes| + 1] == head
      ensures forall k :: 0 <= k < |nodes| ==> Chain()[k + 1] == nodes[k]
    {
    }

    // The ring, element by element: it comes back to the head after the last.
    lemma Circle()
      requires head.ind == -1 && IsRing(Chain()) && Sorted(Entries())
      ensures forall j :: 0 <= j <= |nodes| ==> Chain()[j].next == Chain()[j + 1]
      ensures forall j :: 1 <= j <= |nodes| ==> Chain()[j] != head
    {
      forall j | 1 <= j <= |nodes| ensures Chain()[j] != head {
        ChainDistinct(j);
      }
    }

    lemma RingRound()
      requires Valid()
      ensures forall j :: 0 <= j <= |nodes| ==> Chain()[j].next == Chain()[j + 1]
      ensures forall j :: 1 <= j <= |nodes| ==> Chain()[j] != head
    {
      Circle();
    }

    // Copies one element to the end of a, and the roving pointer if it is there.
    method CopyElement(ae: Element, a: SparseArray, ghost last: Element) returns (ghost e': Element)
      requires head.next != null
      requires a.head.ind == -1 && IsRing(a.Chain()) && Sorted(a.Entries()) && last == a.Chain()[|a.nodes|]
      modifies a`nodes, a`lastref, a.head`next, a.head`prev, last`next
      ensures fresh(e') && a.nodes == old(a.nodes) + [e'] && IsRing(a.Chain()) && e' == a.Chain()[|a.nodes|]
      ensures a.Entries() == old(a.Entries()) + [(ae.ind, ae.value)]
      ensures a.lastref == old(a.lastref) || a.lastref == e'
    {
      hide Sorted, EntriesOf, IsRing;
      var e := new Element(ae.ind, ae.value);
      var atRef := ae == if lastref != null then lastref else head.next;
      a.Link(e, last);
      if atRef { a.lastref := e; }
      e' := e;
    }

    // Adds an element at the end, without the bookkeeping.
    method Link(e: Element, ghost last: Element)
      requires head.ind == -1 && IsRing(Chain()) && Sorted(Entries()) && e !in Chain() && last == Chain()[|nodes|]
      modifies `nodes, e`next, e`prev, head`prev, last`next
      ensures IsRing(Chain()) && nodes == old(nodes) + [e]
      ensures Entries() == old(Entries()) + [(e.ind, e.value)]
    {
      hide Sorted, EntriesOf, IsRing;
      AddBefore(head, e, |nodes|, last);
    }

    lemma AroundHead()
      requires Valid()
      ensures head.next == Chain()[1] && head.prev == Chain()[|nodes|]
    {
      assert Chain()[0].next == Chain()[1];
      assert Chain()[|nodes| + 1].prev == Chain()[|nodes|];
    }

    // Adds d to the indices from the p-th element on.
    method Renumber(start: Element, d: int, ghost p: nat, ghost es: Entries)
      requires IsRing(Chain()) && p <= |nodes| && start == Chain()[p + 1] && Different(nodes, head)
      requires es == Entries()
      modifies nodes`ind
      ensures Entries() == MovedFrom(es, p, d) && head.ind == old(head.ind)
    {
      hide EntriesOf, MovedFrom;
      var ae := start;
      ghost var k := p;
      while ae != head
        invariant p <= k <= |nodes| && ae == Chain()[k + 1] && head.ind == old(head.ind)
        invariant forall j :: 0 <= j < |nodes| ==> nodes[j].ind == old(nodes[j].ind) + if p <= j < k then d else 0
        decreases |nodes| - k
      {
        assert Chain()[k + 1].next == Chain()[k + 2] && ae == nodes[k];
        ae.ind := ae.ind + d;
        ae := ae.next;
        k := k + 1;
      }
      MovedFromIs(es, p, d, Entries());
    }

    // The same, with the bookkeeping.
    method Reindex(start: Element, d: int, ghost p: nat, ghost es: Entries)
      requires head.ind == -1 && IsRing(Chain()) && p <= |nodes| && start == Chain()[p + 1] && Different(nodes, head)
      requires numElements == |nodes| && es == Entries() && Sorted(MovedFrom(es, p, d))
      modifies `maxIndex, `lastref, nodes`ind
      ensures Valid() && Entries() == MovedFrom(es, p, d)
    {
      hide MapOf, EntriesOf, IsRing, Sorted, MovedFrom, Different;
      LastOnRing();
      Renumber(start, d, p, es);
      maxIndex := head.prev.ind;
      lastref := null;
    }

    lemma LastOnRing()
      requires IsRing(Chain())
      ensures head.prev == if nodes == [] then head else nodes[|nodes| - 1]
    {
      assert Chain()[|nodes| + 1].prev == Chain()[|nodes|];
    }

    // Moves the indices n up, and puts v, if there is one, at 0.
    method RShift(n: int, v: Option<string>) returns (count: int)
      requires Valid()
      modifies this, head, nodes
      ensures Valid() && head == old(head) && Entries() == ShiftRight(old(Entries()), n, v)
      ensures count == |Entries()|
      ensures forall e :: e in nodes ==> e in old(nodes) || fresh(e)
    {
      hide MapOf, EntriesOf, IsRing, Sorted, Different, MovedFrom, Chain;
      ghost var es := Entries();
      if numElements == 0 && v.None? { return 0; }
      if n <= 0 { return numElements; }
      AllDistinct();
      ShiftRightSorted(es, n, v);
      ShiftRightMoves(es, n, v);
      ChainAt(0);
      AroundHead();
      var ae := head.next;
      ghost var p := 0;
      if v.Some? {
        ae := PutFirst(v.value);
        p := 1;
        if numElements == 1 {
          maxIndex := 0;
          ShiftRightEmpty(n, v);
          assert es == [];
          return 1;
        }
      } else {
        assert [] + es == es;
      }
      Reindex(ae, n, p, Entries());
      count := numElements;
    }

    lemma ChainAt(p: nat)
      requires p <= |nodes|
      ensures Chain()[0] == head && Chain()[p + 1] == if p < |nodes| then nodes[p] else head
    {
    }

    // Puts v at 0 in front, whatever the other indices; what was first is returned.
    method PutFirst(v: string) returns (ae: Element)
      requires Valid()
      modifies this, head, nodes
      ensures head == old(head) && head.ind == -1 && IsRing(Chain()) && Different(nodes, head)
      ensures Entries() == [(0, v)] + old(Entries()) && numElements == |nodes| && maxIndex == old(maxIndex)
      ensures lastref == old(lastref) && ae == Chain()[2]
      ensures |nodes| > 0 && fresh(nodes[0]) && nodes[1..] == old(nodes)
    {
      hide MapOf, EntriesOf, IsRing, Sorted, Different;
      AroundHead();
      AllDistinct();
      ae := head.next;
      var e := new Element(0, v);
      DifferentMore(e, nodes, head);
      AddBefore(ae, e, 0, head);
      assert nodes == [e] + old(nodes);
      numElements := numElements + 1;
    }

    lemma AllDistinct()
      requires Valid()
      ensures Different(nodes, head)
    {
      forall j, k | 0 <= j < k < |nodes| ensures nodes[j] != nodes[k] { NodesDistinct(k); }
      forall j | 0 <= j < |nodes| ensures nodes[j] != head { assert Entries()[j].0 >= 0; }
    }

    // Takes the first n elements off, as a list of their own that ends in null.
    method CutFront(ae: Element, n: nat, ghost last: Element)
      requires head.ind == -1 && IsRing(Chain()) && Sorted(Entries())
      requires 0 < n < |nodes| && ae == nodes[n] && last == nodes[n - 1]
      modifies `nodes, head`next, ae`prev, last`next
      ensures nodes == old(nodes)[n..] && IsRing(Chain()) && IsList(old(nodes)[..n])
      ensures Entries() == old(Entries())[n..] && ae == Chain()[1]
    {
      hide Sorted, EntriesOf;
      ghost var c := Chain();
      Circle();
      ChainDistinct(0);
      ChainDistinct(n);
      ChainDistinct(n + 1);
      assert c[n].next == c[n + 1] && c[n + 1].prev == c[n] && c[n] == last && c[n + 1] == ae;
      assert forall j :: 0 <= j < n ==> c[j + 1] == nodes[j];
      ae.prev.next := null;
      head.next := ae;
      ae.prev := head;
      nodes := nodes[n..];
      assert forall j :: 0 < j <= |nodes| + 1 ==> Chain()[j] == c[j + n];
    }

    // Cuts the ring open behind the last element, and empties the array.
    method CutAll(first: Element)
      requires Valid() && nodes != [] && first == nodes[0]
      modifies this, head`next, head`prev, nodes`next
      ensures Valid() && head == old(head) && nodes == [] && IsList(old(nodes))
      ensures forall e :: e in old(nodes) ==> e.ind == old(e.ind) && e.value == old(e.value)
    {
      hide EntriesOf, IsRing, IsList, Different, Chain, Onward;
      AllDistinct();
      var last := FindLast(first);
      NextNodes();
      CutOpen(last);
      maxIndex, numElements, lastref := -1, 0, null;
    }

    method FindLast(first: Element) returns (last: Element)
      requires Valid() && nodes != [] && first == nodes[0]
      ensures last == nodes[|nodes| - 1]
    {
      hide EntriesOf, IsRing, Sorted;
      last := first;
      ghost var k := 0;
      NextNode(0);
      while last.next != head
        invariant 0 <= k < |nodes| && last == nodes[k] && last.next == Following(nodes, k, head)
        decreases |nodes| - k
      {
        last := last.next;
        k := k + 1;
        NextNode(k);
      }
      AllDistinct();
    }

    lemma NextNode(j: nat)
      requires Valid() && j < |nodes|
      ensures nodes[j].next == Following(nodes, j, head)
    {
      assert Chain()[j + 1].next == Chain()[j + 2];
    }

    // From every element to the next, and from the last to the head.
    ghost predicate Onward()
      reads this, nodes
    {
      forall j :: 0 <= j < |nodes| ==> nodes[j].next == Following(nodes, j, head)
    }

    lemma NextNodes()
      requires Valid()
      ensures Onward()
    {
      hide EntriesOf, IsRing, Sorted, Chain;
      forall j | 0 <= j < |nodes| ensures nodes[j].next == Following(nodes, j, head) { NextNode(j); }
    }

    method CutOpen(last: Element)
      requires nodes != [] && last == nodes[|nodes| - 1] && Different(nodes, head)
      requires Onward()
      modifies `nodes, last`next, head`next, head`prev
      ensures nodes == [] && IsRing(Chain()) && IsList(old(nodes))
    {
      last.next := null;
      head.next, head.prev := head, head;
      nodes := [];
    }

    // Drops the first n elements and moves the indices of the others n down.
    // The dropped ones are returned, unless they are to be disposed of.
    method Shift(n: int, dispose: bool) returns (ret: Element?)
      requires Valid()
      modifies this, head, nodes
      ensures Valid() && head == old(head) && Entries() == ShiftLeft(old(Entries()), n)
      ensures ret != null <==> !dispose && n > 0 && old(nodes) != []
      ensures ret != null ==>
                var m := if n < |old(nodes)| then n else |old(nodes)|;
                && ret == old(nodes)[0] && IsList(old(nodes)[..m]) && nodes == old(nodes)[m..]
                && forall e :: e in old(nodes)[..m] ==> e.ind == old(e.ind) && e.value == old(e.value)
    {
      hide MapOf, Sorted, EntriesOf, IsRing, IsList;
      if numElements == 0 || n <= 0 { return null; }
      Bounds();
      lastref := null;
      var first := head.next;
      var ae := Skip(n);
      assert nodes[..|nodes|] == nodes;
      if ae == head {
        if dispose {
          Flush();
          return null;
        }
        CutAll(first);
        return first;
      }
      ShiftSome(ae, n);
      ret := if dispose then null else first;
    }

    // The element n places along, or the head if there are no more than n.
    method Skip(n: nat) returns (ae: Element)
      requires Valid()
      ensures if n < |nodes| then ae == nodes[n] && ae != head else ae == head
    {
      hide MapOf, Sorted, EntriesOf, IsRing;
      ghost var c := Chain();
      Circle();
      assert c[0].next == c[1];
      ae := head.next;
      var i := 0;
      while ae != head && i < n
        invariant 0 <= i <= |nodes| && i <= n && ae == c[i + 1]
        decreases |nodes| - i
      {
        assert c[i + 1].next == c[i + 2];
        ae := ae.next;
        i := i + 1;
      }
    }

    method ShiftSome(ae: Element, n: int)
      requires Valid() && 0 < n < |nodes| && ae == nodes[n]
      modifies this, head, nodes
      ensures Valid() && head == old(head) && Entries() == ShiftLeft(old(Entries()), n)
      ensures IsList(old(nodes)[..n]) && nodes == old(nodes)[n..]
      ensures forall e :: e in old(nodes)[..n] ==> e.ind == old(e.ind) && e.value == old(e.value)
    {
      hide MapOf, Sorted, EntriesOf, IsRing, IsList, Different, ShiftLeft, MovedFrom, Chain;
      ghost var es := Entries();
      AllDistinct();
      DifferentTail(nodes, head, n);
      ShiftLeftSorted(es, n);
      ShiftLeftMoves(es, n);
      numElements := numElements - n;
      CutFront(ae, n, nodes[n - 1]);
      Reindex(ae, -n, 0, es[n..]);
    }

    ghost function Repr(): set<object>
      reads this
    {
      {this, head} + set e | e in nodes
    }

    // One operation, through to its answer. A copy is made and set aside.
    method Perform(op: Op) returns (answer: Option<string>)
      requires Valid()
      modifies Repr()
      ensures Valid() && head == old(head) && (answer, Map()) == OnMap(old(Map()), op)
      ensures fresh(Repr() - old(Repr()))
    {
      hide MapOf, Sorted, EntriesOf, IsRing;
      answer := None;
      match op {
        case Insert(i, v) =>
          var _ := Insert(i, v);
        case Remove(i) =>
          var ae := Remove(i);
          if ae != null { answer := Some(ae.value); }
        case Reference(i) => answer := Reference(i);
        case Flush => Flush();
        case Copy =>
          var _ := Copy();
      }
    }
  }

  // Any run of operations on a new array answers as a finite map would,
  // wherever the roving pointer strays.
  method Replay(ops: seq<Op>) returns (answers: seq<Option<string>>)
    ensures answers == Answers(map[], ops)
  {
    hide MapOf, Sorted, EntriesOf, IsRing, OnMap, Answers, SparseArray.Valid;
    var a := new SparseArray();
    answers := [];
    for n := 0 to |ops|
      invariant fresh(a.Repr()) && a.Valid()
      invariant Answers(map[], ops) == answers + Answers(a.Map(), ops[n..])
    {
      AnswersStep(a.Map(), ops, n, answers);
      var answer := a.Perform(ops[n]);
      answers := answers + [answer];
    }
    AnswersDone(a.Map(), ops);
  }
}
