// The second implementation of sparse arrays, bash/array2.c: an index into a
// growing buffer of slots. It answers as the same finite map.

module DirectArrays {
  import opened Options
  import opened SparseMaps

  const ARRAY_DEFAULT_SIZE: nat := 1024
  const ARRAY_MAX_DOUBLE: nat := 16777216

  type Slots = seq<Option<string>>

  function Count(s: Slots): nat {
    if s == [] then 0 else Count(s[..|s| - 1]) + if s[|s| - 1].Some? then 1 else 0
  }

  function Used(s: Slots): map<int, string> {
    map i | 0 <= i < |s| && s[i].Some? :: s[i].value
  }

  lemma {:induction false} CountUpdate(s: Slots, i: nat, v: Option<string>)
    requires i < |s|
    ensures Count(s[i := v]) == Count(s) - (if s[i].Some? then 1 else 0) + if v.Some? then 1 else 0
  {
    var n := |s| - 1;
    var t := s[i := v];
    if i == n {
      assert t[..n] == s[..n];
    } else {
      assert t[..n] == s[..n][i := v] && t[n] == s[n];
      CountUpdate(s[..n], i, v);
    }
  }

  lemma UsedUpdate(s: Slots, i: nat, v: Option<string>)
    requires i < |s|
    ensures Used(s[i := v]) == if v.Some? then Used(s)[i := v.value] else Used(s) - {i}
    ensures Lookup(Used(s), i) == s[i]
  {
  }

  lemma Unused(s: Slots, i: nat)
    requires i < |s| ==> s[i].None?
    ensures i !in Used(s) && Used(s) - {i} == Used(s)
  {
  }

  lemma {:induction false} CountZero(s: Slots)
    ensures Count(s) == 0 <==> forall i :: 0 <= i < |s| ==> s[i].None?
  {
    if s != [] { CountZero(s[..|s| - 1]); }
  }

  // Unset slots at the end neither count nor are used.
  lemma {:induction false} CountMore(s: Slots, n: nat)
    ensures Count(s + seq(n, _ => None)) == Count(s)
    decreases n
  {
    var t := s + seq(n, _ => None);
    if n > 0 {
      assert t[..|t| - 1] == s + seq(n - 1, _ => None);
      CountMore(s, n - 1);
    } else {
      assert t == s;
    }
  }

  class DirectArray {
    var maxIndex: int
    var firstIndex: int
    var numElements: int
    var elements: array<Option<string>>

    // Every set slot is between the indices, the highest is exact and the
    // first a lower bound; an empty array has highest index -1.
    ghost predicate Valid()
      reads this, elements
    {
      && numElements == Count(elements[..])
      && (forall i :: 0 <= i < elements.Length && elements[i].Some? ==> firstIndex <= i <= maxIndex)
      && (if numElements == 0 then maxIndex == -1 && -1 <= firstIndex <= 0
          else 0 <= firstIndex <= maxIndex < elements.Length && elements[maxIndex].Some?)
    }

    ghost function Map(): map<int, string>
      reads this, elements
    {
      Used(elements[..])
    }

    constructor ()
      ensures Valid() && Map() == map[] && fresh(elements)
    {
      maxIndex, firstIndex, numElements := -1, -1, 0;
      elements := new Option<string>[0];
    }

    // Room for index n: the size is doubled until it is enough, unless that
    // gets too large.
    method Expand(n: nat)
      requires Valid()
      modifies this
      ensures Valid() && Map() == old(Map()) && n < elements.Length
      ensures elements == old(elements) || fresh(elements)
      ensures maxIndex == old(maxIndex) && firstIndex == old(firstIndex) && numElements == old(numElements)
    {
      if n >= elements.Length {
        var nsize := if elements.Length > 0 then elements.Length else ARRAY_DEFAULT_SIZE;
        while n >= nsize
          invariant nsize > 0 && nsize >= elements.Length
          decreases n - nsize
        {
          nsize := nsize * 2;
        }
        if nsize > ARRAY_MAX_DOUBLE { nsize := n + ARRAY_DEFAULT_SIZE; }
        Resize(nsize);
      }
    }

    // The elements stay; the slots gained are unset.
    method Resize(n: nat)
      requires Valid() && n > elements.Length
      modifies this
      ensures Valid() && Map() == old(Map()) && elements.Length == n && fresh(elements)
      ensures maxIndex == old(maxIndex) && firstIndex == old(firstIndex) && numElements == old(numElements)
    {
      var was := elements;
      var more := new Option<string>[n](i requires 0 <= i < n reads was => if i < was.Length then was[i] else None);
      assert more[..] == was[..] + seq(n - was.Length, _ => None);
      CountMore(was[..], n - was.Length);
      elements := more;
    }

    // a[i] = v.
    method Insert(i: nat, v: string)
      requires Valid()
      modifies this, elements
      ensures Valid() && Map() == old(Map())[i := v]
      ensures elements == old(elements) || fresh(elements)
    {
      hide Count, Used;
      if i >= elements.Length { Expand(i); }
      ghost var s := elements[..];
      CountUpdate(s, i, Some(v));
      UsedUpdate(s, i, Some(v));
      CountZero(s);
      if i > maxIndex { maxIndex := i; }
      if firstIndex < 0 || i < firstIndex { firstIndex := i; }
      if elements[i].None? { numElements := numElements + 1; }
      elements[i] := Some(v);
      assert elements[..] == s[i := Some(v)];
    }

    // Unsets the slot, and brings the indices in to the slots that are left.
    method Remove(i: nat) returns (was: Option<string>)
      requires Valid()
      modifies this, elements
      ensures Valid() && elements == old(elements) && Map() == old(Map()) - {i}
      ensures was == Lookup(old(Map()), i)
    {
      hide Count, Used;
      ghost var s := elements[..];
      CountZero(s);
      if numElements == 0 || i > maxIndex || i < firstIndex {
        Unused(s, i);
        return None;
      }
      CountUpdate(s, i, None);
      UsedUpdate(s, i, None);
      was := elements[i];
      elements[i] := None;
      assert elements[..] == s[i := None] && (i != maxIndex ==> elements[maxIndex].Some?);
      CountZero(elements[..]);
      if was.Some? {
        numElements := numElements - 1;
        ghost var other := -1;
        if numElements > 0 {
          other :| 0 <= other < elements.Length && elements[..][other].Some?;
          assert elements[other].Some?;
        } else {
          forall j | 0 <= j < elements.Length ensures elements[j].None? { assert elements[..][j].None?; }
        }
        if numElements == 0 { firstIndex := if maxIndex == -1 then 1 else 0; }
        if i == maxIndex { LowerMax(); }
        if i == firstIndex { RaiseFirst(); }
      }
    }

    // The highest index goes down to a set slot, or below the first index.
    method LowerMax()
      requires 0 <= firstIndex <= maxIndex < elements.Length
      modifies `maxIndex
      ensures firstIndex - 1 <= maxIndex <= old(maxIndex)
      ensures forall j :: maxIndex < j <= old(maxIndex) ==> elements[j].None?
      ensures maxIndex >= firstIndex ==> elements[maxIndex].Some?
    {
      var ind := maxIndex;
      while ind >= firstIndex && elements[ind].None?
        invariant firstIndex - 1 <= ind <= maxIndex
        invariant forall j :: ind < j <= maxIndex ==> elements[j].None?
      {
        ind := ind - 1;
      }
      maxIndex := ind;
    }

    method RaiseFirst()
      requires 0 <= firstIndex && maxIndex < elements.Length
      modifies `firstIndex
      ensures firstIndex >= old(firstIndex) && (firstIndex <= maxIndex + 1 || firstIndex == old(firstIndex))
      ensures forall j :: old(firstIndex) <= j < firstIndex ==> elements[j].None?
      ensures firstIndex <= maxIndex ==> elements[firstIndex].Some?
    {
      var ind := firstIndex;
      while ind <= maxIndex && elements[ind].None?
        invariant ind >= firstIndex && (ind <= maxIndex + 1 || ind == firstIndex)
        invariant forall j :: firstIndex <= j < ind ==> elements[j].None?
      {
        ind := ind + 1;
      }
      firstIndex := ind;
    }

    method Reference(i: nat) returns (v: Option<string>)
      requires Valid()
      ensures v == Lookup(Map(), i)
    {
      CountZero(elements[..]);
      if numElements == 0 || i > maxIndex || i < firstIndex { return None; }
      v := elements[i];
    }

    // Unsets every slot between the indices.
    method Flush()
      requires Valid()
      modifies this, elements
      ensures Valid() && elements == old(elements) && Map() == map[]
    {
      if numElements == 0 {
        CountZero(elements[..]);
        maxIndex, firstIndex := -1, -1;
        return;
      }
      for r := firstIndex to maxIndex + 1
        invariant forall i :: 0 <= i < elements.Length && elements[i].Some? ==> r <= i <= maxIndex
        modifies elements
      {
        elements[r] := None;
      }
      CountZero(elements[..]);
      maxIndex, firstIndex, numElements := -1, -1, 0;
    }

    method Perform(op: Op) returns (answer: Option<string>)
      requires Valid() && !op.Copy?
      modifies this, elements
      ensures Valid() && (answer, Map()) == OnMap(old(Map()), op)
      ensures elements == old(elements) || fresh(elements)
    {
      hide Count, Used;
      answer := None;
      match op {
        case Insert(i, v) => Insert(i, v);
        case Remove(i) => answer := Remove(i);
        case Reference(i) => answer := Reference(i);
        case Flush => Flush();
      }
    }
  }

  // Any run of operations answers as the same finite map as with the list.
  method Replay(ops: seq<Op>) returns (answers: seq<Option<string>>)
    requires forall n :: 0 <= n < |ops| ==> !ops[n].Copy?
    ensures answers == Answers(map[], ops)
  {
    hide OnMap, Used, Count, DirectArray.Valid, Answers;
    var a := new DirectArray();
    answers := [];
    for n := 0 to |ops|
      invariant fresh(a) && fresh(a.elements) && a.Valid()
      invariant Answers(map[], ops) == answers + Answers(a.Map(), ops[n..])
    {
      AnswersStep(a.Map(), ops, n, answers);
      var answer := a.Perform(ops[n]);
      answers := answers + [answer];
    }
    AnswersDone(a.Map(), ops);
  }
}
