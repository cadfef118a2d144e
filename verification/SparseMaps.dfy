// Sparse arrays as what they stand for: entries in increasing order of index,
// and the finite map they form.

module SparseMaps {
  import opened Options

  type Entries = seq<(int, string)>

  // Increasing, from 0 up.
  predicate Sorted(es: Entries) {
    && (forall k :: 0 <= k < |es| ==> es[k].0 >= 0)
    && forall j, k :: 0 <= j < k < |es| ==> es[j].0 < es[k].0
  }

  ghost function MapOf(es: Entries): map<int, string>
    requires Sorted(es)
  {
    map k | 0 <= k < |es| :: es[k].0 := es[k].1
  }

  lemma MapOfAt(es: Entries, k: nat)
    requires Sorted(es) && k < |es|
    ensures es[k].0 in MapOf(es) && MapOf(es)[es[k].0] == es[k].1
  {
  }

  lemma PositionOf(es: Entries, i: int) returns (k: nat)
    requires Sorted(es) && i in MapOf(es)
    ensures k < |es| && es[k].0 == i
  {
    k :| 0 <= k < |es| && es[k].0 == i;
  }

  lemma SortedPrefix(es: Entries, k: nat)
    requires Sorted(es) && k <= |es|
    ensures Sorted(es[..k])
  {
  }

  lemma TakeOne(es: Entries, k: nat)
    requires k < |es|
    ensures es[..k] + [es[k]] == es[..k + 1]
  {
  }

  // Between two neighbours there is nothing.
  lemma NotBetween(es: Entries, p: nat, i: int)
    requires Sorted(es) && p <= |es| && (p > 0 ==> es[p - 1].0 < i) && (p < |es| ==> i < es[p].0)
    ensures i !in MapOf(es)
  {
    forall k | 0 <= k < |es| ensures es[k].0 != i {
      if k < p - 1 { assert es[k].0 < es[p - 1].0; }
      if k > p { assert es[p].0 < es[k].0; }
    }
  }

  // Equal maps are those with equal entries.
  lemma MapsEqual(es: Entries, n: map<int, string>)
    requires Sorted(es)
    requires forall k :: 0 <= k < |es| ==> es[k].0 in n && n[es[k].0] == es[k].1
    requires forall j :: j in n ==> j in MapOf(es)
    ensures MapOf(es) == n
  {
    hide MapOf;
    forall j | j in MapOf(es) ensures j in n && MapOf(es)[j] == n[j] {
      var k := PositionOf(es, j);
      MapOfAt(es, k);
    }
    forall j | j in n.Keys ensures j in MapOf(es).Keys {
      assert j in n;
    }
    assert MapOf(es).Keys == n.Keys;
  }

  // A new entry in its place.
  function Inserted(es: Entries, p: nat, i: int, v: string): Entries
    requires p <= |es|
  {
    es[..p] + [(i, v)] + es[p..]
  }

  lemma InsertedSorted(es: Entries, p: nat, i: int, v: string)
    requires Sorted(es) && p <= |es| && i >= 0
    requires (p > 0 ==> es[p - 1].0 < i) && (p < |es| ==> i < es[p].0)
    ensures Sorted(Inserted(es, p, i, v))
  {
    var fs := Inserted(es, p, i, v);
    assert forall k :: 0 <= k < |fs| ==> fs[k] == if k < p then es[k] else if k == p then (i, v) else es[k - 1];
  }

  lemma InsertedMap(es: Entries, p: nat, i: int, v: string)
    requires Sorted(es) && p <= |es| && i >= 0
    requires (p > 0 ==> es[p - 1].0 < i) && (p < |es| ==> i < es[p].0)
    ensures Sorted(Inserted(es, p, i, v)) && MapOf(Inserted(es, p, i, v)) == MapOf(es)[i := v]
  {
    hide MapOf, Sorted;
    var fs, n := Inserted(es, p, i, v), MapOf(es)[i := v];
    InsertedSorted(es, p, i, v);
    NotBetween(es, p, i);
    forall k | 0 <= k < |fs| ensures fs[k].0 in n && n[fs[k].0] == fs[k].1 {
      if k != p { MapOfAt(es, if k < p then k else k - 1); }
    }
    forall j | j in n ensures j in MapOf(fs) {
      if j == i {
        MapOfAt(fs, p);
      } else {
        var k := PositionOf(es, j);
        MapOfAt(fs, if k < p then k else k + 1);
      }
    }
    MapsEqual(fs, n);
  }

  lemma ReplacedMap(es: Entries, p: nat, v: string)
    requires Sorted(es) && p < |es|
    ensures var fs := es[p := (es[p].0, v)]; Sorted(fs) && MapOf(fs) == MapOf(es)[es[p].0 := v]
  {
    var fs := es[p := (es[p].0, v)];
    assert Sorted(fs) by { assert forall k :: 0 <= k < |es| ==> fs[k].0 == es[k].0; }
    ReplacedMapAt(es, p, v);
  }

  lemma ReplacedMapAt(es: Entries, p: nat, v: string)
    requires Sorted(es) && p < |es| && Sorted(es[p := (es[p].0, v)])
    ensures MapOf(es[p := (es[p].0, v)]) == MapOf(es)[es[p].0 := v]
  {
    hide MapOf;
    var fs, n := es[p := (es[p].0, v)], MapOf(es)[es[p].0 := v];
    forall k | 0 <= k < |fs| ensures fs[k].0 in n && n[fs[k].0] == fs[k].1 {
      MapOfAt(es, k);
    }
    forall j | j in n ensures j in MapOf(fs) {
      var k := p;
      if j != es[p].0 { k := PositionOf(es, j); }
      MapOfAt(fs, k);
    }
    MapsEqual(fs, n);
  }

  function Removed(es: Entries, p: nat): Entries
    requires p < |es|
  {
    es[..p] + es[p + 1..]
  }

  lemma RemovedMap(es: Entries, p: nat)
    requires Sorted(es) && p < |es|
    ensures Sorted(Removed(es, p)) && MapOf(Removed(es, p)) == MapOf(es) - {es[p].0}
  {
    hide MapOf;
    var fs, n := Removed(es, p), MapOf(es) - {es[p].0};
    forall k | 0 <= k < |fs| ensures fs[k].0 in n && n[fs[k].0] == fs[k].1 {
      MapOfAt(es, if k < p then k else k + 1);
    }
    forall j | j in n ensures j in MapOf(fs) {
      var k := PositionOf(es, j);
      MapOfAt(fs, if k < p then k else k - 1);
    }
    MapsEqual(fs, n);
  }

  // ---------------------------------------------------------------- shifting

  // Every index moved by d.
  function Moved(es: Entries, d: int): (fs: Entries)
    ensures |fs| == |es|
  {
    seq(|es|, k requires 0 <= k < |es| => (es[k].0 + d, es[k].1))
  }

  // Only those from position p on moved.
  function MovedFrom(es: Entries, p: nat, d: int): (fs: Entries)
    requires p <= |es|
    ensures |fs| == |es|
  {
    es[..p] + Moved(es[p..], d)
  }

  lemma MovedFromIs(es: Entries, p: nat, d: int, fs: Entries)
    requires p <= |es| == |fs|
    requires forall k :: 0 <= k < |es| ==> fs[k] == (es[k].0 + if k < p then 0 else d, es[k].1)
    ensures MovedFrom(es, p, d) == fs
  {
  }

  // Without the first n entries, the others n indices lower.
  function ShiftLeft(es: Entries, n: int): Entries {
    if n <= 0 then es else if n >= |es| then [] else Moved(es[n..], -n)
  }

  // n indices higher, with a new entry 0 if there is a value for it. An empty
  // array takes the value whatever n is, as long as it is positive.
  function ShiftRight(es: Entries, n: int, v: Option<string>): Entries {
    if n <= 0 then es
    else (if v.Some? then [(0, v.value)] else []) + Moved(es, n)
  }

  // The k-th index is at least k.
  lemma {:induction false} IndexAtLeast(es: Entries, k: nat)
    requires Sorted(es) && k < |es|
    ensures es[k].0 >= k
  {
    if k > 0 { IndexAtLeast(es, k - 1); }
  }

  lemma ShiftLeftSorted(es: Entries, n: int)
    requires Sorted(es)
    ensures Sorted(ShiftLeft(es, n))
  {
    if 0 < n < |es| {
      forall k | n <= k < |es| ensures es[k].0 >= n { IndexAtLeast(es, k); }
    }
  }

  lemma ShiftRightSorted(es: Entries, n: int, v: Option<string>)
    requires Sorted(es)
    ensures Sorted(ShiftRight(es, n, v))
  {
  }

  lemma ShiftLeftMoves(es: Entries, n: int)
    requires 0 < n < |es|
    ensures MovedFrom(es[n..], 0, -n) == ShiftLeft(es, n)
  {
  }

  lemma ShiftRightEmpty(n: int, v: Option<string>)
    requires n > 0
    ensures ShiftRight([], n, v) == if v.Some? then [(0, v.value)] else []
  {
  }

  lemma ShiftRightMoves(es: Entries, n: int, v: Option<string>)
    requires n > 0
    ensures MovedFrom((if v.Some? then [(0, v.value)] else []) + es, if v.Some? then 1 else 0, n) == ShiftRight(es, n, v)
  {
    if v.Some? {
      assert ([(0, v.value)] + es)[1..] == es;
    } else {
      assert [] + es == es;
    }
  }

  // Of the map, n entries are left out, those with the lowest indices; every
  // other value is found n indices lower, and nothing else is.
  lemma ShiftLeftMap(es: Entries, n: int, i: int)
    requires Sorted(es) && n > 0
    ensures Sorted(ShiftLeft(es, n))
    ensures var m, m' := MapOf(es), MapOf(ShiftLeft(es, n));
            && (i in m' <==> i + n in m && n < |es| && i + n >= es[n].0)
            && (i in m' ==> m'[i] == m[i + n])
    ensures |ShiftLeft(es, n)| == if n < |es| then |es| - n else 0
  {
    hide MapOf;
    ShiftLeftSorted(es, n);
    var fs := ShiftLeft(es, n);
    if n >= |es| {
      EmptyMap();
    } else {
      if i in MapOf(fs) {
        var k := PositionOf(fs, i);
        MapOfAt(fs, k);
        MapOfAt(es, n + k);
      }
      if i + n in MapOf(es) && i + n >= es[n].0 {
        var k := PositionOf(es, i + n);
        MapOfAt(es, k);
        MapOfAt(fs, k - n);
      }
    }
  }

  lemma EmptyMap()
    ensures MapOf([]) == map[]
  {
  }

  // Every value is found n indices higher, and the new one at 0.
  lemma ShiftRightMap(es: Entries, n: int, v: Option<string>, i: int)
    requires Sorted(es) && n > 0
    ensures Sorted(ShiftRight(es, n, v))
    ensures var m, m' := MapOf(es), MapOf(ShiftRight(es, n, v));
            && (i in m' <==> (i == 0 && v.Some?) || i - n in m)
            && (i in m' ==> m'[i] == if i == 0 && v.Some? then v.value else m[i - n])
  {
    hide MapOf;
    ShiftRightSorted(es, n, v);
    var fs := ShiftRight(es, n, v);
    var d := if v.Some? then 1 else 0;
    if v.Some? { MapOfAt(fs, 0); }
    if i in MapOf(fs) {
      var k := PositionOf(fs, i);
      MapOfAt(fs, k);
      if k >= d { MapOfAt(es, k - d); }
    }
    if i - n in MapOf(es) {
      var k := PositionOf(es, i - n);
      MapOfAt(es, k);
      MapOfAt(fs, k + d);
    }
  }

  // Shifting right by one with a value is undone by shifting left by one: the
  // push and pop of the function-name stack.
  lemma PushThenPop(es: Entries, v: string)
    requires Sorted(es)
    ensures ShiftLeft(ShiftRight(es, 1, Some(v)), 1) == es
  {
    var fs := ShiftRight(es, 1, Some(v));
    if es != [] {
      assert fs[1..] == Moved(es, 1);
      assert forall k :: 0 <= k < |es| ==> Moved(Moved(es, 1), -1)[k] == es[k];
    }
  }

  // Conversely only when entry 0 was there and had that value.
  lemma PopThenPush(es: Entries, v: string)
    requires Sorted(es) && es != []
    ensures ShiftRight(ShiftLeft(es, 1), 1, Some(v)) == es <==> es[0] == (0, v)
  {
    var fs := ShiftRight(ShiftLeft(es, 1), 1, Some(v));
    assert fs[0] == (0, v);
    assert forall k :: 0 < k < |es| ==> fs[k] == es[k];
    assert |fs| == |es|;
  }

  // ---------------------------------------------------------------- operations on maps

  datatype Op =
    | Insert(i: nat, v: string)
    | Remove(i: nat)
    | Reference(i: nat)
    | Flush
    | Copy

  function Lookup(m: map<int, string>, i: int): Option<string> {
    if i in m then Some(m[i]) else None
  }

  // What an operation answers and makes of the map.
  function OnMap(m: map<int, string>, op: Op): (Option<string>, map<int, string>) {
    match op
    case Insert(i, v) => (None, m[i := v])
    case Remove(i) => (Lookup(m, i), m - {i})
    case Reference(i) => (Lookup(m, i), m)
    case Flush => (None, map[])
    case Copy => (None, m)
  }

  function Answers(m: map<int, string>, ops: seq<Op>): seq<Option<string>>
    decreases |ops|
  {
    if ops == [] then [] else [OnMap(m, ops[0]).0] + Answers(OnMap(m, ops[0]).1, ops[1..])
  }

  lemma AnswersStep(m: map<int, string>, ops: seq<Op>, n: nat, before: seq<Option<string>>)
    requires n < |ops|
    ensures var (answer, m') := OnMap(m, ops[n]);
            before + Answers(m, ops[n..]) == (before + [answer]) + Answers(m', ops[n + 1..])
  {
    assert ops[n..][1..] == ops[n + 1..];
  }

  lemma AnswersDone(m: map<int, string>, ops: seq<Op>)
    ensures Answers(m, ops[|ops|..]) == []
  {
  }
}
