// The associative arrays of bash/assoc.c: hash tables whose data is text.

module AssocArrays {
  import opened Options
  import opened HashStrings
  import opened HashChains
  import opened HashTables
  import opened HashCopies

  type AssocMap = map<Key, Option<string>>

  ghost function Repr(h: HashTable): set<object>
    reads h
  {
    {h, h.bucketArray} + h.contents.Values
  }

  // assoc_create.
  method Create() returns (h: HashTable)
    ensures h.Valid() && fresh(Repr(h)) && h.Map() == map[]
  {
    h := new HashTable(0);
  }

  // assoc_replace: what the key had, if anything, is returned.
  method Replace(h: HashTable, key: Key, value: Option<string>) returns (was: Option<string>)
    requires h.Valid()
    modifies Repr(h)
    ensures h.Valid() && h.Map() == old(h.Map())[key := value] && fresh(Repr(h) - old(Repr(h)))
    ensures was == if key in old(h.Map()) then old(h.Map())[key] else None
  {
    hide HashTable.Valid;
    var b := h.Search(key, true);
    was := b.data;
    h.SetData(key, b, value);
  }

  method Insert(h: HashTable, key: Key, value: Option<string>) returns (r: int)
    requires h.Valid()
    modifies Repr(h)
    ensures r == 0 && h.Valid() && h.Map() == old(h.Map())[key := value] && fresh(Repr(h) - old(Repr(h)))
  {
    var _ := Replace(h, key, value);
    r := 0;
  }

  method Remove(h: HashTable, key: Key)
    requires h.Valid()
    modifies Repr(h)
    ensures h.Valid() && h.Map() == old(h.Map()) - {key} && Repr(h) <= old(Repr(h))
  {
    hide HashTable.Valid;
    var _ := h.Remove(key);
  }

  // Nothing, too, for a key without data.
  method Reference(h: HashTable, key: Key) returns (v: Option<string>)
    requires h.Valid()
    modifies Repr(h)
    ensures h.Valid() && h.Map() == old(h.Map()) && fresh(Repr(h) - old(Repr(h)))
    ensures v == if key in h.Map() then h.Map()[key] else None
  {
    hide HashTable.Valid;
    var b := h.Search(key, false);
    v := if b == null then None else b.data;
  }

  // ---------------------------------------------------------------- runs

  datatype Op =
    | InsertOp(key: Key, value: Option<string>)
    | ReplaceOp(key: Key, value: Option<string>)
    | RemoveOp(key: Key)
    | ReferenceOp(key: Key)
    | FlushOp
    | GrowOp

  function Lookup(m: AssocMap, key: Key): Option<string> {
    if key in m then m[key] else None
  }

  // What an operation answers and makes of the map.
  function OnMap(m: AssocMap, op: Op): (Option<string>, AssocMap) {
    match op
    case InsertOp(k, v) => (None, m[k := v])
    case ReplaceOp(k, v) => (Lookup(m, k), m[k := v])
    case RemoveOp(k) => (None, m - {k})
    case ReferenceOp(k) => (Lookup(m, k), m)
    case FlushOp => (None, map[])
    case GrowOp => (None, m)
  }

  function Answers(m: AssocMap, ops: seq<Op>): seq<Option<string>>
    decreases |ops|
  {
    if ops == [] then [] else [OnMap(m, ops[0]).0] + Answers(OnMap(m, ops[0]).1, ops[1..])
  }

  method Perform(h: HashTable, op: Op) returns (answer: Option<string>)
    requires h.Valid()
    modifies Repr(h)
    ensures h.Valid() && (answer, h.Map()) == OnMap(old(h.Map()), op) && fresh(Repr(h) - old(Repr(h)))
  {
    hide HashTable.Valid;
    answer := None;
    match op {
      case InsertOp(k, v) =>
        var _ := Insert(h, k, v);
      case ReplaceOp(k, v) => answer := Replace(h, k, v);
      case RemoveOp(k) => Remove(h, k);
      case ReferenceOp(k) => answer := Reference(h, k);
      case FlushOp => Flush(h);
      case GrowOp => h.Grow();
    }
  }

  // One operation after the other.
  method Run(h: HashTable, ops: seq<Op>) returns (answers: seq<Option<string>>)
    requires h.Valid()
    modifies Repr(h)
    ensures answers == Answers(old(h.Map()), ops)
    decreases |ops|
  {
    hide HashTable.Valid, HashTable.Map, OnMap;
    if ops == [] { return []; }
    var answer := Perform(h, ops[0]);
    var rest := Run(h, ops[1..]);
    answers := [answer] + rest;
  }

  // Any run of operations on a new table answers as a map would, wherever the
  // keys hash to and whenever the table grows.
  method Replay(ops: seq<Op>) returns (answers: seq<Option<string>>)
    ensures answers == Answers(map[], ops)
  {
    hide HashTable.Valid, HashTable.Map, OnMap, Answers;
    var h := Create();
    answers := Run(h, ops);
  }
}
