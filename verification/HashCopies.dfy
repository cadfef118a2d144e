// Going through whole hash tables: copying and emptying them, and the lists
// of the keys and of the values of an associative array.

module HashCopies {
  import opened Options
  import opened HashStrings
  import opened HashChains
  import opened HashTables

  // ---------------------------------------------------------------- the order of a table

  // The items of all buckets, in the order in which loops over them meet them.
  function Flat(cs: Chains): seq<Item> {
    if cs == [] then [] else Flat(cs[..|cs| - 1]) + cs[|cs| - 1]
  }

  ghost function KeysOf(items: seq<Item>): (ks: seq<Key>)
    reads items`key
    ensures |ks| == |items|
    decreases |items|
  {
    if items == [] then [] else KeysOf(items[..|items| - 1]) + [items[|items| - 1].key]
  }

  lemma {:induction false} KeyAt(items: seq<Item>, k: nat)
    requires k < |items|
    ensures KeysOf(items)[k] == items[k].key
    decreases |items|
  {
    if k < |items| - 1 { KeyAt(items[..|items| - 1], k); }
  }

  ghost function Order(h: HashTable): seq<Key>
    reads h`chains, Flat(h.chains)`key
  {
    KeysOf(Flat(h.chains))
  }

  lemma {:induction false} FlatMembers(cs: Chains, it: Item)
    ensures it in Flat(cs) <==> Among(it, cs)
  {
    if cs != [] {
      var n := |cs| - 1;
      FlatMembers(cs[..n], it);
      if Among(it, cs) {
        var f :| 0 <= f < |cs| && it in cs[f];
        if f < n { assert it in cs[..n][f]; }
      }
      if Among(it, cs[..n]) {
        var f :| 0 <= f < n && it in cs[..n][f];
        assert it in cs[f];
      }
    }
  }

  lemma {:induction false} FlatLength(cs: Chains)
    ensures |Flat(cs)| == Total(cs)
  {
    if cs != [] { FlatLength(cs[..|cs| - 1]); }
  }

  ghost predicate AllApart(cs: Chains) {
    && (forall b :: 0 <= b < |cs| ==> NoRepeat(cs[b]))
    && (forall b, f, it :: 0 <= b < f < |cs| && it in cs[b] ==> it !in cs[f])
  }

  lemma {:induction false} FlatNoRepeat(cs: Chains)
    requires AllApart(cs)
    ensures NoRepeat(Flat(cs))
  {
    if cs != [] {
      var n := |cs| - 1;
      assert forall b :: 0 <= b < n ==> cs[..n][b] == cs[b];
      FlatNoRepeat(cs[..n]);
      forall it | it in Flat(cs[..n]) ensures it !in cs[n] {
        FlatMembers(cs[..n], it);
        var f :| 0 <= f < n && it in cs[..n][f];
        assert it in cs[f];
      }
      var before := Flat(cs[..n]);
      assert forall k :: 0 <= k < |before| ==> before[k] in before;
    }
  }

  lemma TableApart(h: HashTable)
    requires h.Valid()
    ensures AllApart(h.chains)
  {
    forall b | 0 <= b < |h.chains| ensures NoRepeat(h.chains[b]) {
      ChainNoRepeat(h.bucketArray[b], h.chains[b]);
    }
    forall b, f, it | 0 <= b < f < |h.chains| && it in h.chains[b] ensures it !in h.chains[f] {
      BucketsApart(h.chains, h.contents, b, f);
    }
  }

  // The order of a table has each of its keys exactly once.
  lemma OrderIsMap(h: HashTable)
    requires h.Valid()
    ensures var ks := Order(h);
            (forall key :: key in ks <==> key in h.Map()) && forall j, k :: 0 <= j < k < |ks| ==> ks[j] != ks[k]
  {
    hide Holds, HashString, Total, IsPow2, Flat;
    var items, ks := Flat(h.chains), Order(h);
    TableApart(h);
    FlatNoRepeat(h.chains);
    forall k | 0 <= k < |ks| ensures ks[k] in h.Map() && h.contents[ks[k]] == items[k] {
      ItemPlaced(h, k);
      KeyAt(items, k);
    }
    forall key | key in h.Map() ensures key in ks {
      assert FoundAt(key, h.chains, h.contents);
      var it := h.contents[key];
      assert Among(it, h.chains);
      FlatMembers(h.chains, it);
      var k :| 0 <= k < |items| && items[k] == it;
      KeyAt(items, k);
    }
  }

  lemma ItemPlaced(h: HashTable, k: nat)
    requires h.Valid() && k < |Flat(h.chains)|
    ensures var it := Flat(h.chains)[k]; it.key in h.contents && h.contents[it.key] == it
  {
    hide Holds, HashString, Total, IsPow2, Flat;
    var it := Flat(h.chains)[k];
    FlatMembers(h.chains, it);
    var b :| 0 <= b < |h.chains| && it in h.chains[b];
    PlacedMember(h.chains, h.contents, it, b);
  }

  // ---------------------------------------------------------------- word lists

  datatype Word = KeyWord(key: Key) | DataWord(data: Option<string>)

  function WordOf(it: Item, keys: bool): Word
    reads it
  {
    if keys then KeyWord(it.key) else DataWord(it.data)
  }

  ghost function WordsOf(items: seq<Item>, keys: bool): (ws: seq<Word>)
    reads items
    ensures |ws| == |items|
  {
    seq(|items|, k requires 0 <= k < |items| reads items => WordOf(items[k], keys))
  }

  function Reversed(s: seq<Word>): seq<Word> {
    if s == [] then [] else Reversed(s[1..]) + [s[0]]
  }

  lemma OneMoreWord(items: seq<Item>, it: Item, list: seq<Word>, keys: bool)
    requires Reversed(list) == WordsOf(items, keys)
    ensures Reversed([WordOf(it, keys)] + list) == WordsOf(items + [it], keys)
  {
    assert ([WordOf(it, keys)] + list)[1..] == list;
  }

  // assoc_to_word_list_internal: the keys or the values, put in front of the
  // list one by one, and the list reversed.
  method ToWordList(h: HashTable, keys: bool) returns (words: seq<Word>)
    requires h.Valid()
    ensures words == WordsOf(Flat(h.chains), keys)
  {
    hide Placed, Found, IsPow2, Total, Flat;
    FlatLength(h.chains);
    if h.nentries == 0 {
      assert Flat(h.chains) == [];
      return [];
    }
    var list := [];
    FlatEmpty();
    assert h.chains[..0] == [];
    for i := 0 to h.nbuckets
      invariant Reversed(list) == WordsOf(Flat(h.chains[..i]), keys)
    {
      ghost var c, before := h.chains[i], Flat(h.chains[..i]);
      HeldChain(h.bucketArray, h.chains, i);
      var item := h.bucketArray[i];
      ghost var k := 0;
      assert before + c[..0] == before;
      while item != null
        invariant 0 <= k <= |c| && item == (if k < |c| then c[k] else null)
        invariant Reversed(list) == WordsOf(before + c[..k], keys)
        decreases |c| - k
      {
        OneMoreWord(before + c[..k], item, list, keys);
        assert before + c[..k] + [item] == before + c[..k + 1];
        list := [WordOf(item, keys)] + list;
        assert item.next == Following(c, k);
        item, k := item.next, k + 1;
      }
      assert c[..k] == c;
      FlatNext(h.chains, i);
    }
    assert h.chains[..h.nbuckets] == h.chains;
    words := Reversed(list);
  }

  lemma FlatEmpty()
    ensures Flat([]) == []
  {
  }

  lemma FlatNext(cs: Chains, i: nat)
    requires i < |cs|
    ensures Flat(cs[..i + 1]) == Flat(cs[..i]) + cs[i]
  {
    assert cs[..i + 1][..i] == cs[..i];
  }

  lemma WordsAt(h: HashTable, k: nat)
    requires h.Valid() && k < |Flat(h.chains)|
    ensures var key := Order(h)[k];
            && key in h.Map() && WordsOf(Flat(h.chains), true)[k] == KeyWord(key)
            && WordsOf(Flat(h.chains), false)[k] == DataWord(h.Map()[key])
  {
    hide Placed, Found, Holds, IsPow2, Total, Flat, KeysOf;
    ItemPlaced(h, k);
    KeyAt(Flat(h.chains), k);
  }

  lemma OrderLength(h: HashTable)
    requires h.Valid()
    ensures |Order(h)| == |Flat(h.chains)| == |h.Map()|
  {
    hide Placed, Found, Holds, IsPow2, Total, Flat;
    FlatLength(h.chains);
    assert h.Map().Keys == h.contents.Keys;
  }

  // The list of the keys and the list of the values go together: each key of
  // the map once, and its value at the same place.
  lemma ListsAreMap(h: HashTable)
    requires h.Valid()
    ensures var ks, vs := WordsOf(Flat(h.chains), true), WordsOf(Flat(h.chains), false);
            && |ks| == |vs| == |h.Map()|
            && (forall j, k :: 0 <= j < k < |ks| ==> ks[j] != ks[k])
            && (forall k :: 0 <= k < |ks| ==> ks[k].KeyWord? && ks[k].key in h.Map() && vs[k] == DataWord(h.Map()[ks[k].key]))
            && (forall key :: key in h.Map() ==> KeyWord(key) in ks)
  {
    hide HashTable.Valid, HashTable.Map, WordsOf, Order, Flat;
    var items, order, m := Flat(h.chains), Order(h), h.Map();
    var ks, vs := WordsOf(items, true), WordsOf(items, false);
    OrderLength(h);
    OrderIsMap(h);
    forall k | 0 <= k < |ks| ensures order[k] in m && ks[k] == KeyWord(order[k]) && vs[k] == DataWord(m[order[k]]) {
      WordsAt(h, k);
    }
    forall key | key in m ensures KeyWord(key) in ks {
      var k :| 0 <= k < |order| && order[k] == key;
      assert ks[k] == KeyWord(key);
    }
  }

  // ---------------------------------------------------------------- copying

  // What becomes of data: the given function's result, or the same text.
  type Copier = Option<string -> string>

  function Copied(data: Option<string>, f: Copier): Option<string> {
    match data
    case None => None
    case Some(s) => Some(if f.Some? then f.value(s) else s)
  }

  predicate Twin(it: Item, jt: Item, f: Copier)
    reads it`key, it`khash, it`data, jt`key, jt`khash, jt`data
  {
    jt.key == it.key && jt.khash == it.khash && jt.data == Copied(it.data, f)
  }

  ghost predicate Twins(c: seq<Item>, d: seq<Item>, f: Copier)
    reads c`key, c`khash, c`data, d`key, d`khash, d`data
  {
    |c| == |d| && forall k :: 0 <= k < |c| ==> Twin(c[k], d[k], f)
  }

  lemma TwinsThen(c: seq<Item>, d: seq<Item>, f: Copier, m: Item)
    requires |d| < |c| && Twins(c[..|d|], d, f) && Twin(c[|d|], m, f)
    ensures Twins(c[..|d| + 1], d + [m], f)
  {
    var k := |d|;
    forall j | 0 <= j < k + 1 ensures Twin(c[..k + 1][j], (d + [m])[j], f) {
      if j < k { assert c[..k + 1][j] == c[..k][j] && (d + [m])[j] == d[j]; }
    }
  }

  // Puts a new item m after the last one.
  method Append(ghost first: Item?, n: Item, m: Item, ghost d: seq<Item>)
    requires IsChain(first, d) && d != [] && n == d[|d| - 1] && m !in d && m.next == null
    modifies n`next
    ensures IsChain(first, d + [m])
  {
    ChainNoRepeat(first, d);
    n.next := m;
    ghost var d' := d + [m];
    forall j | 0 <= j < |d'| ensures d'[j].next == Following(d', j) {
      if j < |d| { assert d'[j] == d[j] && (j + 1 < |d| ==> old(d[j].next == Following(d, j))); }
    }
  }

  // copy_bucket_array: a new chain, item by item.
  method CopyChain(first: Item?, f: Copier, ghost c: seq<Item>) returns (newBucket: Item?, ghost d: seq<Item>)
    requires IsChain(first, c)
    ensures IsChain(newBucket, d) && Twins(c, d, f) && forall it :: it in d ==> fresh(it)
  {
    hide Twins, Twin, IsChain;
    newBucket, d := null, [];
    var n: Item?, e := null, first;
    ChainStart(first, c);
    NoTwins(c, f);
    while e != null
      invariant |d| <= |c| && e == (if |d| < |c| then c[|d|] else null)
      invariant n == (if d == [] then null else d[|d| - 1])
      invariant IsChain(newBucket, d) && Twins(c[..|d|], d, f) && forall it :: it in d ==> fresh(it)
      decreases |c| - |d|
    {
      ChainNext(first, c, |d|);
      var m := CopyItem(e, f);
      TwinsThen(c, d, f, m);
      if n == null {
        newBucket := m;
        OneItem(m);
      } else {
        assert n in d;
        Append(newBucket, n, m, d);
      }
      d, n, e := d + [m], m, e.next;
    }
    assert c[..|d|] == c;
  }

  lemma NoTwins(c: seq<Item>, f: Copier)
    ensures Twins(c[..0], [], f) && IsChain(null, [])
  {
  }

  lemma ChainStart(first: Item?, c: seq<Item>)
    requires IsChain(first, c)
    ensures first == if c == [] then null else c[0]
  {
  }

  lemma ChainNext(first: Item?, c: seq<Item>, k: nat)
    requires IsChain(first, c) && k < |c|
    ensures c[k].next == Following(c, k)
  {
  }

  lemma OneItem(it: Item)
    requires it.next == null
    ensures IsChain(it, [] + [it])
  {
  }

  method CopyItem(e: Item, f: Copier) returns (m: Item)
    ensures fresh(m) && m.next == null && Twin(e, m, f)
  {
    m := new Item(e.key, e.khash, null);
    m.data := Copied(e.data, f);
  }

  ghost predicate TwinChains(cs: Chains, ds: Chains, f: Copier)
    reads (set b, k | 0 <= b < |cs| && 0 <= k < |cs[b]| :: cs[b][k])
    reads (set b, k | 0 <= b < |ds| && 0 <= k < |ds[b]| :: ds[b][k])
  {
    |cs| == |ds| && forall b :: 0 <= b < |cs| ==> Twins(cs[b], ds[b], f)
  }

  lemma {:induction false} TwinTotals(cs: Chains, ds: Chains)
    requires |cs| == |ds| && forall b :: 0 <= b < |cs| ==> |cs[b]| == |ds[b]|
    ensures Total(cs) == Total(ds)
  {
    if cs != [] { TwinTotals(cs[..|cs| - 1], ds[..|ds| - 1]); }
  }

  lemma {:induction false} TwinOrder(cs: Chains, ds: Chains, f: Copier)
    requires TwinChains(cs, ds, f)
    ensures KeysOf(Flat(cs)) == KeysOf(Flat(ds))
  {
    if cs != [] {
      var n := |cs| - 1;
      TwinOrder(cs[..n], ds[..n], f);
      KeysThen(Flat(cs[..n]), cs[n]);
      KeysThen(Flat(ds[..n]), ds[n]);
      assert Twins(cs[n], ds[n], f);
      forall k | 0 <= k < |cs[n]| ensures KeysOf(cs[n])[k] == KeysOf(ds[n])[k] {
        KeyAt(cs[n], k);
        KeyAt(ds[n], k);
      }
    }
  }

  lemma KeysThen(a: seq<Item>, b: seq<Item>)
    ensures KeysOf(a + b) == KeysOf(a) + KeysOf(b)
  {
    forall k | 0 <= k < |a + b| ensures KeysOf(a + b)[k] == (KeysOf(a) + KeysOf(b))[k] {
      KeyAt(a + b, k);
      if k < |a| { KeyAt(a, k); } else { KeyAt(b, k - |a|); }
    }
  }

  // The place of an item.
  ghost function PlaceIn(it: Item, cs: Chains): (p: (nat, nat))
    requires Among(it, cs)
    ensures p.0 < |cs| && p.1 < |cs[p.0]| && cs[p.0][p.1] == it
  {
    var b: nat :| b < |cs| && it in cs[b];
    var k: nat :| k < |cs[b]| && cs[b][k] == it;
    (b, k)
  }

  lemma OnePlace(cs: Chains, b: nat, k: nat)
    requires AllApart(cs) && b < |cs| && k < |cs[b]|
    ensures Among(cs[b][k], cs) && PlaceIn(cs[b][k], cs) == (b, k)
  {
    var it := cs[b][k];
    assert it in cs[b];
    var (f, j) := PlaceIn(it, cs);
    assert it in cs[f];
  }

  // The items of the copy, in the places of the originals, by key.
  ghost function TwinMap(cs: Chains, m: Contents, ds: Chains): Contents
    requires |cs| == |ds| && forall b :: 0 <= b < |cs| ==> |cs[b]| == |ds[b]|
    requires forall key :: key in m ==> Among(m[key], cs)
  {
    map key | key in m :: var p := PlaceIn(m[key], cs); ds[p.0][p.1]
  }

  lemma FoundAmong(cs: Chains, m: Contents)
    requires Found(cs, m)
    ensures forall key :: key in m ==> Among(m[key], cs)
  {
    forall key | key in m ensures Among(m[key], cs) {
      assert FoundAt(key, cs, m);
    }
  }

  lemma SameLengths(cs: Chains, ds: Chains, f: Copier)
    requires TwinChains(cs, ds, f)
    ensures |cs| == |ds| && forall b :: 0 <= b < |cs| ==> |cs[b]| == |ds[b]|
  {
    forall b | 0 <= b < |cs| ensures |cs[b]| == |ds[b]| { assert Twins(cs[b], ds[b], f); }
  }

  lemma TwinAt(cs: Chains, ds: Chains, f: Copier, b: nat, k: nat)
    requires TwinChains(cs, ds, f) && b < |cs| && k < |cs[b]|
    ensures b < |ds| && k < |ds[b]| && Twin(cs[b][k], ds[b][k], f)
  {
    assert Twins(cs[b], ds[b], f);
  }

  lemma TwinFound(cs: Chains, m: Contents, ds: Chains, f: Copier, key: Key)
    requires Placed(cs, m) && Found(cs, m) && TwinChains(cs, ds, f) && key in m
    requires |cs| == |ds| && (forall b :: 0 <= b < |cs| ==> |cs[b]| == |ds[b]|) && forall k :: k in m ==> Among(m[k], cs)
    ensures var m' := TwinMap(cs, m, ds);
            key in m' && FoundAt(key, ds, m') && m'[key].data == Copied(m[key].data, f) && Among(m'[key], ds)
  {
    hide HashString, Placed, TwinChains, PlaceIn, Copied;
    assert FoundAt(key, cs, m);
    var (b, k) := PlaceIn(m[key], cs);
    TwinAt(cs, ds, f, b, k);
    assert cs[b][k] in cs[b];
    PlacedMember(cs, m, m[key], b);
    assert ds[b][k] in ds[b];
  }

  lemma TwinPlaced(cs: Chains, m: Contents, ds: Chains, f: Copier, b: nat, k: nat)
    requires Placed(cs, m) && AllApart(cs) && TwinChains(cs, ds, f) && b < |ds| && k < |ds[b]|
    requires |cs| == |ds| && (forall b :: 0 <= b < |cs| ==> |cs[b]| == |ds[b]|) && forall k :: k in m ==> Among(m[k], cs)
    ensures PlacedAt(ds[b][k], |ds|, b, TwinMap(cs, m, ds))
  {
    hide Placed, AllApart, TwinChains, PlaceIn, Copied;
    TwinAt(cs, ds, f, b, k);
    PlacedMember(cs, m, cs[b][k], b);
    OnePlace(cs, b, k);
    assert TwinMap(cs, m, ds)[ds[b][k].key] == ds[b][k];
  }

  // The items of the copy are a table again.
  lemma TwinsInOrder(cs: Chains, m: Contents, ds: Chains, f: Copier) returns (m': Contents)
    requires Placed(cs, m) && Found(cs, m) && AllApart(cs) && TwinChains(cs, ds, f)
    ensures Placed(ds, m') && Found(ds, m') && m'.Keys == m.Keys
    ensures forall key :: key in m ==> m'[key].data == Copied(m[key].data, f) && Among(m'[key], ds)
  {
    FoundAmong(cs, m);
    SameLengths(cs, ds, f);
    m' := TwinMap(cs, m, ds);
    assert m'.Keys == m.Keys;
    hide HashString, AllApart, PlaceIn, TwinMap, TwinChains, PlacedAt, FoundAt, Copied, Among;
    assert |ds| > 0;
    forall key | key in m' ensures FoundAt(key, ds, m') && m'[key].data == Copied(m[key].data, f) && Among(m'[key], ds) {
      TwinFound(cs, m, ds, f, key);
    }
    forall b, k | 0 <= b < |ds| && 0 <= k < |ds[b]| ensures PlacedAt(ds[b][k], |ds|, b, m') {
      TwinPlaced(cs, m, ds, f, b, k);
    }
  }

  // The items of a table, copied into the buckets a.
  method CopyItems(h: HashTable, a: array<Item?>, f: Copier) returns (ghost ds: Chains, ghost m: Contents)
    requires h.Valid() && a.Length == h.nbuckets && a != h.bucketArray
    modifies a
    ensures Placed(ds, m) && Found(ds, m) && Holds(a, ds) && |ds| == h.nbuckets && Total(ds) == h.nentries
    ensures m.Keys == h.contents.Keys && forall key :: key in m ==> m[key].data == Copied(h.contents[key].data, f)
    ensures KeysOf(Flat(ds)) == KeysOf(Flat(h.chains)) && fresh(m.Values)
  {
    hide Placed, Found, Holds, IsPow2, Total, HashString, AllApart, Flat, TwinChains, IsChain, Twins, KeysOf, Copied;
    TableApart(h);
    ghost var cs := h.chains;
    HeldLength(h.bucketArray, cs);
    ds := CopyBuckets(h.bucketArray, a, f, cs);
    m := TwinsInOrder(cs, h.contents, ds, f);
    SameLengths(cs, ds, f);
    TwinTotals(cs, ds);
    TwinOrder(cs, ds, f);
  }

  // hash_copy: a table of its own with the same keys in the same order.
  method Copy(h: HashTable, f: Copier) returns (t: HashTable)
    requires h.Valid()
    ensures t.Valid() && fresh(t) && fresh(t.bucketArray) && fresh(t.contents.Values)
    ensures t.nbuckets == h.nbuckets && Order(t) == Order(h)
    ensures t.Map() == map key | key in h.Map() :: Copied(h.Map()[key], f)
  {
    hide Placed, Found, Holds, IsPow2, Total, HashString, Flat, KeysOf, Copied;
    Pow2Positive(h.nbuckets);
    t := new HashTable(h.nbuckets);
    HeldLength(t.bucketArray, t.chains);
    ghost var ds, m := CopyItems(h, t.bucketArray, f);
    Adopt(h, t, f, ds, m);
  }

  // Gives a table whose buckets have been filled its count.
  method Adopt(h: HashTable, t: HashTable, f: Copier, ghost ds: Chains, ghost m: Contents)
    requires h.Valid() && t != h && t.nbuckets == |ds| == h.nbuckets && Total(ds) == h.nentries
    requires Placed(ds, m) && Found(ds, m) && Holds(t.bucketArray, ds) && KeysOf(Flat(ds)) == KeysOf(Flat(h.chains))
    requires m.Keys == h.contents.Keys && forall key :: key in m ==> m[key].data == Copied(h.contents[key].data, f)
    modifies t`nentries, t`chains, t`contents
    ensures h.Valid() && t.Valid() && t.chains == ds && t.contents == m
    ensures Order(t) == Order(h) && t.Map() == map key | key in h.Map() :: Copied(h.Map()[key], f)
  {
    hide Placed, Found, Holds, IsPow2, Total, KeysOf, Flat, Copied, HashTable.Valid;
    Sizes(h);
    t.nentries, t.chains, t.contents := h.nentries, ds, m;
    Accept(t);
    assert KeysOf(Flat(ds)) == old(KeysOf(Flat(ds)));
    assert KeysOf(Flat(h.chains)) == old(KeysOf(Flat(h.chains)));
  }

  lemma Sizes(h: HashTable)
    requires h.Valid()
    ensures IsPow2(h.nbuckets) && h.nbuckets < MAX_BUCKETS && h.nentries == |h.contents| && |h.chains| == h.nbuckets
  {
  }

  lemma Accept(t: HashTable)
    requires Placed(t.chains, t.contents) && Found(t.chains, t.contents) && Holds(t.bucketArray, t.chains)
    requires t.nbuckets == |t.chains| && IsPow2(t.nbuckets) && t.nbuckets < MAX_BUCKETS
    requires t.nentries == Total(t.chains) == |t.contents|
    ensures t.Valid()
  {
  }

  method CopyBuckets(from: array<Item?>, to: array<Item?>, f: Copier, ghost cs: Chains) returns (ghost ds: Chains)
    requires Holds(from, cs) && to.Length == from.Length && to != from
    modifies to
    ensures Holds(to, ds) && TwinChains(cs, ds, f) && forall it :: Among(it, ds) ==> fresh(it)
  {
    hide IsChain, Twins;
    ds := [];
    for i := 0 to from.Length
      invariant |ds| == i && Holds(from, cs)
      invariant forall b :: 0 <= b < i ==> IsChain(to[b], ds[b]) && Twins(cs[b], ds[b], f)
      invariant forall b, it :: 0 <= b < i && it in ds[b] ==> fresh(it)
    {
      HeldChain(from, cs, i);
      ghost var d;
      to[i], d := CopyChain(from[i], f, cs[i]);
      ds := ds + [d];
    }
  }

  lemma EmptyInOrder(a: array<Item?>, cs: Chains)
    requires a.Length == |cs| > 0 && forall b :: 0 <= b < |cs| ==> cs[b] == [] && a[b] == null
    ensures Placed(cs, map[]) && Found(cs, map[]) && Holds(a, cs) && Total(cs) == 0
  {
    TotalEmpty(cs);
  }

  // hash_flush: the buckets are kept, without their items.
  method Flush(h: HashTable)
    requires h.Valid()
    modifies h, h.bucketArray
    ensures h.Valid() && h.Map() == map[] && h.contents == map[]
    ensures h.bucketArray == old(h.bucketArray) && h.nbuckets == old(h.nbuckets)
  {
    hide IsPow2, HashString, Placed, Found, Holds, Total;
    assert h.bucketArray.Length == h.nbuckets by { HeldLength(h.bucketArray, h.chains); }
    if h.nentries == 0 {
      assert h.contents == map[];
      return;
    }
    Pow2Positive(h.nbuckets);
    ghost var empty: Chains := seq(h.nbuckets, _ => []);
    var a := h.bucketArray;
    for i := 0 to h.nbuckets
      modifies a
      invariant forall b :: 0 <= b < i ==> a[b] == null
    {
      a[i] := null;
    }
    h.nentries := 0;
    h.chains, h.contents := empty, map[];
    EmptyInOrder(a, empty);
  }

  lemma HeldLength(a: array<Item?>, cs: Chains)
    requires Holds(a, cs)
    ensures a.Length == |cs|
  {
  }
}
