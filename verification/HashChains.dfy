// Bucket chains: singly linked lists of items, and moving the items of one
// bucket array into another by relinking them.

module HashChains {
  import opened Options
  import opened HashStrings

  class Item {
    var next: Item?
    var key: Key
    var data: Option<string>
    var khash: nat

    constructor (key: Key, khash: nat, next: Item?)
      ensures this.key == key && this.khash == khash && this.next == next && data == None
    {
      this.key, this.khash, this.next, data := key, khash, next, None;
    }
  }

  type Chains = seq<seq<Item>>

  function Following(c: seq<Item>, k: nat): Item?
    requires k < |c|
  {
    if k + 1 < |c| then c[k + 1] else null
  }

  // The list from `first` is c, and ends in null.
  ghost predicate IsChain(first: Item?, c: seq<Item>)
    reads c`next
  {
    && first == (if c == [] then null else c[0])
    && forall k :: 0 <= k < |c| ==> c[k].next == Following(c, k)
  }

  predicate NoRepeat(c: seq<Item>) {
    forall j, k :: 0 <= j < k < |c| ==> c[j] != c[k]
  }

  lemma ChainTail(first: Item?, c: seq<Item>)
    requires IsChain(first, c) && c != []
    ensures first == c[0] && IsChain(c[0].next, c[1..])
  {
    assert forall k :: 0 <= k < |c| - 1 ==> Following(c[1..], k) == Following(c, k + 1);
  }

  lemma ChainCons(it: Item, c: seq<Item>)
    requires IsChain(it.next, c)
    ensures IsChain(it, [it] + c)
  {
    var d := [it] + c;
    assert forall k :: 0 < k < |d| ==> d[k] == c[k - 1] && Following(d, k) == Following(c, k - 1);
  }

  function Cut(c: seq<Item>, k: nat): seq<Item>
    requires k < |c|
  {
    c[..k] + c[k + 1..]
  }

  // A chain whose k-th item the one before it, or the bucket, passes over.
  lemma ChainCut(first: Item?, c: seq<Item>, k: nat)
    requires k < |c| && forall j :: 0 <= j < |c| && j + 1 != k ==> c[j].next == Following(c, j)
    requires if k == 0 then first == Following(c, 0) else first == c[0] && c[k - 1].next == Following(c, k)
    ensures IsChain(first, Cut(c, k))
  {
    var d := Cut(c, k);
    forall j | 0 <= j < |d| ensures d[j].next == Following(d, j) {
      assert d[j] == if j < k then c[j] else c[j + 1];
      assert j + 1 < |d| ==> d[j + 1] == if j + 1 < k then c[j + 1] else c[j + 2];
    }
  }

  // ---------------------------------------------------------------- bucket arrays

  function Total(cs: Chains): nat {
    if cs == [] then 0 else Total(cs[..|cs| - 1]) + |cs[|cs| - 1]|
  }

  lemma {:induction false} TotalUpdate(cs: Chains, b: nat, c: seq<Item>)
    requires b < |cs|
    ensures Total(cs[b := c]) == Total(cs) - |cs[b]| + |c|
  {
    var n := |cs| - 1;
    var ds := cs[b := c];
    if b == n {
      assert ds[..n] == cs[..n];
    } else {
      assert ds[..n] == cs[..n][b := c] && ds[n] == cs[n];
      TotalUpdate(cs[..n], b, c);
    }
  }

  lemma {:induction false} TotalEmpty(cs: Chains)
    requires forall b :: 0 <= b < |cs| ==> cs[b] == []
    ensures Total(cs) == 0
  {
    if cs != [] { TotalEmpty(cs[..|cs| - 1]); }
  }

  function Items(cs: Chains): multiset<Item> {
    if cs == [] then multiset{} else Items(cs[..|cs| - 1]) + multiset(cs[|cs| - 1])
  }

  lemma {:induction false} ItemsUpdate(cs: Chains, b: nat, c: seq<Item>)
    requires b < |cs|
    ensures Items(cs[b := c]) + multiset(cs[b]) == Items(cs) + multiset(c)
  {
    var n := |cs| - 1;
    var ds := cs[b := c];
    if b == n {
      assert ds[..n] == cs[..n];
    } else {
      assert ds[..n] == cs[..n][b := c] && ds[n] == cs[n];
      ItemsUpdate(cs[..n], b, c);
      Cancel(Items(ds[..n]), multiset(cs[b]), Items(cs[..n]), multiset(c), multiset(cs[n]));
    }
  }

  lemma Cancel(a: multiset<Item>, b: multiset<Item>, c: multiset<Item>, d: multiset<Item>, e: multiset<Item>)
    ensures a + b == c + d <==> a + e + b == c + e + d
  {
    assert a + e + b == a + b + e && c + e + d == c + d + e;
    assert a + b + e == c + d + e ==> forall k :: (a + b)[k] == (a + b + e)[k] - e[k] && (c + d)[k] == (c + d + e)[k] - e[k];
  }

  // A longer chain holds what it held and the new item.
  lemma FrontItems(it: Item, cs: Chains)
    requires |cs| > 0
    ensures Items(Front(it, cs)) == Items(cs) + multiset{it} && Total(Front(it, cs)) == Total(cs) + 1
  {
    hide Items, Total;
    var b := it.khash % |cs|;
    ItemsUpdate(cs, b, [it] + cs[b]);
    TotalUpdate(cs, b, [it] + cs[b]);
    var none: multiset<Item> := multiset{};
    assert multiset([it] + cs[b]) == multiset{it} + multiset(cs[b]);
    Cancel(Items(Front(it, cs)), none, Items(cs), multiset{it}, multiset(cs[b]));
  }

  lemma {:induction false} ItemsEmpty(cs: Chains)
    requires forall b :: 0 <= b < |cs| ==> cs[b] == []
    ensures Items(cs) == multiset{}
  {
    if cs != [] { ItemsEmpty(cs[..|cs| - 1]); }
  }

  // ---------------------------------------------------------------- relinking, as a function

  // The items of c go, one after the other, to the front of their buckets.
  ghost function Moved(c: seq<Item>, cs: Chains): (ds: Chains)
    requires |cs| > 0
    reads c`khash
    ensures |ds| == |cs|
    decreases |c|
  {
    if c == [] then cs else Moved(c[1..], Front(c[0], cs))
  }

  ghost function Front(it: Item, cs: Chains): (ds: Chains)
    requires |cs| > 0
    reads it`khash
    ensures |ds| == |cs|
  {
    var b := it.khash % |cs|;
    cs[b := [it] + cs[b]]
  }

  ghost function AllMoved(from: Chains, cs: Chains): (ds: Chains)
    requires |cs| > 0
    reads (set b, k | 0 <= b < |from| && 0 <= k < |from[b]| :: from[b][k])`khash
    ensures |ds| == |cs|
    decreases |from|
  {
    if from == [] then cs else Moved(from[|from| - 1], AllMoved(from[..|from| - 1], cs))
  }

  // No item is lost, none is duplicated.
  lemma {:induction false} MovedItems(c: seq<Item>, cs: Chains)
    requires |cs| > 0
    ensures Items(Moved(c, cs)) == Items(cs) + multiset(c) && Total(Moved(c, cs)) == Total(cs) + |c|
    decreases |c|
  {
    hide Items, Total, Front;
    if c != [] {
      MovedItems(c[1..], Front(c[0], cs));
      FrontItems(c[0], cs);
      assert c == [c[0]] + c[1..];
    }
  }

  lemma {:induction false} AllMovedItems(from: Chains, cs: Chains)
    requires |cs| > 0
    ensures Items(AllMoved(from, cs)) == Items(cs) + Items(from) && Total(AllMoved(from, cs)) == Total(cs) + Total(from)
    decreases |from|
  {
    if from != [] {
      AllMovedItems(from[..|from| - 1], cs);
      MovedItems(from[|from| - 1], AllMoved(from[..|from| - 1], cs));
    }
  }

  // Each goes to the bucket of its hash, and what was there stays.
  lemma {:induction false} MovedMembers(c: seq<Item>, cs: Chains, it: Item, b: nat)
    requires b < |cs|
    ensures it in Moved(c, cs)[b] <==> it in cs[b] || (it in c && it.khash % |cs| == b)
    decreases |c|
  {
    if c != [] {
      MovedMembers(c[1..], Front(c[0], cs), it, b);
      assert it in c <==> it == c[0] || it in c[1..];
    }
  }

  ghost predicate Among(it: Item, cs: Chains) {
    exists f :: 0 <= f < |cs| && it in cs[f]
  }

  lemma {:induction false} AllMovedMembers(from: Chains, cs: Chains, it: Item, b: nat)
    requires b < |cs|
    ensures it in AllMoved(from, cs)[b] <==> it in cs[b] || (Among(it, from) && it.khash % |cs| == b)
    decreases |from|
  {
    if from != [] {
      var n := |from| - 1;
      AllMovedMembers(from[..n], cs, it, b);
      MovedMembers(from[n], AllMoved(from[..n], cs), it, b);
      if Among(it, from) {
        var f :| 0 <= f < |from| && it in from[f];
        if f < n { assert it in from[..n][f]; }
      }
      if Among(it, from[..n]) {
        var f :| 0 <= f < n && it in from[..n][f];
        assert it in from[f];
      }
    }
  }

  // A list that ends in null meets no item twice.
  lemma ChainNoRepeat(first: Item?, c: seq<Item>)
    requires IsChain(first, c)
    ensures NoRepeat(c)
  {
    forall j, k | 0 <= j < k < |c| ensures c[j] != c[k] {
      ChainDistinct(first, c, j, k);
    }
  }

  lemma {:induction false} ChainDistinct(first: Item?, c: seq<Item>, j: nat, k: nat)
    requires IsChain(first, c) && j < k < |c|
    ensures c[j] != c[k]
    decreases |c| - k
  {
    assert c[j].next == Following(c, j) && c[k].next == Following(c, k);
    if k + 1 < |c| { ChainDistinct(first, c, j + 1, k + 1); }
  }

  // ---------------------------------------------------------------- relinking

  // The buckets of an array hold these chains.
  ghost predicate Holds(a: array<Item?>, cs: Chains)
    reads a, (set b, k | 0 <= b < |cs| && 0 <= k < |cs[b]| :: cs[b][k])`next
  {
    a.Length == |cs| && forall b :: 0 <= b < |cs| ==> IsChain(a[b], cs[b])
  }

  ghost predicate Apart(c: seq<Item>, cs: Chains) {
    forall it, b :: 0 <= b < |cs| && it in c ==> it !in cs[b]
  }

  // Puts one item in front of its bucket.
  method PutFront(it: Item, a: array<Item?>, ghost cs: Chains)
    requires Holds(a, cs) && IsPow2(a.Length) && Apart([it], cs)
    modifies a, it`next
    ensures a.Length == |Front(it, cs)| && Holds(a, Front(it, cs))
  {
    BucketIsRemainder(it.khash, a.Length);
    var i := Bucket(it.khash, a.Length);
    it.next := a[i];
    assert it in [it];
    ChainCons(it, cs[i]);
    a[i] := it;
  }

  // Takes the k-th item out of its chain: the one before it passes it over.
  method CutOut(prev: Item?, item: Item, a: array<Item?>, bucket: nat, ghost cs: Chains, ghost k: nat)
    requires Holds(a, cs) && bucket < |cs| && k < |cs[bucket]| && cs[bucket][k] == item
    requires prev == if k == 0 then null else cs[bucket][k - 1]
    requires forall b :: 0 <= b < |cs| && b != bucket ==> Apart(cs[bucket], [cs[b]])
    modifies a, cs[bucket]`next
    ensures Holds(a, cs[bucket := Cut(cs[bucket], k)])
  {
    ghost var c := cs[bucket];
    ChainNoRepeat(a[bucket], c);
    assert forall j :: 0 <= j < |c| ==> c[j].next == Following(c, j);
    if prev != null {
      assert prev in c;
      prev.next := item.next;
    } else {
      a[bucket] := item.next;
    }
    ChainCut(a[bucket], c, k);
    ghost var ds := cs[bucket := Cut(c, k)];
    forall b | 0 <= b < |ds| && b != bucket ensures IsChain(a[b], ds[b]) {
      assert old(IsChain(a[b], cs[b]));
      ghost var other: Chains := [cs[b]];
      assert other[0] == cs[b] && forall it :: it in c ==> it !in other[0];
      assert forall it :: it in cs[b] ==> it.next == old(it.next);
    }
  }

  // Relinks a whole chain.
  method MoveChain(first: Item?, ghost c: seq<Item>, a: array<Item?>, ghost cs: Chains)
    requires Holds(a, cs) && IsPow2(a.Length) && IsChain(first, c) && Apart(c, cs)
    modifies a, c`next
    ensures |cs| > 0 && Holds(a, Moved(c, cs))
  {
    hide Moved;
    MovedNone(c, cs);
    var item := first;
    ghost var rest, ds := c, cs;
    while item != null
      invariant IsChain(item, rest) && Apart(rest, ds) && |ds| == |cs| == a.Length && Holds(a, ds)
      invariant forall it :: it in rest ==> it in c
      invariant Moved(rest, ds) == Moved(c, cs)
      decreases |rest|
    {
      ChainTail(item, rest);
      ChainNoRepeat(item, rest);
      MovedOne(rest, ds);
      StaysApart(rest, ds);
      assert item in rest && item in c;
      var next := item.next;
      PutFront(item, a, ds);
      item, rest, ds := next, rest[1..], Front(item, ds);
    }
    MovedNone(rest, ds);
  }

  lemma MovedNone(c: seq<Item>, cs: Chains)
    requires |cs| > 0
    ensures c == [] ==> Moved(c, cs) == cs
  {
  }

  lemma MovedOne(c: seq<Item>, cs: Chains)
    requires |cs| > 0 && c != []
    ensures Moved(c, cs) == Moved(c[1..], Front(c[0], cs))
  {
  }

  lemma StaysApart(c: seq<Item>, cs: Chains)
    requires |cs| > 0 && c != [] && Apart(c, cs) && NoRepeat(c)
    ensures Apart([c[0]], cs) && Apart(c[1..], Front(c[0], cs)) && c[0] !in c[1..]
  {
    var ds := Front(c[0], cs);
    assert forall k :: 0 <= k < |c[1..]| ==> c[1..][k] == c[k + 1] && c[0] != c[k + 1];
    assert c[0] in c;
    forall it, b | 0 <= b < |ds| && it in c[1..] ensures it !in ds[b] {
      assert it in c && it != c[0];
    }
  }
}
