// The hash tables of bash/hashlib.c: an array of bucket chains that grows by
// relinking its items, and the associative arrays of bash/assoc.c over it.

module HashTables {
  import opened Options
  import opened Numerals
  import opened HashStrings
  import opened HashChains

  const DEFAULT_HASH_BUCKETS: nat := 128
  const MAX_BUCKETS: nat := 0x8000_0000

  type Contents = map<Key, Item>

  // Every item of a chain is the one for its key, and in its bucket.
  ghost predicate Placed(cs: Chains, m: Contents)
    reads m.Values`key, m.Values`khash
  {
    forall b, k :: 0 <= b < |cs| && 0 <= k < |cs[b]| ==> PlacedAt(cs[b][k], |cs|, b, m)
  }

  ghost predicate PlacedAt(it: Item, n: nat, b: nat, m: Contents)
    requires n > 0
    reads m.Values`key, m.Values`khash
  {
    it in m.Values && it.key in m && m[it.key] == it && it.khash % n == b
  }

  // Every key's item is hashed, and in a chain.
  ghost predicate Found(cs: Chains, m: Contents)
    reads m.Values`key, m.Values`khash
  {
    |cs| > 0 && forall key :: key in m ==> FoundAt(key, cs, m)
  }

  ghost predicate FoundAt(key: Key, cs: Chains, m: Contents)
    requires |cs| > 0 && key in m
    reads m.Values`key, m.Values`khash
  {
    var it := m[key];
    it.key == key && it.khash == HashString(key) && it in cs[it.khash % |cs|]
  }

  lemma PlacedMember(cs: Chains, m: Contents, it: Item, b: nat)
    requires Placed(cs, m) && b < |cs| && it in cs[b]
    ensures PlacedAt(it, |cs|, b, m)
  {
    var k :| 0 <= k < |cs[b]| && cs[b][k] == it;
  }

  lemma HeldChain(a: array<Item?>, cs: Chains, b: nat)
    requires Holds(a, cs) && b < |cs|
    ensures b < a.Length && IsChain(a[b], cs[b])
  {
  }

  // A key's item is in its bucket.
  lemma InBucket(key: Key, cs: Chains, m: Contents)
    requires Found(cs, m) && key in m
    ensures var c := cs[HashString(key) % |cs|];
            exists j :: 0 <= j < |c| && c[j].khash == HashString(key) && c[j].key == key
  {
    hide HashString;
    assert FoundAt(key, cs, m);
    var c := cs[HashString(key) % |cs|];
    assert m[key] in c;
    var j :| 0 <= j < |c| && c[j] == m[key];
    assert c[j].khash == HashString(key) && c[j].key == key;
  }

  lemma PlacedValues(cs: Chains, m: Contents)
    requires Placed(cs, m)
    ensures forall b, it :: 0 <= b < |cs| && it in cs[b] ==> it in m.Values
  {
    forall b, it | 0 <= b < |cs| && it in cs[b] ensures it in m.Values { PlacedMember(cs, m, it, b); }
  }

  // Items in different buckets are different.
  lemma BucketsApart(cs: Chains, m: Contents, b: nat, f: nat)
    requires Placed(cs, m) && b < |cs| && f < |cs| && b != f
    ensures forall it :: it in cs[b] ==> it !in cs[f]
  {
    forall it | it in cs[b] ensures it !in cs[f] {
      PlacedMember(cs, m, it, b);
      if it in cs[f] {
        PlacedMember(cs, m, it, f);
        assert false;
      }
    }
  }

  // Each key has its own item.
  lemma KeysApart(cs: Chains, m: Contents)
    requires Found(cs, m)
    ensures forall key :: key in m ==> m[key].key == key
  {
    forall key | key in m ensures m[key].key == key {
      assert FoundAt(key, cs, m);
    }
  }

  // A new item in front of its bucket, under a new key.
  lemma AddedInOrder(it: Item, cs: Chains, m: Contents)
    requires Placed(cs, m) && Found(cs, m) && it.key !in m && it.khash == HashString(it.key)
    ensures Placed(Front(it, cs), m[it.key := it]) && Found(Front(it, cs), m[it.key := it])
  {
    hide HashString;
    var b := it.khash % |cs|;
    var ds, m' := Front(it, cs), m[it.key := it];
    forall c, k | 0 <= c < |ds| && 0 <= k < |ds[c]| ensures PlacedAt(ds[c][k], |ds|, c, m') {
      if c == b && k == 0 {
        assert it.key in m' && m'[it.key] == it;
      } else {
        var was := if c == b then cs[c][k - 1] else cs[c][k];
        assert ds[c][k] == was && PlacedAt(was, |cs|, c, m);
        assert m'[was.key] == was;
      }
    }
    forall key | key in m' ensures FoundAt(key, ds, m') {
      if key != it.key { assert FoundAt(key, cs, m); }
    }
  }

  // Putting an item in front without a search keeps one item per key exactly
  // when its key was absent.
  lemma UnsearchedInOrder(it: Item, cs: Chains, m: Contents)
    requires Placed(cs, m) && Found(cs, m) && it.khash == HashString(it.key)
    requires forall b :: 0 <= b < |cs| ==> it !in cs[b]
    ensures (exists m' :: Placed(Front(it, cs), m')) <==> it.key !in m
  {
    hide HashString;
    if it.key !in m {
      AddedInOrder(it, cs, m);
    } else {
      assert FoundAt(it.key, cs, m);
      var was, ds, b := m[it.key], Front(it, cs), it.khash % |cs|;
      forall m' ensures !Placed(ds, m') {
        if Placed(ds, m') {
          assert ds[b][0] == it && was in ds[b];
          PlacedMember(ds, m', it, b);
          PlacedMember(ds, m', was, b);
          assert false;
        }
      }
    }
  }

  // Without the k-th item of bucket b.
  lemma CutInOrder(cs: Chains, m: Contents, b: nat, k: nat)
    requires Placed(cs, m) && Found(cs, m) && b < |cs| && k < |cs[b]| && NoRepeat(cs[b])
    ensures cs[b][k].key in m && m[cs[b][k].key] == cs[b][k]
    ensures var m' := m - {cs[b][k].key}; Placed(cs[b := Cut(cs[b], k)], m') && Found(cs[b := Cut(cs[b], k)], m')
  {
    hide HashString;
    var gone := cs[b][k];
    PlacedMember(cs, m, gone, b);
    var ds, m' := cs[b := Cut(cs[b], k)], m - {gone.key};
    forall c, i | 0 <= c < |ds| && 0 <= i < |ds[c]| ensures PlacedAt(ds[c][i], |ds|, c, m') {
      var j := if c == b && i >= k then i + 1 else i;
      var it := cs[c][j];
      assert ds[c][i] == it && PlacedAt(it, |cs|, c, m);
      if c != b { BucketsApart(cs, m, c, b); }
      assert it != gone && it.key in m' && m'[it.key] == it;
    }
    forall key | key in m' ensures FoundAt(key, ds, m') {
      assert FoundAt(key, cs, m);
      var it := m[key];
      if it.khash % |cs| == b {
        var j :| 0 <= j < |cs[b]| && cs[b][j] == it;
        assert it == Cut(cs[b], k)[if j < k then j else j - 1];
      }
    }
  }

  // Relinking into more or fewer buckets.
  lemma MovedInOrder(cs: Chains, m: Contents, ds: Chains, empty: Chains)
    requires Placed(cs, m) && Found(cs, m) && |empty| > 0 && (forall b :: 0 <= b < |empty| ==> empty[b] == [])
    requires ds == AllMoved(cs, empty)
    ensures Placed(ds, m) && Found(ds, m)
  {
    hide HashString, AllMoved;
    forall b, k | 0 <= b < |ds| && 0 <= k < |ds[b]| ensures PlacedAt(ds[b][k], |ds|, b, m) {
      var it := ds[b][k];
      AllMovedMembers(cs, empty, it, b);
      var f :| 0 <= f < |cs| && it in cs[f];
      PlacedMember(cs, m, it, f);
    }
    forall key | key in m ensures FoundAt(key, ds, m) {
      assert FoundAt(key, cs, m);
      var it := m[key];
      assert Among(it, cs);
      AllMovedMembers(cs, empty, it, it.khash % |ds|);
    }
  }

  class HashTable {
    var bucketArray: array<Item?>
    var nbuckets: int
    var nentries: int
    ghost var chains: Chains
    ghost var contents: Contents

    ghost predicate Valid()
      reads this, bucketArray, contents.Values`next, contents.Values`key, contents.Values`khash
    {
      && Placed(chains, contents) && Found(chains, contents) && Holds(bucketArray, chains)
      && nbuckets == |chains| && IsPow2(nbuckets) && nbuckets < MAX_BUCKETS
      && nentries == Total(chains) == |contents|
    }

    ghost function Map(): map<Key, Option<string>>
      reads `contents, contents.Values`data
    {
      map key | key in contents :: contents[key].data
    }

    constructor (buckets: int)
      requires buckets == 0 || (IsPow2(buckets) && buckets < MAX_BUCKETS)
      ensures Valid() && Map() == map[] && contents == map[] && fresh(bucketArray)
      ensures nbuckets == if buckets == 0 then DEFAULT_HASH_BUCKETS else buckets
    {
      var n := if buckets == 0 then DEFAULT_HASH_BUCKETS else buckets;
      assert IsPow2(n) by { assert Pow2(3) == 8 && Pow2(7) == 128; }
      bucketArray := new Item?[n](_ => null);
      nbuckets, nentries := n, 0;
      contents := map[];
      chains := seq(n, _ => []);
      new;
      TotalEmpty(chains);
    }

    // The item for a key in its bucket, with the one before it in the chain.
    method Find(key: Key, hv: nat) returns (prev: Item?, item: Item?, ghost k: nat)
      requires Valid() && hv == HashString(key)
      ensures hv % nbuckets < |chains|
      ensures item == null ==> key !in contents
      ensures item != null ==>
                var c := chains[hv % nbuckets];
                key in contents && item == contents[key] && item.key == key && k < |c| && c[k] == item
                && prev == if k == 0 then null else c[k - 1]
    {
      hide Placed, Found, Holds, HashString, Bucket, IsPow2, Total;
      BucketIsRemainder(hv, nbuckets);
      var bucket := Bucket(hv, nbuckets);
      ghost var c := chains[bucket];
      HeldChain(bucketArray, chains, bucket);
      prev, item, k := null, bucketArray[bucket], 0;
      while item != null && !(item.khash == hv && item.key == key)
        invariant 0 <= k <= |c| && item == (if k < |c| then c[k] else null) && prev == (if k == 0 then null else c[k - 1])
        invariant forall j :: 0 <= j < k ==> c[j].khash != hv || c[j].key != key
        decreases |c| - k
      {
        assert item.next == Following(c, k);
        prev, item, k := item, item.next, k + 1;
      }
      if item == null {
        if key in contents {
          InBucket(key, chains, contents);
          assert false;
        }
      } else {
        PlacedMember(chains, contents, item, bucket);
      }
    }

    predicate ShouldGrow()
      reads this
    {
      nentries >= Wrap32(nbuckets * 2)
    }

    // Two items to a bucket are enough to grow, unless an int overflows.
    lemma GrowsWhen()
      requires Valid()
      ensures nbuckets < 0x2000_0000 ==> (ShouldGrow() <==> nentries >= 2 * nbuckets)
    {
      hide Placed, Found, Holds, Total, HashString;
      Pow2Positive(nbuckets);
    }

    lemma NoEntries()
      requires Valid() && nentries == 0
      ensures contents == map[]
    {
    }

    // hash_search. With `create` a missing key gets a new item without data.
    method Search(key: Key, create: bool) returns (item: Item?)
      requires Valid()
      modifies this, bucketArray, contents.Values`next
      ensures Valid()
      ensures key in old(contents) ==> item == old(contents)[key] && contents == old(contents)
      ensures key !in old(contents) && !create ==> item == null && contents == old(contents)
      ensures key !in old(contents) && create ==>
                item != null && fresh(item) && item.data == None && contents == old(contents)[key := item]
      ensures Map() == if create && key !in old(contents) then old(Map())[key := None] else old(Map())
      ensures bucketArray == old(bucketArray) || fresh(bucketArray)
      ensures nbuckets == if create && key !in old(contents) && old(nentries) >= 2 * old(nbuckets) && old(nbuckets) < 0x2000_0000
                          then 4 * old(nbuckets) else old(nbuckets)
    {
      hide Placed, Found, Holds, Total, HashString, IsPow2, Valid;
      if !create && nentries == 0 {
        NoEntries();
        return null;
      }
      var hv := Hash(key);
      var _, found, _ := Find(key, hv);
      if found != null { return found; }
      if !create { return null; }
      GrowsWhen();
      if ShouldGrow() { Grow(); }
      item := AddItem(key, hv);
    }

    // hash_insert. Without a search the key must be absent.
    method Insert(key: Key, nosearch: bool) returns (item: Item)
      requires Valid() && (nosearch ==> key !in contents)
      modifies this, bucketArray, contents.Values`next
      ensures Valid()
      ensures key in old(contents) ==> item == old(contents)[key] && contents == old(contents)
      ensures key !in old(contents) ==> fresh(item) && item.data == None && contents == old(contents)[key := item]
      ensures bucketArray == old(bucketArray) || fresh(bucketArray)
      ensures nbuckets == if key !in old(contents) && old(nentries) >= 2 * old(nbuckets) && old(nbuckets) < 0x2000_0000
                          then 4 * old(nbuckets) else old(nbuckets)
    {
      hide Placed, Found, Holds, Total, HashString, IsPow2;
      if !nosearch {
        var found := Search(key, false);
        if found != null { return found; }
      }
      GrowsWhen();
      if ShouldGrow() { Grow(); }
      var hv := Hash(key);
      item := AddItem(key, hv);
    }

    // A new item in front of its bucket.
    method AddItem(key: Key, hv: nat) returns (item: Item)
      requires Valid() && key !in contents && hv == HashString(key)
      modifies this, bucketArray
      ensures Valid() && fresh(item) && item.data == None && contents == old(contents)[key := item]
      ensures bucketArray == old(bucketArray) && nbuckets == old(nbuckets)
    {
      hide Placed, Found, Total, HashString, Bucket, IsPow2, Items, IsChain;
      BucketIsRemainder(hv, nbuckets);
      var bucket := Bucket(hv, nbuckets);
      item := new Item(key, hv, bucketArray[bucket]);
      ChainCons(item, chains[bucket]);
      FrontItems(item, chains);
      bucketArray[bucket] := item;
      nentries := nentries + 1;
      AddedInOrder(item, chains, contents);
      chains := Front(item, chains);
      contents := contents[key := item];
    }

    // Gives the item of a key its data.
    method SetData(key: Key, item: Item, value: Option<string>)
      requires Valid() && key in contents && item == contents[key]
      modifies item`data
      ensures Valid() && item.data == value && Map() == old(Map())[key := value]
    {
      hide Placed, FoundAt, Holds, IsPow2, Total, HashString;
      KeysApart(chains, contents);
      item.data := value;
    }

    // hash_remove: takes the item of a key out of its chain.
    method Remove(key: Key) returns (item: Item?)
      requires Valid()
      modifies this, bucketArray, contents.Values`next
      ensures Valid() && bucketArray == old(bucketArray)
      ensures key in old(contents) ==> item == old(contents)[key] && contents == old(contents) - {key}
      ensures key !in old(contents) ==> item == null && contents == old(contents)
    {
      hide Placed, Found, HashString, IsPow2, Total;
      if nentries == 0 {
        assert contents == map[];
        return null;
      }
      var hv := Hash(key);
      var prev, found, k := Find(key, hv);
      if found == null { return null; }
      Unlink(prev, found, hv, k);
      item := found;
    }

    method Unlink(prev: Item?, item: Item, hv: nat, ghost k: nat)
      requires Valid() && hv % nbuckets < |chains| && item.key in contents && item == contents[item.key]
      requires var c := chains[hv % nbuckets];
               k < |c| && c[k] == item && prev == if k == 0 then null else c[k - 1]
      modifies this, bucketArray, contents.Values`next
      ensures Valid() && bucketArray == old(bucketArray) && contents == old(contents) - {item.key}
    {
      hide Placed, Found, Holds, IsChain, HashString, IsPow2, Total, Bucket;
      BucketIsRemainder(hv, nbuckets);
      var bucket := Bucket(hv, nbuckets);
      ghost var c := chains[bucket];
      HeldChain(bucketArray, chains, bucket);
      ChainNoRepeat(bucketArray[bucket], c);
      CutInOrder(chains, contents, bucket, k);
      TotalUpdate(chains, bucket, Cut(c, k));
      PlacedValues(chains, contents);
      forall b | 0 <= b < |chains| && b != bucket ensures Apart(c, [chains[b]]) {
        BucketsApart(chains, contents, bucket, b);
      }
      CutOut(prev, item, bucketArray, bucket, chains, k);
      nentries := nentries - 1;
      chains := chains[bucket := Cut(c, k)];
      contents := contents - {item.key};
    }

    // More buckets, unless their number would overflow.
    method Grow()
      requires Valid()
      modifies this, contents.Values`next
      ensures Valid() && contents == old(contents) && (bucketArray == old(bucketArray) || fresh(bucketArray))
      ensures nbuckets == if old(nbuckets) < 0x2000_0000 then 4 * old(nbuckets) else old(nbuckets)
    {
      GrowsToPow2(nbuckets);
      var nsize := GrownSize(nbuckets);
      if nsize > 0 { Rehash(nsize); }
    }

    // Relinks every item into a new bucket array; none is lost or duplicated.
    method Rehash(nsize: int)
      requires Valid() && IsPow2(nsize) && nsize < MAX_BUCKETS
      modifies this, contents.Values`next
      ensures Valid() && contents == old(contents) && nbuckets == nsize
      ensures bucketArray == old(bucketArray) || fresh(bucketArray)
      ensures Items(chains) == Items(old(chains))
    {
      hide Placed, Found, Holds, IsPow2, Total, Items, AllMoved, Waiting;
      if nsize == nbuckets { return; }
      Pow2Positive(nsize);
      var oldArray := bucketArray;
      ghost var from, m := chains, contents;
      nbuckets := nsize;
      var to := new Item?[nsize](_ => null);
      bucketArray := to;
      ghost var empty: Chains := seq(nsize, _ => []);
      EmptyHolds(to, empty);
      AllHeld(oldArray, from);
      MoveAll(oldArray, to, from, empty, m);
      chains := AllMoved(from, empty);
      AllMovedItems(from, empty);
      ItemsEmpty(empty);
      TotalEmpty(empty);
      MovedInOrder(from, contents, chains, empty);
    }
  }

  // The chains of an array still to be moved, from the j-th on.
  ghost predicate Waiting(a: array<Item?>, cs: Chains, j: nat)
    reads a, (set b, k | 0 <= b < |cs| && 0 <= k < |cs[b]| :: cs[b][k])`next
  {
    a.Length == |cs| && forall b :: j <= b < |cs| ==> IsChain(a[b], cs[b])
  }

  lemma AllHeld(a: array<Item?>, cs: Chains)
    requires Holds(a, cs)
    ensures Waiting(a, cs, 0)
  {
  }

  lemma NoneMoved(empty: Chains)
    requires |empty| > 0
    ensures AllMoved([], empty) == empty
  {
  }

  lemma Pow2Positive(n: int)
    requires IsPow2(n)
    ensures n > 0
  {
  }

  lemma EmptyHolds(a: array<Item?>, cs: Chains)
    requires a.Length == |cs| && forall b :: 0 <= b < |cs| ==> cs[b] == [] && a[b] == null
    ensures Holds(a, cs)
  {
  }

  lemma NextMoved(from: Chains, j: nat, empty: Chains)
    requires |empty| > 0 && j < |from|
    ensures AllMoved(from[..j + 1], empty) == Moved(from[j], AllMoved(from[..j], empty))
  {
    assert from[..j + 1][..j] == from[..j];
  }

  // The j-th chain has not been moved yet.
  lemma NotYetMoved(from: Chains, j: nat, empty: Chains, m: Contents)
    requires Placed(from, m) && j < |from| && |empty| > 0 && forall b :: 0 <= b < |empty| ==> empty[b] == []
    ensures Apart(from[j], AllMoved(from[..j], empty))
  {
    hide AllMoved, Placed;
    var ds := AllMoved(from[..j], empty);
    forall it, b | 0 <= b < |ds| && it in from[j] ensures it !in ds[b] {
      AllMovedMembers(from[..j], empty, it, b);
      forall f | 0 <= f < j ensures it !in from[..j][f] {
        BucketsApart(from, m, j, f);
      }
    }
  }

  // Moves the j-th chain; those after it stay as they are.
  method MoveBucket(a: array<Item?>, j: nat, to: array<Item?>, ghost from: Chains, ghost empty: Chains, ghost m: Contents)
    requires a != to && j < |from| && Waiting(a, from, j) && Placed(from, m)
    requires |empty| > 0 && (forall b :: 0 <= b < |empty| ==> empty[b] == [])
    requires IsPow2(to.Length) && Holds(to, AllMoved(from[..j], empty))
    modifies to, from[j]`next
    ensures Holds(to, AllMoved(from[..j + 1], empty)) && Waiting(a, from, j + 1) && Placed(from, m)
  {
    hide Placed, Holds, AllMoved, Moved, IsPow2;
    forall b | j < b < |from| ensures forall it :: it in from[b] ==> it !in from[j] {
      BucketsApart(from, m, b, j);
    }
    NotYetMoved(from, j, empty, m);
    NextMoved(from, j, empty);
    MoveChain(a[j], from[j], to, AllMoved(from[..j], empty));
    forall b | j + 1 <= b < |from| ensures IsChain(a[b], from[b]) {
      assert old(IsChain(a[b], from[b]));
      assert forall it :: it in from[b] ==> it.next == old(it.next);
    }
  }

  // Moves all chains of an array.
  method MoveAll(a: array<Item?>, to: array<Item?>, ghost from: Chains, ghost empty: Chains, ghost m: Contents)
    requires a != to && Waiting(a, from, 0) && Placed(from, m) && a.Length == |from|
    requires |empty| > 0 && forall b :: 0 <= b < |empty| ==> empty[b] == []
    requires IsPow2(to.Length) && Holds(to, empty)
    modifies to, m.Values`next
    ensures Holds(to, AllMoved(from, empty)) && Placed(from, m)
  {
    hide Placed, Holds, IsPow2, AllMoved, Waiting;
    PlacedValues(from, m);
    assert from[..0] == [];
    NoneMoved(empty);
    var j := 0;
    while j < a.Length
      invariant 0 <= j <= a.Length && Holds(to, AllMoved(from[..j], empty)) && Waiting(a, from, j) && Placed(from, m)
    {
      MoveBucket(a, j, to, from, empty, m);
      j := j + 1;
    }
    assert from[..a.Length] == from;
  }
}
