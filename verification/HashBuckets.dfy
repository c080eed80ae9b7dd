/**
 The bounded hash buckets shared by the task cache and the inode cache: lists
 with the newest entry first, a size field beside each list, and the oldest
 entry dropped when a full bucket takes a new one.

 A cache is described twice: as the buckets the code keeps, and as a reference
 store that knows for every key its value and when it was inserted.
 */
module HashBuckets {

  datatype Item<V> = Item(key: nat, val: V)

  datatype Bucket<V> = Bucket(size: nat, list: seq<Item<V>>)

  /** The hash function, the number of buckets and the size limit of each. */
  datatype Geometry = Geometry(hash: nat -> nat, buckets: nat, cap: nat) {
    ghost predicate Valid() {
      buckets > 0 && cap > 0
    }

    function Index(key: nat): (i: nat)
      requires buckets > 0
      ensures i < buckets
    {
      hash(key) % buckets
    }
  }

  // ----- one bucket

  /** Position of the first entry with this key, or the length of the list. */
  function Locate<V>(list: seq<Item<V>>, key: nat): (i: nat)
    ensures i <= |list|
    ensures i < |list| ==> list[i].key == key
    ensures forall j :: 0 <= j < i ==> list[j].key != key
  {
    if list == [] || list[0].key == key then 0 else 1 + Locate(list[1..], key)
  }

  predicate Has<V>(list: seq<Item<V>>, key: nat) {
    Locate(list, key) < |list|
  }

  function Push<V>(b: Bucket<V>, item: Item<V>, cap: nat): Bucket<V> {
    if b.size >= cap && b.list != [] then Bucket(b.size, [item] + b.list[..|b.list| - 1])
    else Bucket(b.size + 1, [item] + b.list)
  }

  function Delete<V>(b: Bucket<V>, key: nat): Bucket<V>
    requires Has(b.list, key)
  {
    var i := Locate(b.list, key);
    Bucket(if b.size > 0 then b.size - 1 else 0, b.list[..i] + b.list[i + 1..])
  }

  function Assign<V>(b: Bucket<V>, key: nat, val: V): Bucket<V>
    requires Has(b.list, key)
  {
    b.(list := b.list[Locate(b.list, key) := Item(key, val)])
  }

  ghost predicate Distinct<V>(list: seq<Item<V>>) {
    forall i, j :: 0 <= i < j < |list| ==> list[i].key != list[j].key
  }

  // ----- the reference store

  datatype Rec<V> = Rec(val: V, born: nat)

  datatype Store<V> = Store(recs: map<nat, Rec<V>>, clock: nat)

  function Mates<V>(s: Store<V>, g: Geometry, i: nat): set<nat>
    requires g.buckets > 0
  {
    set k | k in s.recs && g.Index(k) == i
  }

  /** The key of this bucket that was inserted first. */
  ghost predicate IsOldest<V>(s: Store<V>, g: Geometry, i: nat, key: nat)
    requires g.buckets > 0
  {
    key in Mates(s, g, i) && forall k :: k in Mates(s, g, i) ==> s.recs[key].born <= s.recs[k].born
  }

  /** t is s with one more key; a full bucket first loses its oldest. */
  ghost predicate Inserted<V>(s: Store<V>, t: Store<V>, g: Geometry, key: nat, val: V)
    requires g.buckets > 0
  {
    var i := g.Index(key);
    && t.clock == s.clock + 1
    && if |Mates(s, g, i)| >= g.cap
       then exists oldest: nat :: IsOldest(s, g, i, oldest) && t.recs == (s.recs - {oldest})[key := Rec(val, s.clock)]
       else t.recs == s.recs[key := Rec(val, s.clock)]
  }

  function Erase<V>(s: Store<V>, key: nat): Store<V> {
    s.(recs := s.recs - {key})
  }

  function Rewrite<V>(s: Store<V>, key: nat, val: V): Store<V>
    requires key in s.recs
  {
    s.(recs := s.recs[key := s.recs[key].(val := val)])
  }

  function EraseBucket<V>(s: Store<V>, g: Geometry, i: nat): Store<V>
    requires g.buckets > 0
  {
    s.(recs := s.recs - Mates(s, g, i))
  }

  // ----- how buckets represent a store

  ghost predicate BucketOk<V>(b: Bucket<V>, g: Geometry, i: nat, s: Store<V>)
    requires g.buckets > 0
  {
    && b.size == |b.list| <= g.cap
    && (forall j :: 0 <= j < |b.list| ==> ItemOk(b.list[j], g, i, s))
    && (forall j, k :: 0 <= j < k < |b.list| ==> Younger(b.list[j], b.list[k], s))
  }

  ghost predicate ItemOk<V>(x: Item<V>, g: Geometry, i: nat, s: Store<V>)
    requires g.buckets > 0
  {
    && g.Index(x.key) == i
    && x.key in s.recs
    && s.recs[x.key].val == x.val
    && s.recs[x.key].born < s.clock
  }

  ghost predicate Younger<V>(x: Item<V>, y: Item<V>, s: Store<V>) {
    x.key in s.recs && y.key in s.recs && s.recs[x.key].born > s.recs[y.key].born
  }

  ghost predicate Represents<V>(bkts: seq<Bucket<V>>, g: Geometry, s: Store<V>) {
    && g.Valid() && |bkts| == g.buckets
    && (forall i :: 0 <= i < |bkts| ==> BucketOk(bkts[i], g, i, s))
    && (forall k :: k in s.recs ==> Has(bkts[g.Index(k)].list, k))
  }

  function Empty<V>(n: nat): seq<Bucket<V>> {
    seq(n, _ => Bucket(0, []))
  }

  lemma EmptyRepresents<V>(g: Geometry)
    requires g.Valid()
    ensures Represents(Empty<V>(g.buckets), g, Store(map[], 0))
  {
  }

  lemma HasKey<V>(list: seq<Item<V>>, j: nat)
    requires j < |list|
    ensures Has(list, list[j].key)
  {
  }

  /** Looking a key up in its bucket finds what the store has under it. */
  lemma LookupAgrees<V>(bkts: seq<Bucket<V>>, g: Geometry, s: Store<V>, key: nat)
    requires Represents(bkts, g, s)
    ensures Has(bkts[g.Index(key)].list, key) <==> key in s.recs
    ensures key in s.recs ==>
      var list := bkts[g.Index(key)].list;
      list[Locate(list, key)] == Item(key, s.recs[key].val)
  {
    var i := g.Index(key);
    assert BucketOk(bkts[i], g, i, s);
    var j := Locate(bkts[i].list, key);
    if j < |bkts[i].list| {
      assert ItemOk(bkts[i].list[j], g, i, s);
    }
  }

  lemma DistinctKeys<V>(b: Bucket<V>, g: Geometry, i: nat, s: Store<V>)
    requires g.buckets > 0 && BucketOk(b, g, i, s)
    ensures Distinct(b.list)
  {
    forall j, k | 0 <= j < k < |b.list| ensures b.list[j].key != b.list[k].key {
      assert Younger(b.list[j], b.list[k], s);
    }
  }

  function KeySet<V>(list: seq<Item<V>>): set<nat> {
    set j | 0 <= j < |list| :: list[j].key
  }

  lemma {:induction false} KeyCount<V>(list: seq<Item<V>>)
    requires Distinct(list)
    ensures |KeySet(list)| == |list|
  {
    if list != [] {
      var n := |list| - 1;
      KeyCount(list[..n]);
      assert KeySet(list) == KeySet(list[..n]) + {list[n].key};
      assert list[n].key !in KeySet(list[..n]);
    } else {
      assert KeySet(list) == {};
    }
  }

  lemma MatesAreKeys<V>(bkts: seq<Bucket<V>>, g: Geometry, s: Store<V>, i: nat)
    requires Represents(bkts, g, s) && i < g.buckets
    ensures Mates(s, g, i) == KeySet(bkts[i].list)
  {
    var list := bkts[i].list;
    assert BucketOk(bkts[i], g, i, s);
    forall k | k in KeySet(list) ensures k in Mates(s, g, i) {
      var j :| 0 <= j < |list| && list[j].key == k;
      assert ItemOk(list[j], g, i, s);
    }
    forall k | k in Mates(s, g, i) ensures k in KeySet(list) {
      assert Has(list, k);
      assert list[Locate(list, k)].key == k;
    }
  }

  /** The size field counts the keys of the store that fall in the bucket, and
      the last entry of the list is the oldest of them. */
  lemma BucketMates<V>(bkts: seq<Bucket<V>>, g: Geometry, s: Store<V>, i: nat)
    requires Represents(bkts, g, s) && i < g.buckets
    ensures |Mates(s, g, i)| == bkts[i].size == |bkts[i].list|
    ensures Mates(s, g, i) == KeySet(bkts[i].list)
    ensures bkts[i].list != [] ==> IsOldest(s, g, i, bkts[i].list[|bkts[i].list| - 1].key)
  {
    var list := bkts[i].list;
    assert BucketOk(bkts[i], g, i, s);
    DistinctKeys(bkts[i], g, i, s);
    KeyCount(list);
    MatesAreKeys(bkts, g, s, i);
    if list != [] {
      var last := list[|list| - 1];
      forall k | k in Mates(s, g, i) ensures s.recs[last.key].born <= s.recs[k].born {
        assert k in KeySet(list);
        var j :| 0 <= j < |list| && list[j].key == k;
        if j < |list| - 1 {
          assert Younger(list[j], last, s);
        }
      }
    }
  }

  // ----- what the bucket operations do to the store

  /** The store after a push, with the entry the list gives up. */
  ghost function StoreAfterPush<V>(bkts: seq<Bucket<V>>, g: Geometry, s: Store<V>, key: nat, val: V): Store<V>
    requires Represents(bkts, g, s)
  {
    var list := bkts[g.Index(key)].list;
    var kept := if |list| >= g.cap && list != [] then s.recs - {list[|list| - 1].key} else s.recs;
    Store(kept[key := Rec(val, s.clock)], s.clock + 1)
  }

  lemma PushedBucket<V>(bkts: seq<Bucket<V>>, g: Geometry, s: Store<V>, key: nat, val: V)
    requires Represents(bkts, g, s) && key !in s.recs
    ensures
      var i := g.Index(key);
      BucketOk(Push(bkts[i], Item(key, val), g.cap), g, i, StoreAfterPush(bkts, g, s, key, val))
  {
    var i := g.Index(key);
    var list := bkts[i].list;
    var t := StoreAfterPush(bkts, g, s, key, val);
    var list' := Push(bkts[i], Item(key, val), g.cap).list;
    assert BucketOk(bkts[i], g, i, s);
    DistinctKeys(bkts[i], g, i, s);
    forall j | 0 <= j < |list'| ensures ItemOk(list'[j], g, i, t) {
      if j > 0 {
        assert list'[j] == list[j - 1] && ItemOk(list[j - 1], g, i, s);
      }
    }
    forall j, k | 0 <= j < k < |list'| ensures Younger(list'[j], list'[k], t) {
      assert ItemOk(list'[j], g, i, t) && ItemOk(list'[k], g, i, t);
      assert ItemOk(list[k - 1], g, i, s);
      if j > 0 {
        assert Younger(list[j - 1], list[k - 1], s);
      }
    }
  }

  /** A bucket is unaffected by a change of the store elsewhere. */
  lemma OtherBucket<V>(b: Bucket<V>, g: Geometry, i: nat, s: Store<V>, t: Store<V>)
    requires g.buckets > 0 && BucketOk(b, g, i, s) && s.clock <= t.clock
    requires forall k :: k in s.recs && g.Index(k) == i ==> k in t.recs && t.recs[k] == s.recs[k]
    ensures BucketOk(b, g, i, t)
  {
    forall j | 0 <= j < |b.list| ensures ItemOk(b.list[j], g, i, t) {
      assert ItemOk(b.list[j], g, i, s);
    }
    forall j, k | 0 <= j < k < |b.list| ensures Younger(b.list[j], b.list[k], t) {
      assert Younger(b.list[j], b.list[k], s) && ItemOk(b.list[j], g, i, s) && ItemOk(b.list[k], g, i, s);
    }
  }

  lemma {:induction false} HasAfterPush<V>(b: Bucket<V>, item: Item<V>, cap: nat, k: nat)
    requires k == item.key || (Has(b.list, k) && Locate(b.list, k) < |b.list| - 1)
          || (Has(b.list, k) && b.size < cap)
    ensures Has(Push(b, item, cap).list, k)
  {
    var list' := Push(b, item, cap).list;
    if k == item.key {
      HasKey(list', 0);
    } else {
      var j := Locate(b.list, k);
      assert list'[j + 1] == b.list[j];
      HasKey(list', j + 1);
    }
  }

  lemma PushKeepsBuckets<V>(bkts: seq<Bucket<V>>, g: Geometry, s: Store<V>, key: nat, val: V, d: nat)
    requires Represents(bkts, g, s) && key !in s.recs && d < |bkts|
    ensures
      var i := g.Index(key);
      var bkts' := bkts[i := Push(bkts[i], Item(key, val), g.cap)];
      BucketOk(bkts'[d], g, d, StoreAfterPush(bkts, g, s, key, val))
  {
    var i := g.Index(key);
    var list := bkts[i].list;
    if d == i {
      PushedBucket(bkts, g, s, key, val);
    } else {
      assert BucketOk(bkts[d], g, d, s) && BucketOk(bkts[i], g, i, s);
      assert list != [] ==> ItemOk(list[|list| - 1], g, i, s);
      OtherBucket(bkts[d], g, d, s, StoreAfterPush(bkts, g, s, key, val));
    }
  }

  lemma PushKeepsKeys<V>(bkts: seq<Bucket<V>>, g: Geometry, s: Store<V>, key: nat, val: V, k: nat)
    requires Represents(bkts, g, s) && k in StoreAfterPush(bkts, g, s, key, val).recs
    ensures
      var i := g.Index(key);
      Has(bkts[i := Push(bkts[i], Item(key, val), g.cap)][g.Index(k)].list, k)
  {
    var i := g.Index(key);
    var list := bkts[i].list;
    assert BucketOk(bkts[i], g, i, s);
    if g.Index(k) == i {
      if k != key {
        assert Has(list, k);
        assert bkts[i].size >= g.cap ==> k != list[|list| - 1].key;
      }
      HasAfterPush(bkts[i], Item(key, val), g.cap, k);
    }
  }

  /** Pushing a new key inserts it in the store; a full bucket loses the key
      that was inserted first, and no other. */
  lemma PushInserts<V>(bkts: seq<Bucket<V>>, g: Geometry, s: Store<V>, key: nat, val: V)
    requires Represents(bkts, g, s) && key !in s.recs
    ensures
      var i := g.Index(key);
      var t := StoreAfterPush(bkts, g, s, key, val);
      && Inserted(s, t, g, key, val)
      && Represents(bkts[i := Push(bkts[i], Item(key, val), g.cap)], g, t)
  {
    var i := g.Index(key);
    var t := StoreAfterPush(bkts, g, s, key, val);
    var bkts' := bkts[i := Push(bkts[i], Item(key, val), g.cap)];
    BucketMates(bkts, g, s, i);
    forall d | 0 <= d < |bkts| ensures BucketOk(bkts'[d], g, d, t) {
      PushKeepsBuckets(bkts, g, s, key, val, d);
    }
    forall k | k in t.recs ensures Has(bkts'[g.Index(k)].list, k) {
      PushKeepsKeys(bkts, g, s, key, val, k);
    }
  }

  lemma LocateUnique<V>(list: seq<Item<V>>, j: nat)
    requires j < |list| && Distinct(list)
    ensures Locate(list, list[j].key) == j
  {
    var i := Locate(list, list[j].key);
    assert i >= |list| || list[i].key == list[j].key;
  }

  lemma OthersStay<V>(b: Bucket<V>, key: nat, k: nat)
    requires Has(b.list, key) && Has(b.list, k) && k != key
    ensures Has(Delete(b, key).list, k)
  {
    var list, list' := b.list, Delete(b, key).list;
    var p, j := Locate(list, key), Locate(list, k);
    var j' := if j < p then j else j - 1;
    assert list'[j'] == list[j];
    HasKey(list', j');
  }

  lemma DeleteErases<V>(bkts: seq<Bucket<V>>, g: Geometry, s: Store<V>, key: nat)
    requires Represents(bkts, g, s) && key in s.recs
    ensures
      var i := g.Index(key);
      && Has(bkts[i].list, key)
      && Represents(bkts[i := Delete(bkts[i], key)], g, Erase(s, key))
  {
    var i := g.Index(key);
    var t := Erase(s, key);
    LookupAgrees(bkts, g, s, key);
    var bkts' := bkts[i := Delete(bkts[i], key)];
    assert BucketOk(bkts[i], g, i, s);
    DeletedBucket(bkts[i], g, i, s, key);
    forall d | 0 <= d < |bkts| ensures BucketOk(bkts'[d], g, d, t) {
      if d != i {
        assert BucketOk(bkts[d], g, d, s);
        OtherBucket(bkts[d], g, d, s, t);
      }
    }
    forall k | k in t.recs ensures Has(bkts'[g.Index(k)].list, k) {
      assert Has(bkts[g.Index(k)].list, k);
      if g.Index(k) == i {
        OthersStay(bkts[i], key, k);
      }
    }
  }

  lemma DeletedBucket<V>(b: Bucket<V>, g: Geometry, i: nat, s: Store<V>, key: nat)
    requires g.buckets > 0 && BucketOk(b, g, i, s) && Has(b.list, key)
    ensures BucketOk(Delete(b, key), g, i, Erase(s, key))
  {
    var t := Erase(s, key);
    var p := Locate(b.list, key);
    var list' := Delete(b, key).list;
    DistinctKeys(b, g, i, s);
    assert forall j :: 0 <= j < |list'| ==> list'[j] == b.list[if j < p then j else j + 1];
    forall j | 0 <= j < |list'| ensures ItemOk(list'[j], g, i, t) {
      assert ItemOk(b.list[if j < p then j else j + 1], g, i, s);
    }
    forall j, k | 0 <= j < k < |list'| ensures Younger(list'[j], list'[k], t) {
      assert ItemOk(list'[j], g, i, t) && ItemOk(list'[k], g, i, t);
      assert Younger(b.list[if j < p then j else j + 1], b.list[if k < p then k else k + 1], s);
    }
  }

  lemma AssignRewrites<V>(bkts: seq<Bucket<V>>, g: Geometry, s: Store<V>, key: nat, val: V)
    requires Represents(bkts, g, s) && key in s.recs
    ensures
      var i := g.Index(key);
      && Has(bkts[i].list, key)
      && Represents(bkts[i := Assign(bkts[i], key, val)], g, Rewrite(s, key, val))
  {
    var i := g.Index(key);
    var t := Rewrite(s, key, val);
    LookupAgrees(bkts, g, s, key);
    var bkts' := bkts[i := Assign(bkts[i], key, val)];
    assert BucketOk(bkts[i], g, i, s);
    AssignedBucket(bkts[i], g, i, s, key, val);
    forall d | 0 <= d < |bkts| ensures BucketOk(bkts'[d], g, d, t) {
      if d != i {
        assert BucketOk(bkts[d], g, d, s);
        OtherBucket(bkts[d], g, d, s, t);
      }
    }
    forall k | k in t.recs ensures Has(bkts'[g.Index(k)].list, k) {
      var list := bkts[g.Index(k)].list;
      assert Has(list, k);
      HasKey(bkts'[g.Index(k)].list, Locate(list, k));
    }
  }

  lemma AssignedBucket<V>(b: Bucket<V>, g: Geometry, i: nat, s: Store<V>, key: nat, val: V)
    requires g.buckets > 0 && BucketOk(b, g, i, s) && Has(b.list, key) && key in s.recs
    ensures BucketOk(Assign(b, key, val), g, i, Rewrite(s, key, val))
  {
    var t := Rewrite(s, key, val);
    var list' := Assign(b, key, val).list;
    DistinctKeys(b, g, i, s);
    forall j | 0 <= j < |list'| ensures ItemOk(list'[j], g, i, t) {
      assert ItemOk(b.list[j], g, i, s);
    }
    forall j, k | 0 <= j < k < |list'| ensures Younger(list'[j], list'[k], t) {
      assert Younger(b.list[j], b.list[k], s) && list'[j].key == b.list[j].key && list'[k].key == b.list[k].key;
    }
  }

  lemma ClearErasesBucket<V>(bkts: seq<Bucket<V>>, g: Geometry, s: Store<V>, i: nat)
    requires Represents(bkts, g, s) && i < g.buckets
    ensures Represents(bkts[i := Bucket(0, [])], g, EraseBucket(s, g, i))
  {
    var t := EraseBucket(s, g, i);
    var bkts' := bkts[i := Bucket(0, [])];
    forall d | 0 <= d < |bkts| ensures BucketOk(bkts'[d], g, d, t) {
      if d != i {
        assert BucketOk(bkts[d], g, d, s);
        OtherBucket(bkts[d], g, d, s, t);
      }
    }
  }
}
