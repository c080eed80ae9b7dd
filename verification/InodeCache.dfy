/**
 The read-only cache of inode addresses: it decides when an open for reading
 may go through without asking the client.
 */
module InodeCache {
  import opened Dynsec
  import opened HashBuckets

  const INODE_BUCKETS: nat := 16384
  const INODE_MAX_BKT_SZ: nat := 8
  const U64: nat := 0x1_0000_0000_0000_0000

  datatype Rc = Success | NoEntry | Invalid | NoMemory

  function Bump(hits: nat): nat {
    (hits + 1) % U64
  }

  /** A lookup counts a hit only for an entry that was enabled. */
  function Seen(hits: nat): nat {
    if hits > 0 then Bump(hits) else hits
  }

  class InodeCache {
    const geo: Geometry
    var enabled: bool
    var bkts: seq<Bucket<nat>>
    ghost var store: Store<nat>

    ghost predicate Valid()
      reads this
    {
      && geo.buckets == INODE_BUCKETS && geo.cap == INODE_MAX_BKT_SZ
      && Represents(bkts, geo, store)
    }

    constructor (hash: nat -> nat)
      ensures Valid() && enabled && store == Store(map[], 0) && geo.hash == hash
    {
      geo := Geometry(hash, INODE_BUCKETS, INODE_MAX_BKT_SZ);
      enabled := true;
      bkts := Empty(INODE_BUCKETS);
      store := Store(map[], 0);
      new;
      EmptyRepresents<nat>(geo);
    }

    /** Finds an address and counts the hit, or inserts it as not yet enabled.
        `memory` says whether memory for a new entry was to be had. */
    method Lookup(addr: nat, insert: bool, memory: bool) returns (rc: Rc, hits: nat)
      requires Valid()
      modifies this`bkts, this`store
      ensures Valid()
      ensures !enabled || addr == 0 ==> rc == Invalid && store == old(store) && bkts == old(bkts)
      ensures enabled && addr != 0 && addr in old(store).recs ==>
        && rc == Success && hits == Seen(old(store).recs[addr].val)
        && store == Rewrite(old(store), addr, hits)
      ensures enabled && addr != 0 && addr !in old(store).recs ==>
        && hits == 0
        && (if insert && memory then rc == NoEntry && Inserted(old(store), store, geo, addr, 0)
            else rc == (if insert then NoMemory else NoEntry) && store == old(store))
      ensures enabled && addr != 0 && insert ==> Next(old(store), ReadOpen(addr, memory), store, geo)
    {
      hits := 0;
      if !enabled || addr == 0 {
        return Invalid, 0;
      }
      var i := geo.Index(addr);
      var list := bkts[i].list;
      var p := Locate(list, addr);
      LookupAgrees(bkts, geo, store, addr);
      if p < |list| {
        hits := Seen(list[p].val);
        AssignRewrites(bkts, geo, store, addr, hits);
        bkts := bkts[i := Assign(bkts[i], addr, hits)];
        store := Rewrite(store, addr, hits);
        rc := Success;
      } else if insert {
        if memory {
          PushInserts(bkts, geo, store, addr, 0);
          ghost var next := StoreAfterPush(bkts, geo, store, addr, 0);
          bkts := bkts[i := Push(bkts[i], Item(addr, 0), INODE_MAX_BKT_SZ)];
          store := next;
          rc := NoEntry;
        } else {
          rc := NoMemory;
        }
      } else {
        rc := NoEntry;
      }
    }

    /** Applies a client's answer: enabling counts as a hit, anything else
        forgets the address. */
    method Update(addr: nat, cacheFlags: bv32) returns (rc: Rc)
      requires Valid()
      modifies this`bkts, this`store
      ensures Valid()
      ensures !enabled || addr == 0 ==> rc == Invalid && store == old(store)
      ensures enabled && addr != 0 ==>
        if addr !in old(store).recs then rc == NoEntry && store == old(store)
        else
          && rc == Success
          && store == if cacheFlags & CACHE_ENABLE != 0
                      then Rewrite(old(store), addr, Bump(old(store).recs[addr].val))
                      else Erase(old(store), addr)
      ensures enabled && addr != 0 ==> Next(old(store), Answer(addr, cacheFlags & CACHE_ENABLE != 0), store, geo)
    {
      if !enabled || addr == 0 {
        return Invalid;
      }
      var flags := cacheFlags & (CACHE_ENABLE | CACHE_DISABLE);
      assert (flags & CACHE_ENABLE != 0) == (cacheFlags & CACHE_ENABLE != 0);
      var i := geo.Index(addr);
      var list := bkts[i].list;
      var p := Locate(list, addr);
      LookupAgrees(bkts, geo, store, addr);
      if p == |list| {
        return NoEntry;
      }
      if flags & CACHE_ENABLE != 0 {
        var hits := Bump(list[p].val);
        AssignRewrites(bkts, geo, store, addr, hits);
        bkts := bkts[i := Assign(bkts[i], addr, hits)];
        store := Rewrite(store, addr, hits);
      } else {
        DeleteErases(bkts, geo, store, addr);
        bkts := bkts[i := Delete(bkts[i], addr)];
        store := Erase(store, addr);
      }
      rc := Success;
    }

    method RemoveEntry(addr: nat)
      requires Valid()
      modifies this`bkts, this`store
      ensures Valid()
      ensures store == if enabled && addr != 0 then Erase(old(store), addr) else old(store)
    {
      if !enabled || addr == 0 {
        return;
      }
      var i := geo.Index(addr);
      LookupAgrees(bkts, geo, store, addr);
      if Has(bkts[i].list, addr) {
        DeleteErases(bkts, geo, store, addr);
        bkts := bkts[i := Delete(bkts[i], addr)];
      } else {
        assert store.recs - {addr} == store.recs;
      }
      store := Erase(store, addr);
    }

    /** Empties the buckets one after another. */
    method Clear()
      requires Valid()
      modifies this`bkts, this`store
      ensures Valid() && store.recs == map[]
    {
      var i := 0;
      while i < INODE_BUCKETS
        invariant 0 <= i <= INODE_BUCKETS
        invariant Valid()
        invariant forall k :: k in store.recs ==> geo.Index(k) >= i
      {
        ClearErasesBucket(bkts, geo, store, i);
        bkts := bkts[i := Bucket(0, [])];
        store := EraseBucket(store, geo, i);
        i := i + 1;
      }
    }

    method Disable()
      requires Valid()
      modifies this
      ensures Valid() && !enabled
      ensures store.recs == if old(enabled) then map[] else old(store.recs)
    {
      if enabled {
        Clear();
        enabled := false;
      }
    }
  }

  // ----- what one locked section does

  datatype Op =
    | ReadOpen(addr: nat, memory: bool)       // lookup, inserting when absent
    | Answer(addr: nat, enable: bool)         // inode_cache_update
    | WriteOpen(addr: nat)                    // the rest remove the entry
    | Unlink(addr: nat)
    | InodeFreed(addr: nat)
    | MapDenied(addr: nat)

  /** Does the step take the entry of this address out of the cache? */
  predicate Removes(op: Op, addr: nat) {
    match op
    case ReadOpen(_, _) => false
    case Answer(a, enable) => a == addr && !enable
    case WriteOpen(a) => a == addr
    case Unlink(a) => a == addr
    case InodeFreed(a) => a == addr
    case MapDenied(a) => a == addr
  }

  ghost predicate Next(s: Store<nat>, op: Op, t: Store<nat>, g: Geometry)
    requires g.buckets > 0
  {
    match op
    case ReadOpen(a, memory) =>
      if a in s.recs then t == Rewrite(s, a, Seen(s.recs[a].val))
      else if memory then Inserted(s, t, g, a, 0)
      else t == s
    case Answer(a, enable) =>
      if a !in s.recs then t == s
      else if enable then t == Rewrite(s, a, Bump(s.recs[a].val))
      else t == Erase(s, a)
    case WriteOpen(a) => t == Erase(s, a)
    case Unlink(a) => t == Erase(s, a)
    case InodeFreed(a) => t == Erase(s, a)
    case MapDenied(a) => t == Erase(s, a)
  }
}
