/**
 The task cache as an object: one method per entry point of the kernel module,
 each run without interference, against the reference store of HashBuckets.
 */
module TaskCache {
  import opened Common
  import opened Dynsec
  import opened HashBuckets
  import opened TaskFlags
  import opened TaskLabels

  const TASK_BUCKETS: nat := 65536
  const TASK_MAX_BKT_SZ: nat := 32

  datatype Rc = Success | NoEntry | Invalid | NoMemory | Exists | Range

  /** The label a parent has, 0 when it is not cached. */
  ghost function LabelIn(s: Store<Entry>, tid: nat): bv32 {
    if tid in s.recs then s.recs[tid].val.taskLabel else 0
  }

  ghost function ParentLabelIn(s: Store<Entry>, parent: nat): bv32 {
    if parent == 0 then 0 else LabelIn(s, parent)
  }

  ghost predicate HasParentIn(s: Store<Entry>, parent: nat) {
    parent != 0 && parent in s.recs
  }

  /** What a fork leaves in the store, when memory is to be had. */
  ghost predicate Forked(s: Store<Entry>, t: Store<Entry>, g: Geometry, child: nat, parent: nat, isThread: bool)
    requires g.buckets > 0
  {
    var x := ForkEntry(HasParentIn(s, parent), ParentLabelIn(s, parent), isThread);
    if x.None? || child in s.recs then t == s else Inserted(s, t, g, child, x.value)
  }

  ghost function SeenFirst(s: Store<Entry>, parent: nat, isThread: bool, e: Track): (r: (Track, Entry))
    ensures WellFormed(r.1)
  {
    FirstSight(HasParentIn(s, parent), ParentLabelIn(s, parent), isThread, e)
  }

  /** What the first event of a task leaves in the store. */
  ghost predicate FirstSeen(
      s: Store<Entry>, t: Store<Entry>, g: Geometry, tid: nat, parent: nat, isThread: bool, e: Track)
    requires g.buckets > 0
  {
    Inserted(s, t, g, tid, SeenFirst(s, parent, isThread, e).1)
  }

  class TaskCache {
    const geo: Geometry
    var enabled: bool
    var bkts: seq<Bucket<Entry>>
    ghost var store: Store<Entry>

    ghost predicate Valid()
      reads this
    {
      && geo.buckets == TASK_BUCKETS && geo.cap == TASK_MAX_BKT_SZ
      && Represents(bkts, geo, store)
      && AllWellFormed(store)
    }

    constructor (hash: nat -> nat)
      ensures Valid() && enabled && store == Store(map[], 0) && geo.hash == hash
    {
      geo := Geometry(hash, TASK_BUCKETS, TASK_MAX_BKT_SZ);
      enabled := true;
      bkts := Empty(TASK_BUCKETS);
      store := Store(map[], 0);
      new;
      EmptyRepresents<Entry>(geo);
    }

    /** Changes the value of a cached task in place. */
    method Put(tid: nat, x: Entry)
      requires Valid() && tid in store.recs && WellFormed(x)
      modifies this`bkts, this`store
      ensures Valid() && store == Rewrite(old(store), tid, x)
    {
      var i := geo.Index(tid);
      AssignRewrites(bkts, geo, store, tid, x);
      bkts := bkts[i := Assign(bkts[i], tid, x)];
      store := Rewrite(store, tid, x);
    }

    /** Adds a task in front of its bucket; a full bucket gives up its last. */
    method Add(tid: nat, x: Entry)
      requires Valid() && tid !in store.recs && WellFormed(x)
      modifies this`bkts, this`store
      ensures Valid() && Inserted(old(store), store, geo, tid, x)
    {
      var i := geo.Index(tid);
      PushInserts(bkts, geo, store, tid, x);
      ghost var next := StoreAfterPush(bkts, geo, store, tid, x);
      bkts := bkts[i := Push(bkts[i], Item(tid, x), TASK_MAX_BKT_SZ)];
      store := next;
    }

    method Find(tid: nat) returns (found: bool, x: Entry)
      requires Valid()
      ensures found <==> tid in store.recs
      ensures found ==> x == store.recs[tid].val && WellFormed(x)
    {
      var list := bkts[geo.Index(tid)].list;
      var p := Locate(list, tid);
      LookupAgrees(bkts, geo, store, tid);
      found := p < |list|;
      x := if found then list[p].val else LabelledEntry(0);
    }

    method FindParentTaskLabels(parent: nat) returns (found: bool, taskLabel: bv32)
      requires Valid()
      ensures found <==> parent != 0 && parent in store.recs
      ensures taskLabel == ParentLabelIn(store, parent)
    {
      if parent == 0 {
        return false, 0;
      }
      var x;
      found, x := Find(parent);
      taskLabel := if found then x.taskLabel else 0;
    }

    method SetTaskLabelFlags(tid: nat, taskLabel: bv32, memory: bool) returns (rc: Rc)
      requires Valid()
      modifies this`bkts, this`store
      ensures Valid()
      ensures
        if tid in old(store).recs then
          rc == Success && store == Rewrite(old(store), tid,
            old(store).recs[tid].val.(taskLabel := taskLabel, caches := NO_CACHES))
        else if memory then rc == Success && Inserted(old(store), store, geo, tid, LabelledEntry(taskLabel))
        else rc == NoMemory && store == old(store)
    {
      var found, x := Find(tid);
      if found {
        Put(tid, x.(taskLabel := taskLabel, caches := NO_CACHES));
        return Success;
      }
      if memory {
        Add(tid, LabelledEntry(taskLabel));
        return Success;
      }
      rc := NoMemory;
    }

    /** The client labels a task. `alive` says whether a task with this thread and
        process id was found. */
    method HandleTaskLabelIoc(tid: nat, flags: bv32, alive: bool, memory: bool) returns (rc: Rc)
      requires Valid()
      modifies this`bkts, this`store
      ensures Valid()
      ensures !enabled || tid == 0 || IoctlLabel(flags).None? ==> rc == Invalid && store == old(store)
      ensures enabled && tid != 0 && IoctlLabel(flags).Some? && !alive ==> rc == NoEntry && store == old(store)
      ensures enabled && tid != 0 && IoctlLabel(flags).Some? && alive && (memory || tid in old(store).recs) ==>
        && rc == Success && LabelIn(store, tid) == IoctlLabel(flags).value && tid in store.recs
        && store.recs[tid].val.caches == NO_CACHES
      ensures enabled && tid != 0 && IoctlLabel(flags).Some? && alive && !memory && tid !in old(store).recs ==>
        rc == NoMemory && store == old(store)
    {
      if !enabled || tid == 0 {
        return Invalid;
      }
      var taskLabel := flags;
      if taskLabel & (CACHE_DISABLE | CACHE_CLEAR) != 0 {
        taskLabel := 0;
      } else if taskLabel & CACHE_ENABLE != 0 {
        taskLabel := taskLabel & LABEL_BITS;
      } else {
        return Invalid;
      }
      if !alive {
        return NoEntry;
      }
      rc := SetTaskLabelFlags(tid, taskLabel, memory);
    }

    /** Called when a task is created. */
    method InsertNewTask(tid: nat, parent: nat, isThread: bool, memory: bool) returns (rc: Rc)
      requires Valid()
      modifies this`bkts, this`store
      ensures Valid()
      ensures !enabled || tid == 0 ==> rc == Invalid && store == old(store)
      ensures enabled && tid != 0 && memory ==> Forked(old(store), store, geo, tid, parent, isThread)
      ensures enabled && tid != 0 && !memory ==> store == old(store)
      ensures enabled && tid != 0 ==>
        var pl := ParentLabelIn(old(store), parent);
        rc == if pl & CACHE_INHERIT == 0 then (if pl != 0 then Success else NoEntry)
              else if !memory then NoMemory
              else if tid in old(store).recs then Exists
              else Success
    {
      if !enabled || tid == 0 {
        return Invalid;
      }
      var hasParent, parentLabel := FindParentTaskLabels(parent);
      var enter, taskLabel := TranslateAtFork(hasParent, parentLabel, isThread);
      ForkEnters(hasParent, parentLabel, isThread);
      if !enter {
        return if hasParent && parentLabel != 0 then Success else NoEntry;
      }
      rc := EnterLabelled(tid, taskLabel, memory);
    }

    /** The locked section of a fork: the task may have entered the cache meanwhile. */
    method EnterLabelled(tid: nat, taskLabel: bv32, memory: bool) returns (rc: Rc)
      requires Valid()
      modifies this`bkts, this`store
      ensures Valid()
      ensures rc == (if !memory then NoMemory else if tid in old(store).recs then Exists else Success)
      ensures if rc == Success then Inserted(old(store), store, geo, tid, LabelledEntry(taskLabel))
              else store == old(store)
    {
      if !memory {
        return NoMemory;
      }
      var found, _ := Find(tid);
      if found {
        return Exists;
      }
      Add(tid, LabelledEntry(taskLabel));
      rc := Success;
    }

    /** An event of a task: it is matched against the task's entry, or the task
        enters the cache with what it inherits. Returns the event as it is to be
        reported and the event before it. */
    method SetLastEvent(tid: nat, parent: nat, isThread: bool, event: Track, memory: bool)
      returns (rc: Rc, reported: Track, previous: Track)
      requires Valid()
      modifies this`bkts, this`store
      ensures Valid()
      ensures !enabled || tid == 0 ==> rc == Invalid && store == old(store) && reported == event
      ensures enabled && tid != 0 && event.eventType >= TASK_DUMP ==>
        rc == Range && store == old(store) && reported == event
      ensures enabled && tid != 0 && event.eventType < TASK_DUMP && tid in old(store).recs ==>
        var x := old(store).recs[tid].val;
        && WellFormed(x) && rc == Success && previous == x.last
        && reported == UpdateEntry(event, x).0 && store == Rewrite(old(store), tid, UpdateEntry(event, x).1)
      ensures enabled && tid != 0 && event.eventType < TASK_DUMP && tid !in old(store).recs ==>
        if !memory then rc == NoMemory && store == old(store) && reported == event
        else
          && rc == NoEntry && FirstSeen(old(store), store, geo, tid, parent, isThread, event)
          && reported == SeenFirst(old(store), parent, isThread, event).0
    {
      reported, previous := event, Track(0, 0, 0, 0);
      if !enabled || tid == 0 {
        return Invalid, reported, previous;
      }
      if event.eventType >= TASK_DUMP {
        return Range, reported, previous;
      }
      var found, x := Find(tid);
      if found {
        previous := x.last;
        reported, x := UpdateEntryData(event, x);
        Put(tid, x);
        return Success, reported, previous;
      }
      if !memory {
        return NoMemory, reported, previous;
      }
      reported := EnterWithEvent(tid, parent, isThread, event);
      rc := NoEntry;
    }

    method EnterWithEvent(tid: nat, parent: nat, isThread: bool, event: Track) returns (reported: Track)
      requires Valid() && tid !in store.recs
      modifies this`bkts, this`store
      ensures Valid() && FirstSeen(old(store), store, geo, tid, parent, isThread, event)
      ensures reported == SeenFirst(old(store), parent, isThread, event).0
    {
      var hasParent, parentLabel := FindParentTaskLabels(parent);
      var taskLabel;
      reported, taskLabel := TranslateAtEvent(hasParent, parentLabel, isThread, event);
      var entry := LabelledEntry(taskLabel).(last := reported);
      if Stalls(reported) {
        entry := entry.(lastStall := reported);
      }
      Add(tid, entry);
    }

    method HandleResponse(r: Response) returns (rc: Rc)
      requires Valid()
      modifies this`bkts, this`store
      ensures Valid()
      ensures !enabled ==> rc == Invalid && store == old(store)
      ensures enabled && PlanOf(r).Nothing? ==> rc == Success && store == old(store)
      ensures enabled && PlanOf(r).Refused? ==>
        rc == (if r.eventType >= TASK_DUMP then Range else Invalid) && store == old(store)
      ensures enabled && PlanOf(r).Change? ==>
        if r.tid !in old(store).recs then rc == NoEntry && store == old(store)
        else
          var x := old(store).recs[r.tid].val;
          && WellFormed(x) && rc == Success
          && store == Rewrite(old(store), r.tid, Answered(x, PlanOf(r), r.eventType))
    {
      if !enabled {
        return Invalid;
      }
      if r.eventType >= TASK_DUMP {
        return Range;
      }
      var ok, clearEvents, clearTask := true, false, false;
      var taskLabel: bv32, cacheFlags: bv32 := 0, 0;
      if r.labelFlags != 0 {
        ok, clearTask, taskLabel := ReadLabelFlags(r.labelFlags);
      } else if r.cacheFlags != 0 {
        ok, clearEvents, clearTask, cacheFlags := ReadCacheFlags(r.cacheFlags);
      } else {
        return Success;
      }
      if !ok {
        return Invalid;
      }
      assert PlanOf(r) == Change(clearEvents, clearTask, taskLabel, cacheFlags);
      var found, x := Find(r.tid);
      if !found {
        return NoEntry;
      }
      x := ApplyFlags(x, clearEvents, clearTask, taskLabel, cacheFlags, r.eventType);
      Put(r.tid, x);
      rc := Success;
    }

    method RemoveEntry(tid: nat)
      requires Valid()
      modifies this`bkts, this`store
      ensures Valid()
      ensures store == if enabled && tid != 0 then Erase(old(store), tid) else old(store)
    {
      if !enabled || tid == 0 {
        return;
      }
      var found, _ := Find(tid);
      if found {
        var i := geo.Index(tid);
        DeleteErases(bkts, geo, store, tid);
        bkts := bkts[i := Delete(bkts[i], tid)];
      } else {
        assert store.recs - {tid} == store.recs;
      }
      store := Erase(store, tid);
    }

    method Clear()
      requires Valid()
      modifies this`bkts, this`store
      ensures Valid() && store.recs == map[]
    {
      var i := 0;
      while i < TASK_BUCKETS
        invariant 0 <= i <= TASK_BUCKETS
        invariant Valid()
        invariant forall k :: k in store.recs ==> geo.Index(k) >= i
      {
        ClearErasesBucket(bkts, geo, store, i);
        bkts := bkts[i := Bucket(0, [])];
        store := EraseBucket(store, geo, i);
        i := i + 1;
      }
    }
  }

  // ----- inheritance along a chain of forks

  /** The label after a number of process forks. */
  function Descended(taskLabel: bv32, depth: nat): bv32 {
    if depth == 0 then taskLabel else InheritedLabel(Descended(taskLabel, depth - 1), false)
  }

  /** A recursing label reaches every depth unchanged; an inheritable one that
      does not recurse reaches the child, who cannot pass it on; any other label
      stays where it is. */
  lemma {:induction false} DescendedExactly(taskLabel: bv32, depth: nat)
    requires depth > 0
    ensures Descended(taskLabel, depth) ==
      if taskLabel & CACHE_INHERIT == 0 then 0
      else if taskLabel & CACHE_INHERIT_RECURSE != 0 then taskLabel
      else if depth == 1 then taskLabel & !CACHE_INHERIT
      else 0
  {
    if depth > 1 {
      DescendedExactly(taskLabel, depth - 1);
      assert (taskLabel & !CACHE_INHERIT) & CACHE_INHERIT == 0 && (0 as bv32) & CACHE_INHERIT == 0;
    } else {
      assert Descended(taskLabel, 0) == taskLabel;
    }
  }

  /** Task i forks task i+1; the tasks are new, and no bucket has to evict. */
  ghost predicate ForkChain(run: seq<Store<Entry>>, tids: seq<nat>, g: Geometry) {
    && g.Valid() && |run| == |tids| > 0
    && (forall i, j :: 0 <= i < j < |tids| ==> tids[i] != tids[j])
    && (forall i :: 0 <= i < |tids| ==> tids[i] != 0)
    && (forall i :: 0 < i < |tids| ==> tids[i] !in run[0].recs)
    && (forall i :: 0 <= i < |tids| - 1 ==>
          && Forked(run[i], run[i + 1], g, tids[i + 1], tids[i], false)
          && |Mates(run[i], g, g.Index(tids[i + 1]))| < g.cap)
  }

  lemma ForkStep(s: Store<Entry>, t: Store<Entry>, g: Geometry, child: nat, parent: nat, tid: nat)
    requires g.Valid() && parent != 0 && child !in s.recs
    requires Forked(s, t, g, child, parent, false) && |Mates(s, g, g.Index(child))| < g.cap
    ensures LabelIn(t, child) == InheritedLabel(LabelIn(s, parent), false)
    ensures tid != child ==> LabelIn(t, tid) == LabelIn(s, tid) && (tid in t.recs <==> tid in s.recs)
  {
    assert (0 as bv32) & CACHE_INHERIT == 0;
  }

  /** Down a chain of forks of any length, every task ends up with exactly the
      label its depth allows. */
  lemma {:induction false} LabelsAlongForkChain(run: seq<Store<Entry>>, tids: seq<nat>, g: Geometry, n: nat, i: nat)
    requires ForkChain(run, tids, g) && i <= n < |tids|
    ensures LabelIn(run[n], tids[i]) == Descended(LabelIn(run[0], tids[0]), i)
    ensures forall j :: n < j < |tids| ==> tids[j] !in run[n].recs
    decreases n, i
  {
    if n > 0 {
      var s, t := run[n - 1], run[n];
      assert Forked(run[n - 1], run[n - 1 + 1], g, tids[n - 1 + 1], tids[n - 1], false);
      LabelsAlongForkChain(run, tids, g, n - 1, n - 1);
      ForkStep(s, t, g, tids[n], tids[n - 1], tids[i]);
      if i < n {
        LabelsAlongForkChain(run, tids, g, n - 1, i);
      }
      forall j | n < j < |tids| ensures tids[j] !in t.recs {
        ForkStep(s, t, g, tids[n], tids[n - 1], tids[j]);
      }
    }
  }

  lemma LabelledUpdate(taskLabel: bv32, e: Track)
    requires e.eventType < TASK_DUMP
    ensures
      var r := UpdateEntry(e, LabelledEntry(taskLabel));
      var lifts := Reportable(e) && taskLabel & CACHE_ENABLE != 0;
      && r.0 == (if lifts then Unstall(e, taskLabel & CACHE_IGNORE != 0) else e)
      && r.1 == Entry(r.0, if Reportable(e) && Stalls(e) then r.0 else NO_EVENT, taskLabel, NO_CACHES)
  {
    assert e.eventType < |NO_CACHES| && NO_CACHES[e.eventType] == 0;
    assert (0 as bv32) & !CACHE_IGNORE == 0;
  }

  lemma SameTranslation(hasParent: bool, parent: bv32, isThread: bool)
    ensures
      var forked := ForkEntry(hasParent, parent, isThread);
      if forked.Some? then forked.value == LabelledEntry(FirstLabel(hasParent, parent, isThread))
      else FirstLabel(hasParent, parent, isThread) == 0
  {
  }

  lemma LiftsAlike(e: Track, taskLabel: bv32)
    ensures Lifted(e, taskLabel) == Unstall(e, taskLabel & CACHE_IGNORE != 0)
  {
  }

  /**
   A task that is forked and then has its first event, against a task that enters
   the cache with its first event: two pieces of code, written separately. When the
   fork enters nothing the first event inherits nothing and is reported as it is.
   When it does, both ways leave the task with the same label, options and limits
   on what is inherited further. The event is reported alike if and only if it is
   reportable, or the label does not enable, or lifting its stall would change
   nothing. The stall event remembered differs exactly for a stalling event that
   is reportable under an enabling label, or is neither.
   */
  lemma ForkAndFirstEventAgree(hasParent: bool, parent: bv32, isThread: bool, e: Track)
    requires e.eventType < TASK_DUMP
    ensures
      var forked := ForkEntry(hasParent, parent, isThread);
      var seen := FirstSight(hasParent, parent, isThread, e);
      if forked.None? then seen.0 == e && seen.1.taskLabel == 0
      else
        var taskLabel := forked.value.taskLabel;
        var enables := taskLabel & CACHE_ENABLE != 0;
        var updated := UpdateEntry(e, forked.value);
        && updated.1.taskLabel == seen.1.taskLabel && updated.1.caches == seen.1.caches
        && (updated.0 == seen.0 <==>
              Reportable(e) || !enables || Unstall(e, taskLabel & CACHE_IGNORE != 0) == e)
        && updated.1.last == updated.0 && seen.1.last == seen.0
        && (updated.1.lastStall == seen.1.lastStall <==> !Stalls(e) || Reportable(e) != enables)
  {
    var forked := ForkEntry(hasParent, parent, isThread);
    SameTranslation(hasParent, parent, isThread);
    if forked.Some? {
      var taskLabel := forked.value.taskLabel;
      LabelledUpdate(taskLabel, e);
      LiftsAlike(e, taskLabel);
      UnstallClears(e, taskLabel & CACHE_IGNORE != 0);
    }
  }

  /** So a task has the same label in the store after its first event, whether or not
      its fork entered it, as long as no bucket has to evict. */
  lemma SameLabelEitherWay(
      s: Store<Entry>, atFork: Store<Entry>, later: Store<Entry>, direct: Store<Entry>, g: Geometry,
      tid: nat, parent: nat, isThread: bool, e: Track)
    requires g.Valid() && tid != parent && tid !in s.recs && |Mates(s, g, g.Index(tid))| < g.cap
    requires e.eventType < TASK_DUMP
    requires Forked(s, atFork, g, tid, parent, isThread)
    requires if tid in atFork.recs
             then
               && WellFormed(atFork.recs[tid].val)
               && later == Rewrite(atFork, tid, UpdateEntry(e, atFork.recs[tid].val).1)
             else FirstSeen(atFork, later, g, tid, parent, isThread, e)
    requires FirstSeen(s, direct, g, tid, parent, isThread, e)
    ensures LabelIn(later, tid) == LabelIn(direct, tid)
  {
    ForkAndFirstEventAgree(HasParentIn(s, parent), ParentLabelIn(s, parent), isThread, e);
  }
}
