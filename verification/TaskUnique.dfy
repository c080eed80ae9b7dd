/**
 When the task cache has one entry per task. An event's lookup and its insertion
 are two locked sections, and the second does not look again.
 */
module TaskUnique {
  import opened Common
  import opened Dynsec
  import opened HashBuckets
  import opened TaskLabels
  import opened TaskRuns

  ghost predicate BucketTidy(b: Bucket<Entry>, g: Geometry, i: nat)
    requires g.buckets > 0
  {
    && b.size == |b.list| <= g.cap
    && Distinct(b.list)
    && (forall j :: 0 <= j < |b.list| ==> g.Index(b.list[j].key) == i)
  }

  /** Every task has at most one entry, in its own bucket; the size fields are
      the list lengths and stay within the limit. */
  ghost predicate Tidy(s: State, g: Geometry) {
    && g.Valid() && |s.bkts| == g.buckets
    && (forall i :: 0 <= i < |s.bkts| ==> BucketTidy(s.bkts[i], g, i))
  }

  /** The key is not there yet, or is the one that the full bucket gives up. */
  predicate PushesClean(b: Bucket<Entry>, key: nat, cap: nat) {
    !Has(b.list, key) || (b.size >= cap && Locate(b.list, key) == |b.list| - 1)
  }

  /** A push keeps the keys of a bucket distinct exactly then. */
  lemma PushDistinctExactly(b: Bucket<Entry>, item: Item<Entry>, cap: nat)
    requires b.size == |b.list| && Distinct(b.list) && cap > 0
    ensures Distinct(Push(b, item, cap).list) <==> PushesClean(b, item.key, cap)
  {
    var list' := Push(b, item, cap).list;
    var p := Locate(b.list, item.key);
    if p < |b.list| && !(b.size >= cap && p == |b.list| - 1) {
      assert list'[p + 1].key == list'[0].key;
    } else {
      forall i, j | 0 <= i < j < |list'| ensures list'[i].key != list'[j].key {
        assert list'[j] == b.list[j - 1];
        if i > 0 {
          assert list'[i] == b.list[i - 1];
        } else if p < |b.list| {
          LocateUnique(b.list, j - 1);
        } else {
          HasKey(b.list, j - 1);
        }
      }
    }
  }

  // ----- exactly which steps keep the cache tidy

  /** The condition on a step: only an event's insertion can break it. */
  ghost predicate Clean(s: State, g: Geometry, step: Step)
    requires Enabled(s, g, step)
  {
    step.Insert? && !s.callers[step.op].onlyIfAbsent ==>
      var tid := s.callers[step.op].tid;
      PushesClean(s.bkts[g.Index(tid)], tid, g.cap)
  }

  lemma PutTidy(s: State, g: Geometry, tid: nat, x: Entry)
    requires Tidy(s, g) && Cached(s, g, tid)
    ensures BucketTidy(Assign(s.bkts[g.Index(tid)], tid, x), g, g.Index(tid))
  {
    var i := g.Index(tid);
    assert BucketTidy(s.bkts[i], g, i);
    var list, list' := s.bkts[i].list, Assign(s.bkts[i], tid, x).list;
    assert forall j :: 0 <= j < |list| ==> list'[j].key == list[j].key;
  }

  lemma PushTidyExactly(s: State, g: Geometry, tid: nat, x: Entry)
    requires Tidy(s, g)
    ensures
      var i := g.Index(tid);
      BucketTidy(Push(s.bkts[i], Item(tid, x), g.cap), g, i) <==> PushesClean(s.bkts[i], tid, g.cap)
  {
    var i := g.Index(tid);
    assert BucketTidy(s.bkts[i], g, i);
    PushDistinctExactly(s.bkts[i], Item(tid, x), g.cap);
  }

  lemma RemoveTidy(s: State, g: Geometry, tid: nat)
    requires Tidy(s, g) && Cached(s, g, tid)
    ensures BucketTidy(Delete(s.bkts[g.Index(tid)], tid), g, g.Index(tid))
  {
    var i := g.Index(tid);
    assert BucketTidy(s.bkts[i], g, i);
    var list, p := s.bkts[i].list, Locate(s.bkts[i].list, tid);
    var list' := Delete(s.bkts[i], tid).list;
    assert forall j :: 0 <= j < |list'| ==> list'[j] == list[if j < p then j else j + 1];
  }

  lemma InsertTidyExactly(s: State, g: Geometry, op: nat)
    requires Tidy(s, g) && Enabled(s, g, Insert(op))
    ensures Tidy(Apply(s, g, Insert(op)), g) <==> Clean(s, g, Insert(op))
  {
    var c := s.callers[op];
    var i := g.Index(c.tid);
    PushTidyExactly(s, g, c.tid, c.entry);
    if !(c.onlyIfAbsent && Cached(s, g, c.tid)) {
      var t := Apply(s, g, Insert(op));
      assert t.bkts[i] == Push(s.bkts[i], Item(c.tid, c.entry), g.cap);
      if Clean(s, g, Insert(op)) {
        assert BucketTidy(t.bkts[i], g, i);
      } else {
        assert !BucketTidy(t.bkts[i], g, i);
      }
    }
  }

  /** From every tidy state, every step leads to a tidy state if and only if it is
      clean. */
  lemma StepTidyExactly(s: State, g: Geometry, step: Step)
    requires Tidy(s, g) && Enabled(s, g, step)
    ensures Tidy(Apply(s, g, step), g) <==> Clean(s, g, step)
  {
    match step
    case SetLabel(tid, flags, memory) =>
      var l := IoctlLabel(flags).value;
      if Cached(s, g, tid) {
        PutTidy(s, g, tid, EntryOf(s, g, tid).(taskLabel := l, caches := NO_CACHES));
      } else {
        PushTidyExactly(s, g, tid, LabelledEntry(l));
      }
    case Respond(r) =>
      if Cached(s, g, r.tid) {
        PutTidy(s, g, r.tid, Answered(EntryOf(s, g, r.tid), PlanOf(r), r.eventType));
      }
    case Event(_, tid, _, _, e) =>
      if Cached(s, g, tid) {
        PutTidy(s, g, tid, UpdateEntry(e, EntryOf(s, g, tid)).1);
      }
    case EventReadsParent(_) =>
    case ForkReadsParent(_, _, _, _) =>
    case Insert(op) => InsertTidyExactly(s, g, op);
    case GiveUp(_) =>
    case ClearOptions(tid) =>
      if Cached(s, g, tid) {
        PutTidy(s, g, tid, EntryOf(s, g, tid).(caches := NO_CACHES));
      }
    case Remove(tid) =>
      if Cached(s, g, tid) {
        RemoveTidy(s, g, tid);
      }
    case ClearBucket(i) =>
  }

  ghost predicate TidyThroughout(s: State, g: Geometry, steps: seq<Step>)
    requires Runs(s, g, steps)
    decreases |steps|
  {
    Tidy(s, g) && (steps != [] ==> TidyThroughout(Apply(s, g, steps[0]), g, steps[1..]))
  }

  ghost predicate CleanThroughout(s: State, g: Geometry, steps: seq<Step>)
    requires Runs(s, g, steps)
    decreases |steps|
  {
    steps != [] ==> Clean(s, g, steps[0]) && CleanThroughout(Apply(s, g, steps[0]), g, steps[1..])
  }

  lemma {:induction false} RunTidyExactly(s: State, g: Geometry, steps: seq<Step>)
    requires Tidy(s, g) && Runs(s, g, steps)
    ensures TidyThroughout(s, g, steps) <==> CleanThroughout(s, g, steps)
    decreases |steps|
  {
    if steps != [] {
      StepTidyExactly(s, g, steps[0]);
      if Clean(s, g, steps[0]) {
        RunTidyExactly(Apply(s, g, steps[0]), g, steps[1..]);
      }
    }
  }

  /** In every run: tasks have one entry each and buckets keep their limit, at all
      times, if and only if every insertion of an event's task finds it absent or
      evicts it. */
  lemma TidyExactly(g: Geometry, steps: seq<Step>)
    requires g.Valid() && Runs(Initial(g.buckets), g, steps)
    ensures TidyThroughout(Initial(g.buckets), g, steps) <==> CleanThroughout(Initial(g.buckets), g, steps)
  {
    RunTidyExactly(Initial(g.buckets), g, steps);
  }

  // ----- runs without a race

  /** An event that has missed its task and not inserted it yet. */
  ghost predicate Pending(s: State, op: nat) {
    op in s.callers && (s.callers[op].Missed? || !s.callers[op].onlyIfAbsent)
  }

  /** A step that may put an entry of this task into the cache. */
  ghost predicate Enters(s: State, step: Step, tid: nat) {
    match step
    case SetLabel(t, _, _) => t == tid
    case Insert(op) => op in s.callers && s.callers[op].tid == tid
    case _ => false
  }

  /** Between an event's lookup and its insertion nothing else enters its task. */
  ghost predicate Unraced(s: State, step: Step) {
    forall op :: Pending(s, op) && Enters(s, step, s.callers[op].tid) ==> step == Insert(op)
  }

  ghost predicate UnracedRun(s: State, g: Geometry, steps: seq<Step>)
    requires Runs(s, g, steps)
    decreases |steps|
  {
    steps != [] ==> Unraced(s, steps[0]) && UnracedRun(Apply(s, g, steps[0]), g, steps[1..])
  }

  /** What an event has missed is still absent. */
  ghost predicate StillAbsent(s: State, g: Geometry)
    requires g.buckets > 0 && |s.bkts| == g.buckets
  {
    forall op :: Pending(s, op) ==> !Cached(s, g, s.callers[op].tid)
  }

  lemma HasAfterAssign<V>(b: Bucket<V>, key: nat, val: V, k: nat)
    requires Has(b.list, key)
    ensures Has(Assign(b, key, val).list, k) ==> Has(b.list, k)
  {
    var list', p := Assign(b, key, val).list, Locate(Assign(b, key, val).list, k);
    if p < |list'| {
      assert b.list[p].key == k;
      HasKey(b.list, p);
    }
  }

  lemma HasOnlyAfterPush<V>(b: Bucket<V>, item: Item<V>, cap: nat, k: nat)
    ensures Has(Push(b, item, cap).list, k) ==> k == item.key || Has(b.list, k)
  {
    var list' := Push(b, item, cap).list;
    var p := Locate(list', k);
    if 0 < p < |list'| {
      assert list'[p] == b.list[p - 1];
      HasKey(b.list, p - 1);
    }
  }

  lemma HasAfterDelete<V>(b: Bucket<V>, key: nat, k: nat)
    requires Has(b.list, key)
    ensures Has(Delete(b, key).list, k) ==> Has(b.list, k)
  {
    var list', i := Delete(b, key).list, Locate(b.list, key);
    var p := Locate(list', k);
    if p < |list'| {
      var q := if p < i then p else p + 1;
      assert list'[p] == b.list[q];
      HasKey(b.list, q);
    }
  }

  /** A task that is cached after a step was so before, or the step enters it. */
  lemma CachedComesFrom(s: State, g: Geometry, step: Step, tid: nat)
    requires Enabled(s, g, step) && |Apply(s, g, step).bkts| == g.buckets
    requires Cached(Apply(s, g, step), g, tid)
    ensures Cached(s, g, tid) || Enters(s, step, tid)
  {
    var i := g.Index(tid);
    match step
    case SetLabel(t, flags, _) =>
      var l := IoctlLabel(flags).value;
      if Cached(s, g, t) {
        HasAfterAssign(s.bkts[g.Index(t)], t, EntryOf(s, g, t).(taskLabel := l, caches := NO_CACHES), tid);
      } else {
        HasOnlyAfterPush(s.bkts[g.Index(t)], Item(t, LabelledEntry(l)), g.cap, tid);
      }
    case Respond(r) =>
      if Cached(s, g, r.tid) {
        HasAfterAssign(s.bkts[g.Index(r.tid)], r.tid, Answered(EntryOf(s, g, r.tid), PlanOf(r), r.eventType), tid);
      }
    case Event(_, t, _, _, e) =>
      if Cached(s, g, t) {
        HasAfterAssign(s.bkts[g.Index(t)], t, UpdateEntry(e, EntryOf(s, g, t)).1, tid);
      }
    case EventReadsParent(_) =>
    case ForkReadsParent(_, _, _, _) =>
    case Insert(op) =>
      var c := s.callers[op];
      HasOnlyAfterPush(s.bkts[g.Index(c.tid)], Item(c.tid, c.entry), g.cap, tid);
    case GiveUp(_) =>
    case ClearOptions(t) =>
      if Cached(s, g, t) {
        HasAfterAssign(s.bkts[g.Index(t)], t, EntryOf(s, g, t).(caches := NO_CACHES), tid);
      }
    case Remove(t) =>
      if Cached(s, g, t) {
        HasAfterDelete(s.bkts[g.Index(t)], t, tid);
      }
    case ClearBucket(j) =>
  }

  /** A caller that is pending after a step was so before, with the same task, or
      has just missed it. */
  lemma PendingComesFrom(s: State, g: Geometry, step: Step, op: nat)
    requires Enabled(s, g, step) && Pending(Apply(s, g, step), op)
    ensures step != Insert(op)
    ensures
      var tid := Apply(s, g, step).callers[op].tid;
      || (Pending(s, op) && s.callers[op].tid == tid)
      || (step.Event? && !Cached(s, g, tid) && Apply(s, g, step).bkts == s.bkts)
  {
  }

  lemma StepKeepsAbsent(s: State, g: Geometry, step: Step)
    requires Enabled(s, g, step) && StillAbsent(s, g) && Unraced(s, step)
    requires |Apply(s, g, step).bkts| == g.buckets
    ensures StillAbsent(Apply(s, g, step), g) && Clean(s, g, step)
  {
    var t := Apply(s, g, step);
    forall op | Pending(t, op) ensures !Cached(t, g, t.callers[op].tid) {
      PendingComesFrom(s, g, step, op);
      if Cached(t, g, t.callers[op].tid) {
        CachedComesFrom(s, g, step, t.callers[op].tid);
      }
    }
    if step.Insert? && !s.callers[step.op].onlyIfAbsent {
      assert Pending(s, step.op);
    }
  }

  lemma {:induction false} UnracedIsClean(s: State, g: Geometry, steps: seq<Step>)
    requires Tidy(s, g) && StillAbsent(s, g) && Runs(s, g, steps) && UnracedRun(s, g, steps)
    ensures CleanThroughout(s, g, steps)
    decreases |steps|
  {
    if steps != [] {
      StepKeepsAbsent(s, g, steps[0]);
      StepTidyExactly(s, g, steps[0]);
      UnracedIsClean(Apply(s, g, steps[0]), g, steps[1..]);
    }
  }

  /** As long as nothing else enters a task between an event's lookup and its
      insertion, every task has one entry and no bucket exceeds its limit. */
  lemma OneEntryPerTask(g: Geometry, steps: seq<Step>)
    requires g.Valid() && Runs(Initial(g.buckets), g, steps) && UnracedRun(Initial(g.buckets), g, steps)
    ensures TidyThroughout(Initial(g.buckets), g, steps)
  {
    UnracedIsClean(Initial(g.buckets), g, steps);
    TidyExactly(g, steps);
  }

  // ----- a run with a race

  lemma {:induction false} RunsSnoc(s: State, g: Geometry, steps: seq<Step>, step: Step)
    requires Runs(s, g, steps) && Enabled(After(s, g, steps), g, step)
    ensures Runs(s, g, steps + [step]) && After(s, g, steps + [step]) == Apply(After(s, g, steps), g, step)
    decreases |steps|
  {
    if steps == [] {
      assert [step][1..] == [];
    } else {
      RunsSnoc(Apply(s, g, steps[0]), g, steps[1..], step);
      assert (steps + [step])[1..] == steps[1..] + [step];
    }
  }

  /** The bucket of a task that was entered a second time, with the first entry as the
      client labelled it. */
  ghost predicate EnteredTwice(s: State, g: Geometry, tid: nat) {
    && Shaped(s, g)
    && var list := s.bkts[g.Index(tid)].list;
    && |list| == 2 && list[0].key == list[1].key == tid && list[1].val == LabelledEntry(CACHE_ENABLE)
  }

  lemma EnableIsALabel()
    ensures IoctlLabel(CACHE_ENABLE) == Some(CACHE_ENABLE) && CACHE_ENABLE & CACHE_ENABLE != 0
  {
  }

  /** An event that found no entry puts its own in front of the one the client made. */
  lemma SecondEntry(s: State, g: Geometry, op: nat)
    requires Enabled(s, g, Insert(op)) && !s.callers[op].onlyIfAbsent && WellFormed(s.callers[op].entry) && g.cap >= 2
    requires
      var b, tid := s.bkts[g.Index(s.callers[op].tid)], s.callers[op].tid;
      b.size == 1 && b.list == [Item(tid, LabelledEntry(CACHE_ENABLE))]
    ensures EnteredTwice(Apply(s, g, Insert(op)), g, s.callers[op].tid)
    ensures !Tidy(Apply(s, g, Insert(op)), g)
  {
    var t, c := Apply(s, g, Insert(op)), s.callers[op];
    var i := g.Index(c.tid);
    assert t.bkts[i].list == [Item(c.tid, c.entry)] + s.bkts[i].list;
    assert t.bkts[i].list[0].key == t.bkts[i].list[1].key;
    assert !BucketTidy(t.bkts[i], g, i);
  }

  /** An event misses its task, the client labels it, the event goes on and inserts
      it: in every cache with room for two in a bucket it is there twice. */
  lemma RaceDuplicates(g: Geometry, tid: nat, parent: nat, isThread: bool, e: Track) returns (steps: seq<Step>)
    requires g.Valid() && g.cap >= 2 && tid != 0 && e.eventType < TASK_DUMP
    ensures Runs(Initial(g.buckets), g, steps) && |steps| == 4
    ensures EnteredTwice(After(Initial(g.buckets), g, steps), g, tid)
    ensures !Tidy(After(Initial(g.buckets), g, steps), g)
  {
    var start, i := Initial(g.buckets), g.Index(tid);
    var a, b := Event(0, tid, parent, isThread, e), SetLabel(tid, CACHE_ENABLE, true);
    var c, d := EventReadsParent(0), Insert(0);
    EnableIsALabel();
    RunsSnoc(start, g, [], a);
    var s1 := Apply(start, g, a);
    RunsSnoc(start, g, [] + [a], b);
    var s2 := Apply(s1, g, b);
    assert s2.bkts[i].list == [Item(tid, LabelledEntry(CACHE_ENABLE))];
    RunsSnoc(start, g, [] + [a] + [b], c);
    var s3 := Apply(s2, g, c);
    RunsSnoc(start, g, [] + [a] + [b] + [c], d);
    steps := [] + [a] + [b] + [c] + [d];
    SecondEntry(s3, g, 0);
  }

  // ----- the reference store under concurrent callers

  /** What a step does to the store: a key changes in place, is inserted at the cost
      of the oldest in a full bucket, or is erased. */
  ghost predicate Follows(s: State, g: Geometry, step: Step, a: Store<Entry>, b: Store<Entry>)
    requires Enabled(s, g, step) && AllWellFormed(a)
  {
    match step
    case SetLabel(tid, flags, memory) =>
      var l := IoctlLabel(flags).value;
      if tid in a.recs then b == Rewrite(a, tid, a.recs[tid].val.(taskLabel := l, caches := NO_CACHES))
      else if memory then Inserted(a, b, g, tid, LabelledEntry(l))
      else b == a
    case Respond(r) =>
      if r.tid in a.recs then b == Rewrite(a, r.tid, Answered(a.recs[r.tid].val, PlanOf(r), r.eventType)) else b == a
    case Event(_, tid, _, _, e) =>
      if tid in a.recs then b == Rewrite(a, tid, UpdateEntry(e, a.recs[tid].val).1) else b == a
    case EventReadsParent(_) => b == a
    case ForkReadsParent(_, _, _, _) => b == a
    case Insert(op) =>
      var c := s.callers[op];
      if c.onlyIfAbsent && c.tid in a.recs then b == a else Inserted(a, b, g, c.tid, c.entry)
    case GiveUp(_) => b == a
    case ClearOptions(tid) =>
      if tid in a.recs then b == Rewrite(a, tid, a.recs[tid].val.(caches := NO_CACHES)) else b == a
    case Remove(tid) => b.clock == a.clock && b.recs == a.recs - {tid}
    case ClearBucket(i) => b == EraseBucket(a, g, i)
  }

  lemma StoreWellFormed(s: State, g: Geometry, a: Store<Entry>)
    requires Shaped(s, g) && Represents(s.bkts, g, a)
    ensures AllWellFormed(a)
  {
    forall k | k in a.recs ensures WellFormed(a.recs[k].val) {
      LookupAgrees(s.bkts, g, a, k);
    }
  }

  lemma PutRefines(s: State, g: Geometry, a: Store<Entry>, tid: nat, x: Entry)
    requires Represents(s.bkts, g, a) && Cached(s, g, tid)
    ensures tid in a.recs && EntryOf(s, g, tid) == a.recs[tid].val
    ensures Represents(PutEntry(s, g, tid, x).bkts, g, Rewrite(a, tid, x))
  {
    LookupAgrees(s.bkts, g, a, tid);
    AssignRewrites(s.bkts, g, a, tid, x);
  }

  lemma PushRefines(s: State, g: Geometry, a: Store<Entry>, tid: nat, x: Entry) returns (b: Store<Entry>)
    requires Represents(s.bkts, g, a) && !Cached(s, g, tid)
    ensures tid !in a.recs && Inserted(a, b, g, tid, x)
    ensures Represents(PushEntry(s, g, tid, x).bkts, g, b)
  {
    LookupAgrees(s.bkts, g, a, tid);
    PushInserts(s.bkts, g, a, tid, x);
    b := StoreAfterPush(s.bkts, g, a, tid, x);
  }

  lemma StepRefines(s: State, g: Geometry, step: Step, a: Store<Entry>) returns (b: Store<Entry>)
    requires Enabled(s, g, step) && StillAbsent(s, g) && Represents(s.bkts, g, a) && AllWellFormed(a)
    ensures Represents(Apply(s, g, step).bkts, g, b) && Follows(s, g, step, a, b)
  {
    b := a;
    match step
    case SetLabel(tid, flags, memory) =>
      var l := IoctlLabel(flags).value;
      LookupAgrees(s.bkts, g, a, tid);
      if Cached(s, g, tid) {
        var x := EntryOf(s, g, tid).(taskLabel := l, caches := NO_CACHES);
        PutRefines(s, g, a, tid, x);
        b := Rewrite(a, tid, x);
      } else if memory {
        b := PushRefines(s, g, a, tid, LabelledEntry(l));
      }
    case Respond(r) =>
      LookupAgrees(s.bkts, g, a, r.tid);
      if Cached(s, g, r.tid) {
        var x := Answered(EntryOf(s, g, r.tid), PlanOf(r), r.eventType);
        PutRefines(s, g, a, r.tid, x);
        b := Rewrite(a, r.tid, x);
      }
    case Event(_, tid, _, _, e) =>
      LookupAgrees(s.bkts, g, a, tid);
      if Cached(s, g, tid) {
        var x := UpdateEntry(e, EntryOf(s, g, tid)).1;
        PutRefines(s, g, a, tid, x);
        b := Rewrite(a, tid, x);
      }
    case EventReadsParent(_) =>
    case ForkReadsParent(_, _, _, _) =>
    case Insert(op) => b := InsertRefines(s, g, op, a);
    case GiveUp(_) =>
    case ClearOptions(tid) =>
      LookupAgrees(s.bkts, g, a, tid);
      if Cached(s, g, tid) {
        var x := EntryOf(s, g, tid).(caches := NO_CACHES);
        PutRefines(s, g, a, tid, x);
        b := Rewrite(a, tid, x);
      }
    case Remove(tid) =>
      LookupAgrees(s.bkts, g, a, tid);
      if Cached(s, g, tid) {
        DeleteErases(s.bkts, g, a, tid);
        b := Erase(a, tid);
      } else {
        assert a.recs - {tid} == a.recs;
      }
    case ClearBucket(i) =>
      ClearErasesBucket(s.bkts, g, a, i);
      b := EraseBucket(a, g, i);
  }

  lemma InsertRefines(s: State, g: Geometry, op: nat, a: Store<Entry>) returns (b: Store<Entry>)
    requires Enabled(s, g, Insert(op)) && StillAbsent(s, g) && Represents(s.bkts, g, a) && AllWellFormed(a)
    ensures Represents(Apply(s, g, Insert(op)).bkts, g, b) && Follows(s, g, Insert(op), a, b)
  {
    var c := s.callers[op];
    LookupAgrees(s.bkts, g, a, c.tid);
    if c.onlyIfAbsent && Cached(s, g, c.tid) {
      b := a;
    } else {
      assert c.onlyIfAbsent || Pending(s, op);
      b := PushRefines(s, g, a, c.tid, c.entry);
    }
  }

  /** stores[i] is what the buckets stand for before step i. */
  ghost predicate Refines(s: State, g: Geometry, steps: seq<Step>, stores: seq<Store<Entry>>)
    requires Runs(s, g, steps)
    decreases |steps|
  {
    && |stores| == |steps| + 1
    && Represents(s.bkts, g, stores[0]) && AllWellFormed(stores[0])
    && (steps != [] ==>
          && Follows(s, g, steps[0], stores[0], stores[1])
          && Refines(Apply(s, g, steps[0]), g, steps[1..], stores[1..]))
  }

  lemma {:induction false} RunRefines(s: State, g: Geometry, steps: seq<Step>, a: Store<Entry>)
    returns (stores: seq<Store<Entry>>)
    requires Inv(s, g) && Shaped(s, g) && Represents(s.bkts, g, a) && StillAbsent(s, g)
    requires Runs(s, g, steps) && UnracedRun(s, g, steps)
    ensures Refines(s, g, steps, stores) && stores[0] == a
    decreases |steps|
  {
    StoreWellFormed(s, g, a);
    if steps == [] {
      return [a];
    }
    var t := Apply(s, g, steps[0]);
    var b := StepRefines(s, g, steps[0], a);
    StepKeepsInv(s, g, steps[0]);
    InvShaped(t, g);
    StepKeepsAbsent(s, g, steps[0]);
    var rest := RunRefines(t, g, steps[1..], b);
    stores := [a] + rest;
    assert stores[1..] == rest;
  }

  /** Every run without such a race, whatever its interleaving, is a run of the
      reference store: lookups find what was last put under a key, and a full
      bucket gives up the task that was entered first. */
  lemma UnracedRunsRefine(g: Geometry, steps: seq<Step>) returns (stores: seq<Store<Entry>>)
    requires g.Valid() && Runs(Initial(g.buckets), g, steps) && UnracedRun(Initial(g.buckets), g, steps)
    ensures Refines(Initial(g.buckets), g, steps, stores) && stores[0] == Store(map[], 0)
  {
    EmptyRepresents<Entry>(g);
    stores := RunRefines(Initial(g.buckets), g, steps, Store(map[], 0));
  }
}
