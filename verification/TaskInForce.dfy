/**
 Which label of a task is in force: in a run without a race, the one that was set
 last, and not revoked since.
 */
module TaskInForce {
  import opened Common
  import opened Dynsec
  import opened HashBuckets
  import opened TaskLabels
  import opened TaskRuns
  import opened TaskUnique
  import opened TaskWords

  /** A step that gives the task this label: from the client, or with its entry. */
  ghost predicate Sets(s: State, step: Step, tid: nat, taskLabel: bv32) {
    match step
    case SetLabel(t, flags, _) => t == tid && IoctlLabel(flags) == Some(taskLabel)
    case Respond(r) => r.tid == tid && Relabels(r) && PlanOf(r).taskLabel == taskLabel
    case Insert(op) =>
      && op in s.callers && s.callers[op].Ready?
      && s.callers[op].tid == tid && s.callers[op].entry.taskLabel == taskLabel
    case _ => false
  }

  /** A response that touches the label. */
  predicate Relabels(r: Response) {
    PlanOf(r).Change? && (PlanOf(r).clearTask || PlanOf(r).taskLabel != 0)
  }

  /** A step that ends whatever label the task has. */
  predicate Revokes(g: Geometry, step: Step, tid: nat)
    requires g.buckets > 0
  {
    match step
    case SetLabel(t, _, _) => t == tid
    case Respond(r) => r.tid == tid && Relabels(r)
    case Remove(t) => t == tid
    case ClearBucket(i) => i == g.Index(tid)
    case _ => false
  }

  ghost predicate HasLabel(a: Store<Entry>, tid: nat, taskLabel: bv32) {
    tid in a.recs && a.recs[tid].val.taskLabel == taskLabel
  }

  lemma RespondLabels(x: Entry, r: Response)
    requires WellFormed(x) && PlanOf(r).Change?
    ensures Answered(x, PlanOf(r), r.eventType).taskLabel ==
      if Relabels(r) then PlanOf(r).taskLabel else x.taskLabel
  {
  }

  lemma EventKeepsLabel(x: Entry, e: Track)
    requires WellFormed(x) && e.eventType < TASK_DUMP
    ensures UpdateEntry(e, x).1.taskLabel == x.taskLabel
  {
  }

  lemma InsertKeepsLabels(a: Store<Entry>, b: Store<Entry>, g: Geometry, key: nat, x: Entry, tid: nat, taskLabel: bv32)
    requires g.buckets > 0 && Inserted(a, b, g, key, x) && HasLabel(b, tid, taskLabel)
    ensures if tid == key then taskLabel == x.taskLabel else HasLabel(a, tid, taskLabel)
  {
  }

  /** A task with a label after a step has just been given it, or had it and the step
      does not revoke it. */
  lemma LabelComesFrom(s: State, g: Geometry, step: Step, a: Store<Entry>, b: Store<Entry>, tid: nat, taskLabel: bv32)
    requires Enabled(s, g, step) && AllWellFormed(a) && Follows(s, g, step, a, b) && HasLabel(b, tid, taskLabel)
    ensures Sets(s, step, tid, taskLabel) || (HasLabel(a, tid, taskLabel) && !Revokes(g, step, tid))
  {
    match step
    case SetLabel(t, flags, memory) =>
      if t !in a.recs && memory {
        InsertKeepsLabels(a, b, g, t, LabelledEntry(IoctlLabel(flags).value), tid, taskLabel);
      }
    case Respond(r) =>
      if r.tid in a.recs {
        RespondLabels(a.recs[r.tid].val, r);
      }
    case Event(_, t, _, _, e) =>
      if t in a.recs {
        EventKeepsLabel(a.recs[t].val, e);
      }
    case Insert(op) =>
      var c := s.callers[op];
      if !(c.onlyIfAbsent && c.tid in a.recs) {
        InsertKeepsLabels(a, b, g, c.tid, c.entry, tid, taskLabel);
      }
    case _ =>
  }

  /** From here to the end of the run the task is cached with this label and nothing
      revokes it. */
  ghost predicate Kept(s: State, g: Geometry, steps: seq<Step>, stores: seq<Store<Entry>>, tid: nat, taskLabel: bv32)
    requires Runs(s, g, steps) && Refines(s, g, steps, stores)
    decreases |steps|
  {
    && HasLabel(stores[0], tid, taskLabel)
    && (steps != [] ==>
          && !Revokes(g, steps[0], tid)
          && Kept(Apply(s, g, steps[0]), g, steps[1..], stores[1..], tid, taskLabel))
  }

  /** Some step of the run sets the label, and it is kept from then on. */
  ghost predicate SetAndKept(
      s: State, g: Geometry, steps: seq<Step>, stores: seq<Store<Entry>>, tid: nat, taskLabel: bv32)
    requires Runs(s, g, steps) && Refines(s, g, steps, stores)
    decreases |steps|
  {
    steps != [] &&
    var t := Apply(s, g, steps[0]);
    || (Sets(s, steps[0], tid, taskLabel) && Kept(t, g, steps[1..], stores[1..], tid, taskLabel))
    || SetAndKept(t, g, steps[1..], stores[1..], tid, taskLabel)
  }

  lemma {:induction false} KeptOrSet(
      s: State, g: Geometry, steps: seq<Step>, stores: seq<Store<Entry>>, tid: nat, taskLabel: bv32)
    requires Runs(s, g, steps) && Refines(s, g, steps, stores) && HasLabel(stores[|steps|], tid, taskLabel)
    ensures Kept(s, g, steps, stores, tid, taskLabel) || SetAndKept(s, g, steps, stores, tid, taskLabel)
    decreases |steps|
  {
    if steps != [] {
      var t := Apply(s, g, steps[0]);
      KeptOrSet(t, g, steps[1..], stores[1..], tid, taskLabel);
      if Kept(t, g, steps[1..], stores[1..], tid, taskLabel) {
        LabelComesFrom(s, g, steps[0], stores[0], stores[1], tid, taskLabel);
      }
    }
  }

  lemma {:induction false} LastRepresents(s: State, g: Geometry, steps: seq<Step>, stores: seq<Store<Entry>>)
    requires Runs(s, g, steps) && Refines(s, g, steps, stores)
    ensures Represents(After(s, g, steps).bkts, g, stores[|steps|])
    decreases |steps|
  {
    if steps != [] {
      LastRepresents(Apply(s, g, steps[0]), g, steps[1..], stores[1..]);
    }
  }

  /** In every run in which nothing else enters a task between an event's lookup and
      its insertion: the label a cached task has was set by some step, by the client
      or as it was inherited, and since then the task has been cached with it and no
      other label, removal or clearing has come. */
  lemma LabelInForceWasSetLast(g: Geometry, steps: seq<Step>, tid: nat) returns (stores: seq<Store<Entry>>)
    requires g.Valid() && Runs(Initial(g.buckets), g, steps) && UnracedRun(Initial(g.buckets), g, steps)
    requires
      var s := After(Initial(g.buckets), g, steps);
      |s.bkts| == g.buckets && Cached(s, g, tid)
    ensures Refines(Initial(g.buckets), g, steps, stores) && stores[0] == Store(map[], 0)
    ensures
      var taskLabel := EntryOf(After(Initial(g.buckets), g, steps), g, tid).taskLabel;
      SetAndKept(Initial(g.buckets), g, steps, stores, tid, taskLabel)
  {
    var start := Initial(g.buckets);
    var s := After(start, g, steps);
    stores := UnracedRunsRefine(g, steps);
    LastRepresents(start, g, steps, stores);
    LookupAgrees(s.bkts, g, stores[|steps|], tid);
    KeptOrSet(start, g, steps, stores, tid, EntryOf(s, g, tid).taskLabel);
  }

  /** What a caller has in hand after reading the parent's label, in any state: a fork
      that has a parent with an inheritable label is about to enter its task with that
      label, taken over; any other has nothing to enter. */
  lemma ForkReadsExactly(s: State, g: Geometry, op: nat, tid: nat, parent: nat, isThread: bool)
    requires Enabled(s, g, ForkReadsParent(op, tid, parent, isThread))
    ensures
      var t := Apply(s, g, ForkReadsParent(op, tid, parent, isThread));
      if parent != 0 && Cached(s, g, parent) && Carries(EntryOf(s, g, parent).taskLabel, CACHE_INHERIT)
      then
        && op in t.callers && t.callers[op].Ready? && t.callers[op].tid == tid && t.callers[op].onlyIfAbsent
        && TakesOver(t.callers[op].entry.taskLabel, EntryOf(s, g, parent).taskLabel, isThread)
        && t.callers[op].entry == LabelledEntry(t.callers[op].entry.taskLabel)
      else t == s
  {
    InheritsExactly(ParentLabel(s, g, parent), isThread);
  }

  /** And an event that found its task missing, likewise: it enters the task with what
      its parent hands down, or with no label. */
  lemma EventReadsExactly(s: State, g: Geometry, op: nat)
    requires Enabled(s, g, EventReadsParent(op))
    ensures
      var t, c := Apply(s, g, EventReadsParent(op)), s.callers[op];
      && op in t.callers && t.callers[op].Ready? && t.callers[op].tid == c.tid && !t.callers[op].onlyIfAbsent
      && var taskLabel := t.callers[op].entry.taskLabel;
      if c.parent != 0 && Cached(s, g, c.parent)
      then TakesOver(taskLabel, EntryOf(s, g, c.parent).taskLabel, c.isThread)
      else taskLabel == 0
  {
    var c := s.callers[op];
    FirstEventExactly(HasParent(s, g, c.parent), ParentLabel(s, g, c.parent), c.isThread, c.event);
  }

  lemma DisableClears()
    ensures IoctlLabel(CACHE_DISABLE) == Some(0)
  {
  }

  /** Taking the label back and removing the task both reach the second entry only. */
  lemma FirstEntrySurvives(s: State, g: Geometry, tid: nat)
    requires EnteredTwice(s, g, tid)
    ensures Enabled(s, g, SetLabel(tid, CACHE_DISABLE, true))
    ensures
      var t := Apply(s, g, SetLabel(tid, CACHE_DISABLE, true));
      && Enabled(t, g, Remove(tid))
      && var u := Apply(t, g, Remove(tid));
      |u.bkts| == g.buckets && Cached(u, g, tid) && EntryOf(u, g, tid) == LabelledEntry(CACHE_ENABLE)
  {
    var i := g.Index(tid);
    DisableClears();
    assert Locate(s.bkts[i].list, tid) == 0;
    var t := Apply(s, g, SetLabel(tid, CACHE_DISABLE, true));
    assert t.bkts[i].list == s.bkts[i].list[0 := t.bkts[i].list[0]] && t.bkts[i].list[0].key == tid;
    assert Locate(t.bkts[i].list, tid) == 0;
    var u := Apply(t, g, Remove(tid));
    assert u.bkts[i].list == [s.bkts[i].list[1]];
    assert Locate(u.bkts[i].list, tid) == 0;
  }

  /** With a race a revoked label stays: an event misses, the client labels the task,
      the event inserts a second entry; the client takes the label back and the task
      exits. An event of the next task with this id is let through. */
  lemma RevokedLabelSurvives(g: Geometry, tid: nat, parent: nat, isThread: bool, e: Track)
    returns (steps: seq<Step>)
    requires g.Valid() && g.cap >= 2 && tid != 0 && e.eventType < TASK_DUMP
    ensures |steps| == 6 && steps[4] == SetLabel(tid, CACHE_DISABLE, true) && steps[5] == Remove(tid)
    ensures Runs(Initial(g.buckets), g, steps)
    ensures
      var s := After(Initial(g.buckets), g, steps);
      |s.bkts| == g.buckets && Cached(s, g, tid) && EntryOf(s, g, tid).taskLabel & CACHE_ENABLE != 0
  {
    var start := Initial(g.buckets);
    var race := RaceDuplicates(g, tid, parent, isThread, e);
    var s := After(start, g, race);
    FirstEntrySurvives(s, g, tid);
    RunsSnoc(start, g, race, SetLabel(tid, CACHE_DISABLE, true));
    RunsSnoc(start, g, race + [SetLabel(tid, CACHE_DISABLE, true)], Remove(tid));
    steps := race + [SetLabel(tid, CACHE_DISABLE, true)] + [Remove(tid)];
    EnableIsALabel();
  }
}
