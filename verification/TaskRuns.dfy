/**
 The task cache under concurrent callers. Every step is one locked section;
 looking an entry up, reading the parent's label and inserting the new entry
 are three sections, so anything may happen between them.
 */
module TaskRuns {
  import opened Common
  import opened Dynsec
  import opened HashBuckets
  import opened TaskLabels

  // ----- facts about single answers, labels and events

  /** A response never turns an event option on, whatever the entry holds. */
  lemma AnswerNeverRaisesOption(x: Entry, r: Response, i: nat)
    requires WellFormed(x) && i < TASK_DUMP && PlanOf(r).Change?
    ensures
      var y := Answered(x, PlanOf(r), r.eventType);
      y.caches[i] == x.caches[i] || y.caches[i] == 0
  {
  }

  lemma ClientLabelsEnable(flags: bv32, r: Response)
    ensures IoctlLabel(flags).Some? && IoctlLabel(flags).value != 0 ==> IoctlLabel(flags).value & CACHE_ENABLE != 0
    ensures PlanOf(r).Change? && PlanOf(r).taskLabel != 0 ==> PlanOf(r).taskLabel & CACHE_ENABLE != 0
  {
  }

  lemma InheritedLabelDiffers(parent: bv32, isThread: bool)
    ensures InheritedLabel(parent, isThread) != 0 ==>
      && InheritedLabel(parent, isThread) & !CACHE_INHERIT == parent & !CACHE_INHERIT
      && InheritedLabel(parent, isThread) & CACHE_ENABLE == parent & CACHE_ENABLE
      && parent != 0
  {
  }

  /** An event loses its stall exactly when it is reportable and the task label
      or the option of its type lets it through; it never gains one. */
  lemma StallDroppedExactly(e: Track, x: Entry)
    requires WellFormed(x) && e.eventType < TASK_DUMP
    ensures Stalls(UpdateEntry(e, x).0) <==>
      Stalls(e) && (e.trackFlags & TRACK_REPORTABLE == 0
                    || (x.taskLabel & CACHE_ENABLE == 0 && !OptionApplies(e, x)))
  {
    UnstallClears(e, true);
    UnstallClears(e, false);
  }

  // ----- where a label comes from

  datatype Cause =
    | ByIoctl(tid: nat, flags: bv32)
    | ByResponse(response: Response)
    | ByParent(tid: nat, parent: nat, isThread: bool, at: nat)

  predicate ClientSets(c: Cause, tid: nat, taskLabel: bv32) {
    match c
    case ByIoctl(t, flags) => t == tid && IoctlLabel(flags) == Some(taskLabel)
    case ByResponse(r) => r.tid == tid && PlanOf(r).Change? && PlanOf(r).taskLabel == taskLabel
    case ByParent(_, _, _, _) => false
  }

  /** Within the first n causes the task got this label: from the client, or
      from a parent that had one to hand down at the moment it was read. */
  ghost predicate Traces(log: seq<Cause>, n: nat, tid: nat, taskLabel: bv32)
    requires n <= |log|
    decreases n, 0
  {
    exists k :: 0 <= k < n && CausedBy(log, k, tid, taskLabel)
  }

  ghost predicate CausedBy(log: seq<Cause>, k: nat, tid: nat, taskLabel: bv32)
    requires k < |log|
    decreases k, 2
  {
    match log[k]
    case ByIoctl(_, _) => ClientSets(log[k], tid, taskLabel)
    case ByResponse(_) => ClientSets(log[k], tid, taskLabel)
    case ByParent(t, parent, isThread, at) =>
      t == tid && at <= k && HandedDown(log, at, parent, isThread, taskLabel)
  }

  ghost predicate HandedDown(log: seq<Cause>, at: nat, parent: nat, isThread: bool, taskLabel: bv32)
    requires at <= |log|
    decreases at, 1
  {
    exists pl: bv32 :: Traces(log, at, parent, pl) && taskLabel == InheritedLabel(pl, isThread)
  }

  /** Causes logged later do not change what is traced. */
  lemma {:induction false} TracesStays(log: seq<Cause>, more: seq<Cause>, n: nat, tid: nat, taskLabel: bv32)
    requires n <= |log| && log <= more && Traces(log, n, tid, taskLabel)
    ensures Traces(more, n, tid, taskLabel)
    decreases n
  {
    var k :| 0 <= k < n && CausedBy(log, k, tid, taskLabel);
    assert more[k] == log[k];
    if log[k].ByParent? {
      var c := log[k];
      assert HandedDown(log, c.at, c.parent, c.isThread, taskLabel);
      var pl: bv32 :| Traces(log, c.at, c.parent, pl) && taskLabel == InheritedLabel(pl, c.isThread);
      TracesStays(log, more, c.at, c.parent, pl);
      assert HandedDown(more, c.at, c.parent, c.isThread, taskLabel);
    }
    assert CausedBy(more, k, tid, taskLabel);
  }

  lemma TracesGrows(log: seq<Cause>, n: nat, m: nat, tid: nat, taskLabel: bv32)
    requires n <= m <= |log| && Traces(log, n, tid, taskLabel)
    ensures Traces(log, m, tid, taskLabel)
  {
    var k :| 0 <= k < n && CausedBy(log, k, tid, taskLabel);
  }

  /** Equal but for the inherit bit. */
  predicate SameLabel(a: bv32, b: bv32) {
    a & !CACHE_INHERIT == b & !CACHE_INHERIT
  }

  lemma HandedDownFrom(log: seq<Cause>, at: nat, parent: nat, isThread: bool, taskLabel: bv32) returns (pl: bv32)
    requires at <= |log| && HandedDown(log, at, parent, isThread, taskLabel) && taskLabel != 0
    ensures Traces(log, at, parent, pl) && pl != 0 && taskLabel == InheritedLabel(pl, isThread)
  {
    pl :| Traces(log, at, parent, pl) && taskLabel == InheritedLabel(pl, isThread);
    InheritedSame(pl, isThread, taskLabel);
  }

  lemma InheritedSame(parent: bv32, isThread: bool, taskLabel: bv32)
    requires taskLabel == InheritedLabel(parent, isThread) && taskLabel != 0
    ensures SameLabel(parent, taskLabel) && parent != 0
  {
  }

  lemma SameLabelTransitive(a: bv32, b: bv32, c: bv32)
    requires SameLabel(a, b) && SameLabel(b, c)
    ensures SameLabel(a, c)
  {
  }

  /** One inheritance: the cause that entered a task, and the label its parent had. */
  datatype Hop = Hop(cause: nat, parentLabel: bv32)

  /** Going up from a task, one parent per hop, each label inherited from the next
      and each hop earlier than the one before, leads to the owner of the root
      label and cause k. */
  predicate Descends(log: seq<Cause>, n: nat, tid: nat, taskLabel: bv32, path: seq<Hop>, k: nat, owner: nat, root: bv32)
    requires n <= |log|
    decreases |path|
  {
    if path == [] then k < n && owner == tid && root == taskLabel
    else
      var hop := path[0];
      && hop.cause < n && log[hop.cause].ByParent?
      && var c := log[hop.cause];
      && c.tid == tid && c.at <= hop.cause
      && taskLabel == InheritedLabel(hop.parentLabel, c.isThread)
      && Descends(log, c.at, c.parent, hop.parentLabel, path[1..], k, owner, root)
  }

  lemma OneHopFurther(log: seq<Cause>, n: nat, j: nat, pl: bv32, taskLabel: bv32,
                      rest: seq<Hop>, k: nat, owner: nat, root: bv32)
    returns (path: seq<Hop>)
    requires j < n <= |log| && log[j].ByParent? && log[j].at <= j
    requires taskLabel == InheritedLabel(pl, log[j].isThread)
    requires Descends(log, log[j].at, log[j].parent, pl, rest, k, owner, root)
    ensures Descends(log, n, log[j].tid, taskLabel, path, k, owner, root)
  {
    path := [Hop(j, pl)] + rest;
    assert path[1..] == rest;
  }

  /** On the way down at most the inherit bit is lost. */
  lemma {:induction false} DescendsSame(
      log: seq<Cause>, n: nat, tid: nat, taskLabel: bv32, path: seq<Hop>, k: nat, owner: nat, root: bv32)
    requires n <= |log| && taskLabel != 0 && Descends(log, n, tid, taskLabel, path, k, owner, root)
    ensures root != 0 && SameLabel(root, taskLabel) && k < n
    decreases |path|
  {
    if path != [] {
      var pl, c := path[0].parentLabel, log[path[0].cause];
      InheritedSame(pl, c.isThread, taskLabel);
      DescendsSame(log, c.at, c.parent, pl, path[1..], k, owner, root);
      SameLabelTransitive(root, pl, taskLabel);
    }
  }

  /** At the root of every traced label stands a client that set it. */
  lemma {:induction false} TracedToClient(log: seq<Cause>, n: nat, tid: nat, taskLabel: bv32)
    returns (path: seq<Hop>, k: nat, owner: nat, root: bv32)
    requires n <= |log| && Traces(log, n, tid, taskLabel) && taskLabel != 0
    ensures Descends(log, n, tid, taskLabel, path, k, owner, root)
    ensures k < n && ClientSets(log[k], owner, root)
    decreases n
  {
    var j :| 0 <= j < n && CausedBy(log, j, tid, taskLabel);
    if log[j].ByParent? {
      var c := log[j];
      var pl := HandedDownFrom(log, c.at, c.parent, c.isThread, taskLabel);
      var rest;
      rest, k, owner, root := TracedToClient(log, c.at, c.parent, pl);
      path := OneHopFurther(log, n, j, pl, taskLabel, rest, k, owner, root);
    } else {
      path, k, owner, root := [], j, tid, taskLabel;
    }
  }

  lemma ClientSetsEnable(c: Cause, tid: nat, taskLabel: bv32)
    requires ClientSets(c, tid, taskLabel) && taskLabel != 0
    ensures taskLabel & CACHE_ENABLE != 0
  {
    match c
    case ByIoctl(_, flags) => ClientLabelsEnable(flags, Response(0, 0, 0, 0));
    case ByResponse(r) => ClientLabelsEnable(0, r);
  }

  // ----- the state machine

  /** A caller between two of its locked sections. */
  datatype Caller =
    | Missed(tid: nat, parent: nat, isThread: bool, event: Track)
    | Ready(tid: nat, parent: nat, isThread: bool, at: nat, entry: Entry, onlyIfAbsent: bool)

  datatype State = State(bkts: seq<Bucket<Entry>>, callers: map<nat, Caller>, log: seq<Cause>)

  datatype Step =
    | SetLabel(tid: nat, flags: bv32, memory: bool)
    | Respond(response: Response)
    | Event(op: nat, tid: nat, parent: nat, isThread: bool, event: Track)
    | EventReadsParent(op: nat)
    | ForkReadsParent(op: nat, tid: nat, parent: nat, isThread: bool)
    | Insert(op: nat)
    | GiveUp(op: nat)                        // no memory for an entry
    | ClearOptions(tid: nat)
    | Remove(tid: nat)
    | ClearBucket(bucket: nat)

  ghost predicate Shaped(s: State, g: Geometry) {
    && g.Valid() && |s.bkts| == g.buckets
    && (forall i, j :: 0 <= i < |s.bkts| && 0 <= j < |s.bkts[i].list| ==> WellFormed(s.bkts[i].list[j].val))
  }

  predicate Cached(s: State, g: Geometry, tid: nat)
    requires g.buckets > 0 && |s.bkts| == g.buckets
  {
    Has(s.bkts[g.Index(tid)].list, tid)
  }

  function EntryOf(s: State, g: Geometry, tid: nat): Entry
    requires g.buckets > 0 && |s.bkts| == g.buckets && Cached(s, g, tid)
  {
    var list := s.bkts[g.Index(tid)].list;
    list[Locate(list, tid)].val
  }

  predicate HasParent(s: State, g: Geometry, parent: nat)
    requires g.buckets > 0 && |s.bkts| == g.buckets
  {
    parent != 0 && Cached(s, g, parent)
  }

  /** find_parent_task_labels, with 0 when there is no parent entry. */
  function ParentLabel(s: State, g: Geometry, parent: nat): bv32
    requires g.buckets > 0 && |s.bkts| == g.buckets
  {
    if HasParent(s, g, parent) then EntryOf(s, g, parent).taskLabel else 0
  }

  function PutEntry(s: State, g: Geometry, tid: nat, x: Entry): State
    requires g.buckets > 0 && |s.bkts| == g.buckets && Cached(s, g, tid)
  {
    var i := g.Index(tid);
    s.(bkts := s.bkts[i := Assign(s.bkts[i], tid, x)])
  }

  function PushEntry(s: State, g: Geometry, tid: nat, x: Entry): State
    requires g.buckets > 0 && |s.bkts| == g.buckets
  {
    var i := g.Index(tid);
    s.(bkts := s.bkts[i := Push(s.bkts[i], Item(tid, x), g.cap)])
  }

  ghost predicate Enabled(s: State, g: Geometry, step: Step) {
    && Shaped(s, g)
    && match step
       case SetLabel(_, flags, _) => IoctlLabel(flags).Some?
       case Respond(r) => PlanOf(r).Change?
       case Event(op, tid, _, _, e) =>
         op !in s.callers && tid != 0 && e.eventType < TASK_DUMP
       case EventReadsParent(op) => op in s.callers && s.callers[op].Missed?
       case ForkReadsParent(op, tid, _, _) => op !in s.callers && tid != 0
       case Insert(op) => op in s.callers && s.callers[op].Ready?
       case GiveUp(op) => op in s.callers && (s.callers[op].Missed? || s.callers[op].onlyIfAbsent)
       case ClearOptions(tid) => true
       case Remove(tid) => true
       case ClearBucket(i) => i < |s.bkts|
  }

  ghost function Apply(s: State, g: Geometry, step: Step): State
    requires Enabled(s, g, step)
  {
    match step
    case SetLabel(tid, flags, memory) =>
      var taskLabel := IoctlLabel(flags).value;
      var s' := s.(log := s.log + [ByIoctl(tid, flags)]);
      if Cached(s, g, tid) then
        PutEntry(s', g, tid, EntryOf(s, g, tid).(taskLabel := taskLabel, caches := NO_CACHES))
      else if memory then PushEntry(s', g, tid, LabelledEntry(taskLabel))
      else s
    case Respond(r) =>
      if Cached(s, g, r.tid) then
        PutEntry(s.(log := s.log + [ByResponse(r)]), g, r.tid,
                 Answered(EntryOf(s, g, r.tid), PlanOf(r), r.eventType))
      else s
    case Event(op, tid, parent, isThread, e) =>
      if Cached(s, g, tid) then PutEntry(s, g, tid, UpdateEntry(e, EntryOf(s, g, tid)).1)
      else s.(callers := s.callers[op := Missed(tid, parent, isThread, e)])
    case EventReadsParent(op) =>
      var c := s.callers[op];
      var x := FirstSight(HasParent(s, g, c.parent), ParentLabel(s, g, c.parent), c.isThread, c.event).1;
      s.(callers := s.callers[op := Ready(c.tid, c.parent, c.isThread, |s.log|, x, false)])
    case ForkReadsParent(op, tid, parent, isThread) =>
      // Without an inheritable label nothing is inserted at fork time.
      var x := ForkEntry(HasParent(s, g, parent), ParentLabel(s, g, parent), isThread);
      if x.None? then s
      else s.(callers := s.callers[op := Ready(tid, parent, isThread, |s.log|, x.value, true)])
    case Insert(op) =>
      var c := s.callers[op];
      var s' := s.(callers := s.callers - {op});
      if c.onlyIfAbsent && Cached(s, g, c.tid) then s'
      else PushEntry(s'.(log := s.log + [ByParent(c.tid, c.parent, c.isThread, c.at)]), g, c.tid, c.entry)
    case GiveUp(op) => s.(callers := s.callers - {op})
    case ClearOptions(tid) =>
      if Cached(s, g, tid) then PutEntry(s, g, tid, EntryOf(s, g, tid).(caches := NO_CACHES)) else s
    case Remove(tid) =>
      if Cached(s, g, tid) then
        s.(bkts := s.bkts[g.Index(tid) := Delete(s.bkts[g.Index(tid)], tid)])
      else s
    case ClearBucket(i) => s.(bkts := s.bkts[i := Bucket(0, [])])
  }

  function Initial(n: nat): State {
    State(Empty(n), map[], [])
  }

  ghost predicate Runs(s: State, g: Geometry, steps: seq<Step>)
    decreases |steps|
  {
    steps == [] || (Enabled(s, g, steps[0]) && Runs(Apply(s, g, steps[0]), g, steps[1..]))
  }

  ghost function After(s: State, g: Geometry, steps: seq<Step>): State
    requires Runs(s, g, steps)
    decreases |steps|
  {
    if steps == [] then s else After(Apply(s, g, steps[0]), g, steps[1..])
  }

  // ----- what every step keeps

  /** No event option is ever on, and a label is either none or one that enables
      and is traced to the client. */
  ghost predicate EntryOk(tid: nat, x: Entry, log: seq<Cause>) {
    && x.caches == NO_CACHES
    && (x.taskLabel != 0 ==> x.taskLabel & CACHE_ENABLE != 0 && Traces(log, |log|, tid, x.taskLabel))
  }

  ghost predicate CallerOk(c: Caller, log: seq<Cause>) {
    match c
    case Missed(_, _, _, e) => e.eventType < TASK_DUMP
    case Ready(_, parent, isThread, at, x, _) =>
      && at <= |log|
      && x.caches == NO_CACHES
      && (x.taskLabel != 0 ==> x.taskLabel & CACHE_ENABLE != 0 && HandedDown(log, at, parent, isThread, x.taskLabel))
  }

  ghost predicate BucketEntriesOk(b: Bucket<Entry>, log: seq<Cause>) {
    forall j :: 0 <= j < |b.list| ==> EntryOk(b.list[j].key, b.list[j].val, log)
  }

  ghost predicate Inv(s: State, g: Geometry) {
    && g.Valid() && |s.bkts| == g.buckets
    && (forall i :: 0 <= i < |s.bkts| ==> BucketEntriesOk(s.bkts[i], s.log))
    && (forall op :: op in s.callers ==> CallerOk(s.callers[op], s.log))
  }

  lemma InvShaped(s: State, g: Geometry)
    requires Inv(s, g)
    ensures Shaped(s, g)
  {
    forall i, j | 0 <= i < |s.bkts| && 0 <= j < |s.bkts[i].list| ensures WellFormed(s.bkts[i].list[j].val) {
      assert BucketEntriesOk(s.bkts[i], s.log);
      assert EntryOk(s.bkts[i].list[j].key, s.bkts[i].list[j].val, s.log);
    }
  }

  lemma EntryOkStays(tid: nat, x: Entry, log: seq<Cause>, more: seq<Cause>)
    requires EntryOk(tid, x, log) && log <= more
    ensures EntryOk(tid, x, more)
  {
    if x.taskLabel != 0 {
      TracesStays(log, more, |log|, tid, x.taskLabel);
      TracesGrows(more, |log|, |more|, tid, x.taskLabel);
    }
  }

  lemma CallerOkStays(c: Caller, log: seq<Cause>, more: seq<Cause>)
    requires CallerOk(c, log) && log <= more
    ensures CallerOk(c, more)
  {
    if c.Ready? && c.entry.taskLabel != 0 {
      var pl: bv32 :| Traces(log, c.at, c.parent, pl) && c.entry.taskLabel == InheritedLabel(pl, c.isThread);
      TracesStays(log, more, c.at, c.parent, pl);
    }
  }

  /** Logging a cause keeps everything that was traced. */
  lemma LogKeepsInv(s: State, g: Geometry, c: Cause)
    requires Inv(s, g)
    ensures Inv(s.(log := s.log + [c]), g)
  {
    var more := s.log + [c];
    forall i | 0 <= i < |s.bkts| ensures BucketEntriesOk(s.bkts[i], more) {
      assert BucketEntriesOk(s.bkts[i], s.log);
      forall j | 0 <= j < |s.bkts[i].list|
        ensures EntryOk(s.bkts[i].list[j].key, s.bkts[i].list[j].val, more)
      {
        EntryOkStays(s.bkts[i].list[j].key, s.bkts[i].list[j].val, s.log, more);
      }
    }
    forall op | op in s.callers ensures CallerOk(s.callers[op], more) {
      CallerOkStays(s.callers[op], s.log, more);
    }
  }

  lemma PutKeepsInv(s: State, g: Geometry, tid: nat, x: Entry)
    requires Inv(s, g) && Cached(s, g, tid) && EntryOk(tid, x, s.log)
    ensures Inv(PutEntry(s, g, tid, x), g)
  {
    var i := g.Index(tid);
    assert BucketEntriesOk(s.bkts[i], s.log);
    assert BucketEntriesOk(Assign(s.bkts[i], tid, x), s.log);
  }

  lemma PushKeepsInv(s: State, g: Geometry, tid: nat, x: Entry)
    requires Inv(s, g) && EntryOk(tid, x, s.log)
    ensures Inv(PushEntry(s, g, tid, x), g)
  {
    var i := g.Index(tid);
    assert BucketEntriesOk(s.bkts[i], s.log);
    var b := Push(s.bkts[i], Item(tid, x), g.cap);
    forall j | 0 <= j < |b.list| ensures EntryOk(b.list[j].key, b.list[j].val, s.log) {
      if j > 0 {
        assert b.list[j] == s.bkts[i].list[j - 1];
      }
    }
  }

  lemma FoundOk(s: State, g: Geometry, tid: nat)
    requires Inv(s, g) && Cached(s, g, tid)
    ensures EntryOk(tid, EntryOf(s, g, tid), s.log)
  {
    var i := g.Index(tid);
    assert BucketEntriesOk(s.bkts[i], s.log);
  }

  lemma SetLabelKeepsInv(s: State, g: Geometry, tid: nat, flags: bv32, memory: bool)
    requires Inv(s, g) && Enabled(s, g, SetLabel(tid, flags, memory))
    ensures Inv(Apply(s, g, SetLabel(tid, flags, memory)), g)
  {
    var c := ByIoctl(tid, flags);
    var s' := s.(log := s.log + [c]);
    var taskLabel := IoctlLabel(flags).value;
    LogKeepsInv(s, g, c);
    ClientLabelsEnable(flags, Response(0, 0, 0, 0));
    assert s'.log[|s.log|] == c && CausedBy(s'.log, |s.log|, tid, taskLabel);
    assert Traces(s'.log, |s'.log|, tid, taskLabel);
    if Cached(s, g, tid) {
      PutKeepsInv(s', g, tid, EntryOf(s, g, tid).(taskLabel := taskLabel, caches := NO_CACHES));
    } else {
      PushKeepsInv(s', g, tid, LabelledEntry(taskLabel));
    }
  }

  /** Under a plan that came from a response, an entry without options stays so,
      and its label is the one asked for or the one it had. */
  lemma AnsweredWithoutOptions(x: Entry, r: Response)
    requires x.caches == NO_CACHES && PlanOf(r).Change?
    ensures Answered(x, PlanOf(r), r.eventType).caches == NO_CACHES
    ensures
      var l := Answered(x, PlanOf(r), r.eventType).taskLabel;
      l == x.taskLabel || l == PlanOf(r).taskLabel
  {
    var y := Answered(x, PlanOf(r), r.eventType);
    forall i | 0 <= i < TASK_DUMP ensures y.caches[i] == NO_CACHES[i] {
      AnswerNeverRaisesOption(x, r, i);
    }
  }

  lemma RespondKeepsInv(s: State, g: Geometry, r: Response)
    requires Inv(s, g) && Enabled(s, g, Respond(r))
    ensures Inv(Apply(s, g, Respond(r)), g)
  {
    if Cached(s, g, r.tid) {
      var c := ByResponse(r);
      var s' := s.(log := s.log + [c]);
      LogKeepsInv(s, g, c);
      FoundOk(s', g, r.tid);
      var x := EntryOf(s, g, r.tid);
      AnsweredWithoutOptions(x, r);
      ClientLabelsEnable(0, r);
      assert s'.log[|s.log|] == c && CausedBy(s'.log, |s.log|, r.tid, PlanOf(r).taskLabel);
      PutKeepsInv(s', g, r.tid, Answered(x, PlanOf(r), r.eventType));
    }
  }

  lemma UpdateWithoutOptions(e: Track, x: Entry)
    requires x.caches == NO_CACHES && e.eventType < TASK_DUMP
    ensures UpdateEntry(e, x).1.caches == NO_CACHES
    ensures UpdateEntry(e, x).1.taskLabel == x.taskLabel
    ensures !OptionApplies(e, x)
  {
    assert x.caches[e.eventType] == 0;
  }

  /** Both ways of entering a task give it what the label function says. */
  lemma EntersWithInherited(hasParent: bool, pl: bv32, isThread: bool, e: Track)
    requires !hasParent ==> pl == 0
    ensures FirstSight(hasParent, pl, isThread, e).1.taskLabel == InheritedLabel(pl, isThread)
    ensures FirstSight(hasParent, pl, isThread, e).1.caches == NO_CACHES
    ensures
      var x := ForkEntry(hasParent, pl, isThread);
      if x.Some? then x.value == LabelledEntry(InheritedLabel(pl, isThread)) else InheritedLabel(pl, isThread) == 0
  {
    assert (0 as bv32) & CACHE_INHERIT == 0;
  }

  /** The label a caller reads off the parent is handed down from a traced one. */
  lemma ParentHandsDown(s: State, g: Geometry, parent: nat, isThread: bool)
    requires Inv(s, g)
    ensures
      var l := InheritedLabel(ParentLabel(s, g, parent), isThread);
      l != 0 ==> l & CACHE_ENABLE != 0 && HandedDown(s.log, |s.log|, parent, isThread, l)
  {
    var pl := ParentLabel(s, g, parent);
    InheritedLabelDiffers(pl, isThread);
    if pl != 0 {
      FoundOk(s, g, parent);
      assert Traces(s.log, |s.log|, parent, pl);
    }
  }

  lemma ReadParentKeepsInv(s: State, g: Geometry, step: Step)
    requires Inv(s, g) && Enabled(s, g, step) && (step.EventReadsParent? || step.ForkReadsParent?)
    ensures Inv(Apply(s, g, step), g)
  {
    if step.EventReadsParent? {
      var c := s.callers[step.op];
      ParentHandsDown(s, g, c.parent, c.isThread);
      EntersWithInherited(HasParent(s, g, c.parent), ParentLabel(s, g, c.parent), c.isThread, c.event);
    } else {
      ParentHandsDown(s, g, step.parent, step.isThread);
      EntersWithInherited(HasParent(s, g, step.parent), ParentLabel(s, g, step.parent), step.isThread, NO_EVENT);
    }
  }

  lemma InsertKeepsInv(s: State, g: Geometry, op: nat)
    requires Inv(s, g) && Enabled(s, g, Insert(op))
    ensures Inv(Apply(s, g, Insert(op)), g)
  {
    var c := s.callers[op];
    var s' := s.(callers := s.callers - {op});
    assert Inv(s', g);
    if !(c.onlyIfAbsent && Cached(s, g, c.tid)) {
      var cause := ByParent(c.tid, c.parent, c.isThread, c.at);
      LogKeepsInv(s', g, cause);
      var log := s.log + [cause];
      CallerOkStays(c, s.log, log);
      assert log[|s.log|] == cause;
      if c.entry.taskLabel != 0 {
        assert CausedBy(log, |s.log|, c.tid, c.entry.taskLabel);
      }
      PushKeepsInv(s'.(log := log), g, c.tid, c.entry);
    }
  }

  lemma StepKeepsInv(s: State, g: Geometry, step: Step)
    requires Inv(s, g) && Enabled(s, g, step)
    ensures Inv(Apply(s, g, step), g)
  {
    match step
    case SetLabel(tid, flags, memory) => SetLabelKeepsInv(s, g, tid, flags, memory);
    case Respond(r) => RespondKeepsInv(s, g, r);
    case Event(op, tid, parent, isThread, e) =>
      if Cached(s, g, tid) {
        FoundOk(s, g, tid);
        UpdateWithoutOptions(e, EntryOf(s, g, tid));
        PutKeepsInv(s, g, tid, UpdateEntry(e, EntryOf(s, g, tid)).1);
      }
    case EventReadsParent(_) => ReadParentKeepsInv(s, g, step);
    case ForkReadsParent(_, _, _, _) => ReadParentKeepsInv(s, g, step);
    case Insert(op) => InsertKeepsInv(s, g, op);
    case GiveUp(_) =>
    case ClearOptions(tid) =>
      if Cached(s, g, tid) {
        FoundOk(s, g, tid);
        PutKeepsInv(s, g, tid, EntryOf(s, g, tid).(caches := NO_CACHES));
      }
    case Remove(tid) =>
      if Cached(s, g, tid) {
        var i := g.Index(tid);
        assert BucketEntriesOk(s.bkts[i], s.log);
        var p := Locate(s.bkts[i].list, tid);
        var b := Delete(s.bkts[i], tid);
        forall j | 0 <= j < |b.list| ensures EntryOk(b.list[j].key, b.list[j].val, s.log) {
          assert b.list[j] == s.bkts[i].list[if j < p then j else j + 1];
        }
      }
    case ClearBucket(i) =>
  }

  lemma {:induction false} RunKeepsInv(s: State, g: Geometry, steps: seq<Step>)
    requires Inv(s, g) && Runs(s, g, steps)
    ensures Inv(After(s, g, steps), g)
    decreases |steps|
  {
    if steps != [] {
      StepKeepsInv(s, g, steps[0]);
      RunKeepsInv(Apply(s, g, steps[0]), g, steps[1..]);
    }
  }

  // ----- main results

  /** In every run, whatever the interleaving: no event option is ever stored,
      and every label that is set carries the enable flag. */
  lemma OptionsStayOffLabelsEnable(g: Geometry, steps: seq<Step>, tid: nat)
    requires g.Valid() && Runs(Initial(g.buckets), g, steps)
    ensures
      var s := After(Initial(g.buckets), g, steps);
      && Shaped(s, g)
      && (Cached(s, g, tid) ==>
            && EntryOf(s, g, tid).caches == NO_CACHES
            && (EntryOf(s, g, tid).taskLabel != 0 ==> EntryOf(s, g, tid).taskLabel & CACHE_ENABLE != 0))
  {
    RunKeepsInv(Initial(g.buckets), g, steps);
    var s := After(Initial(g.buckets), g, steps);
    InvShaped(s, g);
    if Cached(s, g, tid) {
      FoundOk(s, g, tid);
    }
  }

  /**
   In every run, an event of a cached task loses its stall only if the client
   set a label with the enable flag, on that task or on one it descends from
   through inheritance, and at most the inherit bit was lost on the way.
   */
  lemma DroppedStallGoesBackToClient(g: Geometry, steps: seq<Step>, tid: nat, e: Track)
    returns (path: seq<Hop>, k: nat, owner: nat, root: bv32)
    requires g.Valid() && Runs(Initial(g.buckets), g, steps) && e.eventType < TASK_DUMP
    requires
      var s := After(Initial(g.buckets), g, steps);
      && Shaped(s, g) && Cached(s, g, tid)
      && Stalls(e) && !Stalls(UpdateEntry(e, EntryOf(s, g, tid)).0)
    ensures
      var s := After(Initial(g.buckets), g, steps);
      var taskLabel := EntryOf(s, g, tid).taskLabel;
      && Descends(s.log, |s.log|, tid, taskLabel, path, k, owner, root)
      && k < |s.log| && ClientSets(s.log[k], owner, root)
      && root & CACHE_ENABLE != 0 && SameLabel(root, taskLabel)
  {
    var s := After(Initial(g.buckets), g, steps);
    RunKeepsInv(Initial(g.buckets), g, steps);
    FoundOk(s, g, tid);
    var x := EntryOf(s, g, tid);
    UpdateWithoutOptions(e, x);
    StallDroppedExactly(e, x);
    path, k, owner, root := TracedToClient(s.log, |s.log|, tid, x.taskLabel);
    DescendsSame(s.log, |s.log|, tid, x.taskLabel, path, k, owner, root);
    ClientSetsEnable(s.log[k], owner, root);
  }

  /** The same for the first event of a task that is new to the cache: the label it
      is reported under is inherited from its parent, and the parent's goes back to
      the client. */
  lemma FirstDroppedStallGoesBackToClient(g: Geometry, steps: seq<Step>, op: nat)
    returns (path: seq<Hop>, k: nat, owner: nat, root: bv32)
    requires g.Valid() && Runs(Initial(g.buckets), g, steps)
    requires
      var s := After(Initial(g.buckets), g, steps);
      && Enabled(s, g, EventReadsParent(op))
      && var c := s.callers[op];
      && Stalls(c.event)
      && !Stalls(FirstSight(HasParent(s, g, c.parent), ParentLabel(s, g, c.parent), c.isThread, c.event).0)
    ensures
      var s := After(Initial(g.buckets), g, steps);
      var c := s.callers[op];
      var pl := ParentLabel(s, g, c.parent);
      var x := FirstSight(HasParent(s, g, c.parent), pl, c.isThread, c.event).1;
      && x.taskLabel == InheritedLabel(pl, c.isThread)
      && Descends(s.log, |s.log|, c.parent, pl, path, k, owner, root)
      && k < |s.log| && ClientSets(s.log[k], owner, root)
      && root & CACHE_ENABLE != 0 && SameLabel(root, x.taskLabel)
  {
    var s := After(Initial(g.buckets), g, steps);
    RunKeepsInv(Initial(g.buckets), g, steps);
    var c := s.callers[op];
    var pl := ParentLabel(s, g, c.parent);
    EntersWithInherited(HasParent(s, g, c.parent), pl, c.isThread, c.event);
    InheritedSame(pl, c.isThread, InheritedLabel(pl, c.isThread));
    FoundOk(s, g, c.parent);
    path, k, owner, root := TracedToClient(s.log, |s.log|, c.parent, pl);
    DescendsSame(s.log, |s.log|, c.parent, pl, path, k, owner, root);
    SameLabelTransitive(root, pl, InheritedLabel(pl, c.isThread));
    ClientSetsEnable(s.log[k], owner, root);
  }
}
