/**
 What a task cache entry holds and how events, client answers and forks change
 it: the label of a task, the options of its event types, and the last events
 seen. Flags are the words the kernel and the client exchange.
 */
module TaskLabels {
  import opened Common
  import opened Dynsec
  import opened HashBuckets

  // Report flags of an event.
  const REPORT_STALL: bv16 := 0x0001
  const REPORT_CACHED: bv16 := 0x0008
  const REPORT_IGNORE: bv16 := 0x1000

  // Bookkeeping flags of a tracked event.
  const TRACK_REPORTABLE: bv16 := 0x0001
  const TRACK_FLAGS_CHANGED: bv16 := 0x0004

  datatype Track = Track(trackFlags: bv16, reportFlags: bv16, eventType: nat, reqId: nat)

  datatype Entry = Entry(last: Track, lastStall: Track, taskLabel: bv32, caches: seq<bv32>)

  const NO_EVENT: Track := Track(0, 0, EVENT_TYPE_MAX, 0)
  const NO_CACHES: seq<bv32> := [0, 0, 0, 0, 0, 0, 0, 0, 0, 0, 0, 0, 0, 0, 0, 0]

  predicate WellFormed(x: Entry) {
    |x.caches| == TASK_DUMP
  }

  ghost predicate AllWellFormed(s: Store<Entry>) {
    forall k :: k in s.recs ==> WellFormed(s.recs[k].val)
  }

  predicate Stalls(e: Track) {
    e.reportFlags & REPORT_STALL != 0
  }

  // ----- an event meets an entry

  predicate Reportable(e: Track) {
    e.trackFlags & TRACK_REPORTABLE != 0
  }

  function Unstall(e: Track, ignore: bool): Track {
    if ignore then
      e.(reportFlags := (e.reportFlags & !REPORT_STALL) | REPORT_IGNORE,
         trackFlags := e.trackFlags | TRACK_FLAGS_CHANGED)
    else
      e.(reportFlags := (e.reportFlags & !REPORT_STALL) | REPORT_CACHED,
         trackFlags := e.trackFlags | TRACK_FLAGS_CHANGED)
  }

  lemma UnstallClears(e: Track, ignore: bool)
    ensures !Stalls(Unstall(e, ignore))
  {
  }

  predicate OptionEnabled(mask: bv32) {
    mask & (CACHE_ENABLE | CACHE_ENABLE_EXCL | CACHE_ENABLE_STRICT) != 0
  }

  /** The option of the event's type, without the ignore bit. */
  function OptionMask(e: Track, x: Entry): bv32
    requires WellFormed(x) && e.eventType < TASK_DUMP
  {
    x.caches[e.eventType] & !CACHE_IGNORE
  }

  predicate MaskApplies(mask: bv32, e: Track, x: Entry)
    requires WellFormed(x)
  {
    if mask == CACHE_ENABLE then true
    else if mask == CACHE_ENABLE_EXCL then
      x.lastStall.eventType >= TASK_DUMP || OptionEnabled(x.caches[x.lastStall.eventType])
    else mask == CACHE_ENABLE_STRICT && x.last.eventType == e.eventType
  }

  function OptionsUnder(mask: bv32, e: Track, x: Entry): (c: seq<bv32>)
    requires WellFormed(x) && e.eventType < TASK_DUMP
    ensures |c| == TASK_DUMP
  {
    if mask == CACHE_CLEAR_ON_EVENT then NO_CACHES
    else if (mask == CACHE_ENABLE_EXCL || mask == CACHE_ENABLE_STRICT) && !MaskApplies(mask, e, x)
    then x.caches[e.eventType := 0]
    else x.caches
  }

  /** Does the event type's own option let the event through without a stall? */
  predicate OptionApplies(e: Track, x: Entry)
    requires WellFormed(x) && e.eventType < TASK_DUMP
  {
    MaskApplies(OptionMask(e, x), e, x)
  }

  /** The options after the event: one that no longer applies is dropped, and a
      clear-on-event option drops them all. */
  function OptionsAfter(e: Track, x: Entry): (c: seq<bv32>)
    requires WellFormed(x) && e.eventType < TASK_DUMP
    ensures |c| == TASK_DUMP
  {
    OptionsUnder(OptionMask(e, x), e, x)
  }

  /** The event as it is reported: the label of the task is looked at first. */
  function ReportedAs(e: Track, x: Entry): Track
    requires WellFormed(x) && e.eventType < TASK_DUMP
  {
    if x.taskLabel & CACHE_ENABLE != 0 then Unstall(e, x.taskLabel & CACHE_IGNORE != 0)
    else if OptionApplies(e, x) then Unstall(e, x.caches[e.eventType] & CACHE_IGNORE != 0)
    else e
  }

  function CachesAfter(e: Track, x: Entry): (c: seq<bv32>)
    requires WellFormed(x) && e.eventType < TASK_DUMP
    ensures |c| == TASK_DUMP
  {
    if x.taskLabel & CACHE_ENABLE != 0 then x.caches else OptionsAfter(e, x)
  }

  /** __update_entry_data: the event as it is reported, and the new entry. */
  function UpdateEntry(e: Track, x: Entry): (r: (Track, Entry))
    requires WellFormed(x) && e.eventType < TASK_DUMP
    ensures WellFormed(r.1)
  {
    if e.trackFlags & TRACK_REPORTABLE == 0 then (e, x.(last := e))
    else
      var e' := ReportedAs(e, x);
      (e', x.(last := e', lastStall := if Stalls(e) then e' else x.lastStall, caches := CachesAfter(e, x)))
  }

  // ----- inheritance

  /** The label a new task takes over from its parent's: none unless it is
      inheritable; a process that does not recurse keeps it but cannot pass it on. */
  function InheritedLabel(parent: bv32, isThread: bool): bv32 {
    if parent & CACHE_INHERIT == 0 then 0
    else if !isThread && parent & CACHE_INHERIT_RECURSE == 0 then parent & !CACHE_INHERIT
    else parent
  }

  function LabelledEntry(taskLabel: bv32): (x: Entry)
    ensures WellFormed(x)
  {
    Entry(NO_EVENT, NO_EVENT, taskLabel, NO_CACHES)
  }

  /** task_cache_insert_new_task: the entry of a task that is entered when it is
      forked. A parent without an inheritable label is left for later. */
  function ForkEntry(hasParent: bool, parent: bv32, isThread: bool): (r: Option<Entry>)
    ensures r.Some? ==> WellFormed(r.value)
  {
    if hasParent && parent & CACHE_INHERIT != 0 then
      Some(LabelledEntry(if !isThread && parent & CACHE_INHERIT_RECURSE == 0 then parent & !CACHE_INHERIT else parent))
    else None
  }

  /** The label a task takes over when its first event is seen. */
  function FirstLabel(hasParent: bool, parent: bv32, isThread: bool): bv32 {
    if !(hasParent && parent & CACHE_INHERIT != 0) then 0
    else if isThread || parent & CACHE_INHERIT_RECURSE != 0 then parent
    else parent & !CACHE_INHERIT
  }

  /** The first event under that label. */
  function Lifted(e: Track, taskLabel: bv32): Track {
    var flags := e.reportFlags & !REPORT_STALL;
    if taskLabel & CACHE_IGNORE != 0 then
      Track(e.trackFlags | TRACK_FLAGS_CHANGED, flags | REPORT_IGNORE, e.eventType, e.reqId)
    else
      Track(e.trackFlags | TRACK_FLAGS_CHANGED, flags | REPORT_CACHED, e.eventType, e.reqId)
  }

  function FirstReport(e: Track, taskLabel: bv32): Track {
    if taskLabel & CACHE_ENABLE != 0 then Lifted(e, taskLabel) else e
  }

  /** task_cache_set_last_event, for a task that is not cached: the event as it is
      reported, and the entry of the task. */
  function FirstSight(hasParent: bool, parent: bv32, isThread: bool, e: Track): (r: (Track, Entry))
    ensures WellFormed(r.1)
  {
    var taskLabel := FirstLabel(hasParent, parent, isThread);
    var e' := FirstReport(e, taskLabel);
    (e', Entry(e', if Stalls(e') then e' else NO_EVENT, taskLabel, NO_CACHES))
  }

  // ----- labels set by the client

  const LABEL_BITS: bv32 := CACHE_ENABLE | CACHE_IGNORE | CACHE_INHERIT | CACHE_INHERIT_RECURSE

  /** The label an ioctl asks for, or None when it is refused. */
  function IoctlLabel(flags: bv32): Option<bv32> {
    if flags & (CACHE_DISABLE | CACHE_CLEAR) != 0 then Some(0)
    else if flags & CACHE_ENABLE != 0 then Some(flags & LABEL_BITS)
    else None
  }

  datatype Response = Response(tid: nat, eventType: nat, cacheFlags: bv32, labelFlags: bv32)

  datatype Plan =
    | Refused
    | Nothing
    | Change(clearEvents: bool, clearTask: bool, taskLabel: bv32, option: bv32)

  const OPTION_BITS: bv32 := CACHE_ENABLE | CACHE_ENABLE_EXCL | CACHE_ENABLE_STRICT | CACHE_CLEAR_ON_EVENT

  predicate SingleOption(mask: bv32) {
    mask == CACHE_ENABLE || mask == CACHE_ENABLE_EXCL || mask == CACHE_ENABLE_STRICT || mask == CACHE_CLEAR_ON_EVENT
  }

  /** What a response asks for; task options win over event options. */
  function PlanOf(r: Response): Plan {
    if r.eventType >= TASK_DUMP then Refused
    else if r.labelFlags != 0 then LabelPlan(r.labelFlags)
    else if r.cacheFlags != 0 then OptionPlan(r.cacheFlags)
    else Nothing
  }

  /** A label must enable, and may recurse only if it is inherited at all. */
  predicate GoodLabel(taskLabel: bv32) {
    || taskLabel == 0
    || (taskLabel & CACHE_ENABLE != 0 && (taskLabel & CACHE_INHERIT_RECURSE == 0 || taskLabel & CACHE_INHERIT != 0))
  }

  function LabelPlan(flags: bv32): Plan {
    if flags & (CACHE_CLEAR | CACHE_DISABLE) != 0 then
      if flags & !(CACHE_CLEAR | CACHE_DISABLE) != 0 then Refused else Change(false, true, 0, 0)
    else
      var taskLabel := flags & LABEL_BITS;
      if GoodLabel(taskLabel) then Change(false, false, taskLabel, 0) else Refused
  }

  function OptionPlan(flags: bv32): Plan {
    var clear := flags & CACHE_CLEAR != 0;
    var rest := flags & !CACHE_CLEAR;
    if rest & CACHE_DISABLE != 0 then Change(clear, false, 0, CACHE_DISABLE)
    else
      var mask := rest & OPTION_BITS;
      // An option overrides the task label; the plan says so by clearing it.
      if SingleOption(mask) then Change(clear, true, 0, if rest & CACHE_IGNORE != 0 then mask | CACHE_IGNORE else mask)
      else if clear then Change(true, true, 0, 0)
      else Refused
  }

  /** The entry after a plan. The event option is stored only when the task
      label is left alone. */
  function Answered(x: Entry, plan: Plan, eventType: nat): (y: Entry)
    requires WellFormed(x) && plan.Change? && eventType < TASK_DUMP
    ensures WellFormed(y)
  {
    var caches := if plan.clearEvents || plan.taskLabel != 0 then NO_CACHES else x.caches;
    if plan.clearTask || plan.taskLabel != 0 then x.(caches := caches, taskLabel := plan.taskLabel)
    else if plan.option == 0 then x.(caches := caches)
    else
      x.(caches := caches[eventType := if plan.option & CACHE_DISABLE != 0 then 0 else plan.option])
  }
}
