/**
 The user-space half of the BPF probe drains one perf buffer per CPU into a
 single stream. The kernel keeps adding records while the buffers are read, so
 the collector gathers records, sorts them, reads again up to the newest
 timestamp it holds, and hands the batch to the client only after a pass over
 the buffers that found nothing older.

 This module is the value model: the state, one step per atomic action, and
 what every run of those steps keeps.
 */
module EventMerge {

  datatype Event = Event(cpu: nat, time: nat, body: int)

  ghost predicate Ordered(s: seq<Event>) {
    forall i, j :: 0 <= i < j < |s| ==> s[i].time <= s[j].time
  }

  /** The events of one CPU, in the order they have in the stream. */
  ghost function OnCpu(s: seq<Event>, cpu: nat): seq<Event> {
    if s == [] then []
    else OnCpu(s[..|s| - 1], cpu) + (if s[|s| - 1].cpu == cpu then [s[|s| - 1]] else [])
  }

  /** Puts x behind every event that is not newer than x. */
  function Place(s: seq<Event>, x: Event): seq<Event> {
    if s == [] || s[|s| - 1].time <= x.time then s + [x]
    else Place(s[..|s| - 1], x) + [s[|s| - 1]]
  }

  /** The result of a stable sort by timestamp (std::list::sort is stable). */
  function StableSort(s: seq<Event>): seq<Event> {
    if s == [] then [] else Place(StableSort(s[..|s| - 1]), s[|s| - 1])
  }

  // ----- properties of the projection and of the sort

  lemma OrderedAppend(s: seq<Event>, x: Event)
    requires Ordered(s)
    requires forall e :: e in s ==> e.time <= x.time
    ensures Ordered(s + [x])
  {
  }

  lemma OrderedLast(s: seq<Event>, e: Event)
    requires Ordered(s) && e in s
    ensures e.time <= s[|s| - 1].time
  {
    var k :| 0 <= k < |s| && s[k] == e;
  }

  lemma {:induction false} OnCpuAppend(a: seq<Event>, b: seq<Event>, cpu: nat)
    ensures OnCpu(a + b, cpu) == OnCpu(a, cpu) + OnCpu(b, cpu)
  {
    if b == [] {
      assert a + b == a;
    } else {
      var n := |b| - 1;
      assert (a + b)[..|a + b| - 1] == a + b[..n];
      OnCpuAppend(a, b[..n], cpu);
    }
  }

  lemma OnCpuSnoc(s: seq<Event>, x: Event, cpu: nat)
    ensures OnCpu(s + [x], cpu) == if x.cpu == cpu then OnCpu(s, cpu) + [x] else OnCpu(s, cpu)
  {
    assert (s + [x])[..|s + [x]| - 1] == s;
  }

  lemma OnCpuPrefix(a: seq<Event>, b: seq<Event>, c: nat)
    requires a <= b
    ensures OnCpu(a, c) <= OnCpu(b, c)
  {
    OnCpuAppend(a, b[|a|..], c);
    assert b == a + b[|a|..];
  }

  lemma PrefixOf(a: seq<Event>, b: seq<Event>, c: seq<Event>)
    requires a <= b <= c
    ensures a <= c
  {
  }

  lemma {:induction false} OnCpuOrdered(s: seq<Event>, cpu: nat)
    requires Ordered(s)
    ensures Ordered(OnCpu(s, cpu))
    ensures forall e :: e in OnCpu(s, cpu) ==> e in s
  {
    if s != [] {
      var r, x := s[..|s| - 1], s[|s| - 1];
      OnCpuOrdered(r, cpu);
      OrderedAppend(OnCpu(r, cpu), x);
    }
  }

  lemma {:induction false} PlaceSorted(s: seq<Event>, x: Event)
    requires Ordered(s)
    ensures Ordered(Place(s, x))
    ensures multiset(Place(s, x)) == multiset(s) + multiset{x}
  {
    if !(s == [] || s[|s| - 1].time <= x.time) {
      var r := s[..|s| - 1];
      PlaceSorted(r, x);
      var p, y := Place(r, x), s[|s| - 1];
      assert s == r + [y];
      forall e | e in p ensures e.time <= y.time {
        assert e in multiset(p);
      }
      OrderedAppend(p, y);
    } else {
      OrderedAppend(s, x);
    }
  }

  lemma {:induction false} PlaceOnCpu(s: seq<Event>, x: Event, cpu: nat)
    requires forall e :: e in s && e.cpu == x.cpu ==> e.time <= x.time
    ensures OnCpu(Place(s, x), cpu) == OnCpu(s, cpu) + OnCpu([x], cpu)
  {
    if s == [] || s[|s| - 1].time <= x.time {
      OnCpuAppend(s, [x], cpu);
    } else {
      var r, y := s[..|s| - 1], s[|s| - 1];
      assert y in s && y.cpu != x.cpu;
      PlaceOnCpu(r, x, cpu);
      OnCpuSnoc(Place(r, x), y, cpu);
      OnCpuSnoc([], x, cpu);
      assert [] + [x] == [x];
    }
  }

  /** Sorting orders the list, keeps its contents, and does not disturb a CPU
      whose events were already in time order. */
  lemma {:induction false} StableSortSorts(s: seq<Event>)
    ensures Ordered(StableSort(s))
    ensures multiset(StableSort(s)) == multiset(s)
    ensures |StableSort(s)| == |s|
  {
    if s != [] {
      var r, x := s[..|s| - 1], s[|s| - 1];
      StableSortSorts(r);
      PlaceSorted(StableSort(r), x);
      assert s == r + [x];
    }
    assert |multiset(StableSort(s))| == |multiset(s)|;
  }

  lemma {:induction false} StableSortKeepsCpu(s: seq<Event>, cpu: nat)
    requires forall c: nat :: Ordered(OnCpu(s, c))
    ensures OnCpu(StableSort(s), cpu) == OnCpu(s, cpu)
  {
    if s != [] {
      var r, x := s[..|s| - 1], s[|s| - 1];
      forall c: nat ensures Ordered(OnCpu(r, c)) {
        assert OnCpu(r, c) <= OnCpu(s, c);
        PrefixOrdered(OnCpu(r, c), OnCpu(s, c));
      }
      StableSortKeepsCpu(r, cpu);
      StableSortSorts(r);
      forall e | e in StableSort(r) && e.cpu == x.cpu ensures e.time <= x.time {
        assert e in multiset(r);
        InOnCpu(r, e);
        var own := OnCpu(s, x.cpu);
        assert own == OnCpu(r, x.cpu) + [x];
        OrderedLast(own, e);
      }
      PlaceOnCpu(StableSort(r), x, cpu);
    }
  }

  lemma PrefixOrdered(a: seq<Event>, b: seq<Event>)
    requires a <= b && Ordered(b)
    ensures Ordered(a)
  {
  }

  lemma {:induction false} InOnCpu(s: seq<Event>, e: Event)
    requires e in s
    ensures e in OnCpu(s, e.cpu)
  {
    if s[|s| - 1] != e {
      InOnCpu(s[..|s| - 1], e);
    }
  }

  // ----- the collector and the perf buffers as a state machine

  /** Reading: the CPUs still to be visited in this pass, and for each CPU how
      many of the records it held when the pass began are still unread. */
  datatype Pass = Idle | Reading(todo: set<nat>, owed: seq<nat>)

  datatype State = State(
    queues: seq<seq<Event>>,    // perf buffers, oldest record first
    list: seq<Event>,           // m_event_list
    last: nat,                  // m_timestamp_last
    count: nat,                 // m_event_count
    left: bool,                 // m_did_leave_events
    pass: Pass,
    clock: nat,                 // timestamp of the newest record produced
    produced: seq<seq<Event>>,  // everything each CPU ever produced
    delivered: seq<Event>)      // everything handed to the callback

  datatype Step =
    | Produce(event: Event)
    | Begin(ready: set<nat>)
    | Read(cpu: nat)
    | Refuse(cpu: nat)
    | Drained(cpu: nat)
    | Finish

  /** The peek callback: may the next record of a CPU be collected? */
  predicate Accepts(last: nat, time: nat) {
    last == 0 || time <= last
  }

  predicate Enabled(s: State, step: Step) {
    match step
    case Produce(e) =>
      e.cpu < |s.queues| && |s.produced| == |s.queues| && 0 < e.time && s.clock <= e.time
    case Begin(ready) =>
      // A pass that bypasses the poll reads every CPU; a poll reports at least
      // every CPU whose buffer is not empty.
      && s.pass.Idle?
      && (forall c :: c in ready ==> c < |s.queues|)
      && (forall c :: 0 <= c < |s.queues| && (s.left || s.queues[c] != []) ==> c in ready)
    case Read(cpu) =>
      Visiting(s, cpu) && s.queues[cpu] != [] && Accepts(s.last, s.queues[cpu][0].time)
    case Refuse(cpu) =>
      Visiting(s, cpu) && s.queues[cpu] != [] && !Accepts(s.last, s.queues[cpu][0].time)
    case Drained(cpu) =>
      // The reader may stop at what the buffer held when it was polled.
      Visiting(s, cpu) && s.pass.owed[cpu] == 0
    case Finish =>
      s.pass.Reading? && s.pass.todo == {}
  }

  predicate Visiting(s: State, cpu: nat) {
    s.pass.Reading? && cpu in s.pass.todo && cpu < |s.queues| && |s.pass.owed| == |s.queues|
  }

  function Apply(s: State, step: Step): State
    requires Enabled(s, step)
  {
    match step
    case Produce(e) =>
      s.(queues := s.queues[e.cpu := s.queues[e.cpu] + [e]],
         produced := s.produced[e.cpu := s.produced[e.cpu] + [e]],
         clock := e.time)
    case Begin(ready) =>
      s.(pass := Reading(ready, seq(|s.queues|, c requires 0 <= c < |s.queues| => |s.queues[c]|)),
         left := false)
    case Read(cpu) =>
      s.(queues := s.queues[cpu := s.queues[cpu][1..]],
         list := s.list + [s.queues[cpu][0]],
         count := s.count + 1,
         pass := s.pass.(owed := s.pass.owed[cpu := Dec(s.pass.owed[cpu])]))
    case Refuse(cpu) =>
      s.(left := true, pass := s.pass.(todo := s.pass.todo - {cpu}))
    case Drained(cpu) =>
      s.(pass := s.pass.(todo := s.pass.todo - {cpu}))
    case Finish => Harvest(s)
  }

  function Dec(n: nat): nat {
    if n == 0 then 0 else n - 1
  }

  /** The end of a pass: sort what was collected, or deliver the batch when the
      pass collected nothing. */
  function Harvest(s: State): State {
    var t :=
      if s.list == [] then s
      else if s.count > 0 then
        StableSortLength(s.list);
        var sorted := StableSort(s.list);
        s.(list := sorted, last := sorted[|sorted| - 1].time)
      else s.(delivered := s.delivered + s.list, list := [], last := 0);
    t.(count := 0, pass := Idle)
  }

  lemma StableSortLength(s: seq<Event>)
    ensures |StableSort(s)| == |s|
  {
    StableSortSorts(s);
  }

  predicate Runs(s: State, steps: seq<Step>)
    decreases |steps|
  {
    steps == [] || (Enabled(s, steps[0]) && Runs(Apply(s, steps[0]), steps[1..]))
  }

  function After(s: State, steps: seq<Step>): State
    requires Runs(s, steps)
    decreases |steps|
  {
    if steps == [] then s else After(Apply(s, steps[0]), steps[1..])
  }

  function Initial(cpus: nat): State {
    State(seq(cpus, _ => []), [], 0, 0, false, Idle, 0, seq(cpus, _ => []), [])
  }

  // ----- what every step keeps

  ghost predicate Shape(s: State) {
    && |s.produced| == |s.queues|
    && (s.pass.Reading? ==>
          && |s.pass.owed| == |s.queues|
          && (forall c :: c in s.pass.todo ==> c < |s.queues|)
          && (forall c :: 0 <= c < |s.queues| ==> s.pass.owed[c] <= |s.queues[c]|))
  }

  /** Every CPU's records are split, in order, between the client, the list and
      the buffer: none lost, none twice, none out of place. */
  ghost predicate Conserved(s: State) {
    && |s.produced| == |s.queues|
    && (forall c :: 0 <= c < |s.queues| ==> ConservedOn(s, c))
    && (forall e :: e in s.delivered || e in s.list ==> e.cpu < |s.queues|)
  }

  ghost predicate ConservedOn(s: State, c: nat)
    requires c < |s.queues| && c < |s.produced|
  {
    s.produced[c] == OnCpu(s.delivered, c) + OnCpu(s.list, c) + s.queues[c]
  }

  ghost predicate Stamped(s: State) {
    && |s.produced| == |s.queues|
    && forall c :: 0 <= c < |s.produced| ==> StampedOn(s.produced[c], c, s.clock)
  }

  ghost predicate StampedOn(p: seq<Event>, c: nat, clock: nat) {
    Ordered(p) && forall e :: e in p ==> e.cpu == c && 0 < e.time <= clock
  }

  ghost predicate AtLeast(s: seq<Event>, t: nat) {
    forall e :: e in s ==> t <= e.time
  }

  ghost predicate AtMost(s: seq<Event>, t: nat) {
    forall e :: e in s ==> e.time <= t
  }

  function Newest(s: seq<Event>): nat {
    if s == [] then 0 else s[|s| - 1].time
  }

  /** Nothing that is still to be delivered is older than what was delivered. */
  ghost predicate Behind(s: State) {
    var floor := Newest(s.delivered);
    && Ordered(s.delivered)
    && floor <= s.clock
    && AtLeast(s.list, floor)
    && (forall c :: 0 <= c < |s.queues| ==> AtLeast(s.queues[c], floor))
  }

  /** The list: what earlier passes sorted, then what this pass collected. */
  ghost predicate Listed(s: State) {
    && s.count <= |s.list|
    && s.last == Newest(s.list[..|s.list| - s.count])
    && Ordered(s.list[..|s.list| - s.count])
    && (s.last > 0 ==> AtMost(s.list, s.last))
    && s.last <= s.clock
    && AtLeast(s.list, 1)
    && AtMost(s.list, s.clock)
    && (s.pass.Idle? ==> s.count == 0)
  }

  /** Buffers already visited in this pass hold nothing stamped before `bar`,
      and neither does what arrived since the pass began. */
  ghost predicate Swept(s: State, bar: nat) {
    s.pass.Reading? ==>
      && |s.pass.owed| == |s.queues|
      && forall c :: 0 <= c < |s.queues| ==>
           s.pass.owed[c] <= |s.queues[c]| && SweptOn(s.queues[c], s.pass.owed[c], c !in s.pass.todo, bar)
  }

  ghost predicate SweptOn(q: seq<Event>, owed: nat, visited: bool, bar: nat)
    requires owed <= |q|
  {
    && AtLeast(q[owed..], bar)
    && (visited ==> AtLeast(q, bar))
  }

  ghost predicate Inv(s: State) {
    Shape(s) && Conserved(s) && Stamped(s) && Behind(s) && Listed(s) && Swept(s, s.last)
  }

  lemma InitialInv(cpus: nat)
    ensures Inv(Initial(cpus))
  {
  }

  lemma MiddleOrdered(a: seq<Event>, b: seq<Event>, q: seq<Event>)
    requires Ordered(a + b + q)
    ensures Ordered(b) && Ordered(q)
  {
    var p := a + b + q;
    assert forall i :: 0 <= i < |b| ==> b[i] == p[|a| + i];
    assert forall i :: 0 <= i < |q| ==> q[i] == p[|a| + |b| + i];
  }

  lemma QueueOrdered(s: State, c: nat)
    requires Conserved(s) && Stamped(s) && c < |s.queues|
    ensures Ordered(s.queues[c])
    ensures forall e :: e in s.queues[c] ==> e.cpu == c && 0 < e.time <= s.clock
    ensures Ordered(OnCpu(s.list, c))
  {
    assert ConservedOn(s, c) && StampedOn(s.produced[c], c, s.clock);
    MiddleOrdered(OnCpu(s.delivered, c), OnCpu(s.list, c), s.queues[c]);
    assert forall e :: e in s.queues[c] ==> e in s.produced[c];
  }

  lemma ProduceConserves(s: State, e: Event)
    requires Inv(s) && Enabled(s, Produce(e))
    ensures Conserved(Apply(s, Produce(e))) && Stamped(Apply(s, Produce(e)))
  {
    var t := Apply(s, Produce(e));
    var c := e.cpu;
    forall d | 0 <= d < |s.queues| ensures ConservedOn(t, d) {
      assert ConservedOn(s, d);
    }
    assert StampedOn(s.produced[c], c, s.clock);
    OrderedAppend(s.produced[c], e);
    forall d | 0 <= d < |s.queues| ensures StampedOn(t.produced[d], d, t.clock) {
      assert StampedOn(s.produced[d], d, s.clock);
    }
  }

  lemma ProduceKeepsInv(s: State, e: Event)
    requires Inv(s) && Enabled(s, Produce(e))
    ensures Inv(Apply(s, Produce(e)))
  {
    var t := Apply(s, Produce(e));
    ProduceConserves(s, e);
    assert Behind(t);
    assert Listed(t);
    ProduceSweeps(s, e, s.last);
  }

  lemma ProduceSweeps(s: State, e: Event, bar: nat)
    requires Inv(s) && Enabled(s, Produce(e)) && Swept(s, bar) && bar <= e.time
    ensures Swept(Apply(s, Produce(e)), bar)
  {
    var t := Apply(s, Produce(e));
    if s.pass.Reading? {
      forall d | 0 <= d < |s.queues| ensures SweptOn(t.queues[d], t.pass.owed[d], d !in t.pass.todo, bar) {
        var owed := s.pass.owed[d];
        assert SweptOn(s.queues[d], owed, d !in s.pass.todo, bar);
        if d == e.cpu {
          assert t.queues[d][owed..] == s.queues[d][owed..] + [e];
        }
      }
    }
  }

  lemma BeginKeepsInv(s: State, ready: set<nat>)
    requires Inv(s) && Enabled(s, Begin(ready))
    ensures Inv(Apply(s, Begin(ready)))
  {
    var t := Apply(s, Begin(ready));
    forall d | 0 <= d < |s.queues| ensures ConservedOn(t, d) {
      assert ConservedOn(s, d);
    }
  }

  lemma MoveAcross(a: seq<Event>, b: seq<Event>, x: Event, q: seq<Event>)
    ensures a + b + ([x] + q) == a + (b + [x]) + q
  {
  }

  lemma MoveOldest(p: seq<Event>, delivered: seq<Event>, list: seq<Event>, queue: seq<Event>, c: nat)
    requires p == OnCpu(delivered, c) + OnCpu(list, c) + queue
    requires queue != [] && queue[0].cpu == c
    ensures p == OnCpu(delivered, c) + OnCpu(list + [queue[0]], c) + queue[1..]
  {
    var x, q := queue[0], queue[1..];
    OnCpuSnoc(list, x, c);
    assert queue == [x] + q;
    MoveAcross(OnCpu(delivered, c), OnCpu(list, c), x, q);
  }

  lemma ReadConserves(s: State, c: nat)
    requires Conserved(s) && Stamped(s) && Enabled(s, Read(c))
    ensures Conserved(Apply(s, Read(c)))
  {
    var t := Apply(s, Read(c));
    QueueOrdered(s, c);
    assert s.queues[c][0] in s.queues[c];
    forall d | 0 <= d < |s.queues| ensures ConservedOn(t, d) {
      assert ConservedOn(s, d);
      if d == c {
        MoveOldest(s.produced[c], s.delivered, s.list, s.queues[c], c);
      } else {
        OnCpuSnoc(s.list, s.queues[c][0], d);
      }
    }
  }

  lemma ReadSweeps(s: State, c: nat, bar: nat)
    requires Inv(s) && Enabled(s, Read(c)) && Swept(s, bar)
    ensures Swept(Apply(s, Read(c)), bar)
  {
    var t := Apply(s, Read(c));
    forall d | 0 <= d < |s.queues|
      ensures t.pass.owed[d] <= |t.queues[d]|
      ensures SweptOn(t.queues[d], t.pass.owed[d], d !in t.pass.todo, bar)
    {
      assert SweptOn(s.queues[d], s.pass.owed[d], d !in s.pass.todo, bar);
      if d == c {
        assert forall e :: e in t.queues[c][t.pass.owed[c]..] ==> e in s.queues[c][s.pass.owed[c]..];
      }
    }
  }

  lemma ReadKeepsInv(s: State, c: nat)
    requires Inv(s) && Enabled(s, Read(c))
    ensures Inv(Apply(s, Read(c)))
  {
    var t := Apply(s, Read(c));
    ReadConserves(s, c);
    ReadSweeps(s, c, s.last);
    QueueOrdered(s, c);
    assert s.queues[c][0] in s.queues[c];
    assert t.list[..|t.list| - t.count] == s.list[..|s.list| - s.count];
    assert Behind(t);
    assert Listed(t);
  }

  /** A CPU is left when its next record is newer than the list, or when what
      it held at the start of the pass has been read; either way what remains
      in its buffer is not older than the bar. */
  lemma LeaveSweeps(s: State, c: nat, bar: nat)
    requires Inv(s) && Swept(s, bar) && bar <= s.last + 1
    ensures Enabled(s, Refuse(c)) ==> Swept(Apply(s, Refuse(c)), bar)
    ensures Enabled(s, Drained(c)) ==> Swept(Apply(s, Drained(c)), bar)
  {
    if Visiting(s, c) {
      QueueOrdered(s, c);
      assert SweptOn(s.queues[c], s.pass.owed[c], false, bar);
      assert s.queues[c][0..] == s.queues[c];
    }
  }

  lemma LeaveKeepsInv(s: State, c: nat)
    requires Inv(s)
    ensures Enabled(s, Refuse(c)) ==> Inv(Apply(s, Refuse(c)))
    ensures Enabled(s, Drained(c)) ==> Inv(Apply(s, Drained(c)))
  {
    LeaveSweeps(s, c, s.last);
    if Enabled(s, Refuse(c)) {
      var t := Apply(s, Refuse(c));
      forall d | 0 <= d < |s.queues| ensures ConservedOn(t, d) { assert ConservedOn(s, d); }
    }
    if Enabled(s, Drained(c)) {
      var t := Apply(s, Drained(c));
      forall d | 0 <= d < |s.queues| ensures ConservedOn(t, d) { assert ConservedOn(s, d); }
    }
  }

  lemma OrderedConcat(a: seq<Event>, b: seq<Event>)
    requires Ordered(a) && Ordered(b) && AtLeast(b, Newest(a))
    ensures Ordered(a + b)
  {
    forall i, j | 0 <= i < j < |a + b| ensures (a + b)[i].time <= (a + b)[j].time {
      if i < |a| <= j {
        OrderedLast(a, a[i]);
        assert (a + b)[j] in b;
      }
    }
  }

  /** When a pass ends with nothing collected, every buffered record is at least
      as new as the whole list, so the list may be delivered. */
  lemma SweptAll(s: State, bar: nat)
    requires Enabled(s, Finish) && Swept(s, bar)
    ensures forall c :: 0 <= c < |s.queues| ==> AtLeast(s.queues[c], bar)
  {
    forall c | 0 <= c < |s.queues| ensures AtLeast(s.queues[c], bar) {
      assert SweptOn(s.queues[c], s.pass.owed[c], true, bar);
    }
  }

  lemma DeliverConserves(s: State)
    requires Conserved(s) && Enabled(s, Finish) && s.list != [] && s.count == 0
    ensures Conserved(Apply(s, Finish))
  {
    var t := Apply(s, Finish);
    forall d | 0 <= d < |s.queues| ensures ConservedOn(t, d) {
      assert ConservedOn(s, d);
      OnCpuAppend(s.delivered, s.list, d);
      assert OnCpu(t.delivered, d) + OnCpu(t.list, d) == OnCpu(t.delivered, d);
    }
  }

  lemma DeliverKeepsInv(s: State)
    requires Inv(s) && Enabled(s, Finish) && s.list != [] && s.count == 0
    ensures Inv(Apply(s, Finish))
  {
    var t := Apply(s, Finish);
    assert s.list[..|s.list| - s.count] == s.list;
    DeliverConserves(s);
    SweptAll(s, s.last);
    OrderedConcat(s.delivered, s.list);
    assert Newest(t.delivered) == s.last;
    assert Behind(t);
  }

  lemma ListOrderedPerCpu(s: State)
    requires Inv(s)
    ensures forall c: nat :: Ordered(OnCpu(s.list, c))
  {
    forall c: nat ensures Ordered(OnCpu(s.list, c)) {
      if c < |s.queues| {
        QueueOrdered(s, c);
      } else {
        NotOnCpu(s.list, c);
      }
    }
  }

  lemma {:induction false} NotOnCpu(s: seq<Event>, c: nat)
    requires forall e :: e in s ==> e.cpu != c
    ensures OnCpu(s, c) == []
  {
    if s != [] {
      assert s[|s| - 1] in s;
      NotOnCpu(s[..|s| - 1], c);
    }
  }

  lemma SortConserves(s: State)
    requires Inv(s) && Enabled(s, Finish) && s.list != [] && s.count > 0
    ensures Conserved(Apply(s, Finish))
    ensures forall e :: e in Apply(s, Finish).list <==> e in s.list
  {
    var t := Apply(s, Finish);
    ListOrderedPerCpu(s);
    StableSortSorts(s.list);
    forall e ensures e in t.list <==> e in s.list {
      assert e in t.list <==> e in multiset(t.list);
    }
    forall d | 0 <= d < |s.queues| ensures ConservedOn(t, d) {
      assert ConservedOn(s, d);
      StableSortKeepsCpu(s.list, d);
    }
  }

  lemma SortKeepsInv(s: State)
    requires Inv(s) && Enabled(s, Finish) && s.list != [] && s.count > 0
    ensures Inv(Apply(s, Finish))
  {
    var t := Apply(s, Finish);
    SortConserves(s);
    StableSortSorts(s.list);
    assert t.list[..|t.list| - t.count] == t.list;
    forall e | e in t.list ensures e.time <= t.last {
      OrderedLast(t.list, e);
    }
    assert t.list[|t.list| - 1] in t.list;
    assert Stamped(t) && Behind(t) && Listed(t);
  }

  /** Every step of every CPU, producer or collector keeps the invariant. */
  lemma StepKeepsInv(s: State, step: Step)
    requires Inv(s) && Enabled(s, step)
    ensures Inv(Apply(s, step))
  {
    match step
    case Produce(e) => ProduceKeepsInv(s, e);
    case Begin(ready) => BeginKeepsInv(s, ready);
    case Read(c) => ReadKeepsInv(s, c);
    case Refuse(c) => LeaveKeepsInv(s, c);
    case Drained(c) => LeaveKeepsInv(s, c);
    case Finish =>
      if s.list == [] {
        var t := Apply(s, Finish);
        forall d | 0 <= d < |s.queues| ensures ConservedOn(t, d) { assert ConservedOn(s, d); }
      } else if s.count > 0 {
        SortKeepsInv(s);
      } else {
        DeliverKeepsInv(s);
      }
  }

  lemma {:induction false} RunKeepsInv(s: State, steps: seq<Step>)
    requires Inv(s) && Runs(s, steps)
    ensures Inv(After(s, steps))
    ensures s.delivered <= After(s, steps).delivered
    decreases |steps|
  {
    if steps != [] {
      StepKeepsInv(s, steps[0]);
      RunKeepsInv(Apply(s, steps[0]), steps[1..]);
    }
  }

  // ----- main results

  /** Over every run, with any number of CPUs and any interleaving of producers
      with passes, the client sees timestamps that never decrease. */
  lemma DeliveryIsOrdered(cpus: nat, steps: seq<Step>)
    requires Runs(Initial(cpus), steps)
    ensures Ordered(After(Initial(cpus), steps).delivered)
  {
    InitialInv(cpus);
    RunKeepsInv(Initial(cpus), steps);
  }

  /** At every moment of every run, what a CPU produced is exactly what the
      client got from it, then what is listed, then what its buffer holds. */
  lemma NothingLostOrReordered(cpus: nat, steps: seq<Step>, c: nat)
    requires Runs(Initial(cpus), steps) && c < cpus
    ensures
      var s := After(Initial(cpus), steps);
      && |s.queues| == |s.produced| == cpus
      && s.produced[c] == OnCpu(s.delivered, c) + OnCpu(s.list, c) + s.queues[c]
  {
    InitialInv(cpus);
    RunKeepsInv(Initial(cpus), steps);
    CpuCountKept(Initial(cpus), steps);
    var s := After(Initial(cpus), steps);
    assert ConservedOn(s, c);
  }

  lemma {:induction false} CpuCountKept(s: State, steps: seq<Step>)
    requires Runs(s, steps)
    ensures |After(s, steps).queues| == |s.queues|
    decreases |steps|
  {
    if steps != [] {
      CpuCountKept(Apply(s, steps[0]), steps[1..]);
    }
  }

  // ----- how long a batch can be held

  /** The clock moves between any two records produced in the run. */
  predicate ClockTicks(s: State, steps: seq<Step>)
    requires Runs(s, steps)
    decreases |steps|
  {
    steps != [] ==>
      && (steps[0].Produce? ==> s.clock < steps[0].event.time)
      && ClockTicks(Apply(s, steps[0]), steps[1..])
  }

  /** How many polls the run completes. */
  function Polls(steps: seq<Step>): nat {
    if steps == [] then 0 else (if steps[0].Finish? then 1 else 0) + Polls(steps[1..])
  }

  /** A batch first held by state `from` is still listed in s. In the second
      round no buffer holds anything the list would still take. */
  ghost predicate Held(from: State, s: State, second: bool) {
    && Inv(s)
    && 0 < from.last == s.last
    && s.delivered == from.delivered
    && (forall c: nat :: OnCpu(from.list, c) <= OnCpu(s.list, c))
    && Swept(s, s.last + 1)
    && (second ==> s.count == 0 && NothingToTake(s))
  }

  ghost predicate NothingToTake(s: State) {
    forall c :: 0 <= c < |s.queues| ==> AtLeast(s.queues[c], s.last + 1)
  }

  ghost predicate HandedOver(from: State, s: State) {
    forall c: nat :: OnCpu(from.delivered, c) + OnCpu(from.list, c) <= OnCpu(s.delivered, c)
  }

  lemma HeldRead(from: State, s: State, c: nat, second: bool)
    requires Held(from, s, second) && Enabled(s, Read(c))
    ensures Held(from, Apply(s, Read(c)), second)
  {
    var t, x := Apply(s, Read(c)), s.queues[c][0];
    StepKeepsInv(s, Read(c));
    ReadSweeps(s, c, s.last + 1);
    assert x in s.queues[c];
    forall d: nat ensures OnCpu(from.list, d) <= OnCpu(t.list, d) {
      OnCpuPrefix(s.list, t.list, d);
      PrefixOf(OnCpu(from.list, d), OnCpu(s.list, d), OnCpu(t.list, d));
    }
  }

  lemma HeldStep(from: State, s: State, step: Step, second: bool)
    requires Held(from, s, second) && Enabled(s, step) && !step.Finish?
    requires step.Produce? ==> s.clock < step.event.time
    ensures Held(from, Apply(s, step), second)
  {
    var t := Apply(s, step);
    StepKeepsInv(s, step);
    match step
    case Produce(e) => ProduceSweeps(s, e, s.last + 1);
    case Begin(_) =>
    case Read(c) => HeldRead(from, s, c, second);
    case Refuse(c) => LeaveSweeps(s, c, s.last + 1);
    case Drained(c) => LeaveSweeps(s, c, s.last + 1);
  }

  /** Sorting puts a greatest timestamp last. */
  lemma SortedNewest(list: seq<Event>, x: Event)
    requires x in list && AtMost(list, x.time)
    ensures |StableSort(list)| == |list| && StableSort(list)[|list| - 1].time == x.time
  {
    var sorted := StableSort(list);
    StableSortSorts(list);
    assert x in multiset(list) && x in multiset(sorted);
    OrderedLast(sorted, x);
    var last := sorted[|sorted| - 1];
    assert last in multiset(sorted) && last in multiset(list);
  }

  /** A pass that collected something does not move the newest timestamp. */
  lemma SortKeepsNewest(s: State)
    requires Inv(s) && Enabled(s, Finish) && s.count > 0 && s.last > 0
    ensures Apply(s, Finish).last == s.last
  {
    var before := s.list[..|s.list| - s.count];
    var x := before[|before| - 1];
    assert x == s.list[|before| - 1];
    SortedNewest(s.list, x);
  }

  lemma HeldSort(from: State, s: State, second: bool)
    requires Held(from, s, second) && Enabled(s, Finish) && s.count > 0
    ensures Held(from, Apply(s, Finish), true)
  {
    var t := Apply(s, Finish);
    StepKeepsInv(s, Finish);
    SortKeepsNewest(s);
    SweptAll(s, s.last + 1);
    ListOrderedPerCpu(s);
    forall d: nat ensures OnCpu(t.list, d) == OnCpu(s.list, d) {
      StableSortKeepsCpu(s.list, d);
    }
  }

  lemma HeldDeliver(from: State, s: State, second: bool)
    requires Held(from, s, second) && Enabled(s, Finish) && s.count == 0
    ensures HandedOver(from, Apply(s, Finish))
  {
    forall c: nat ensures OnCpu(from.delivered, c) + OnCpu(from.list, c) <= OnCpu(Apply(s, Finish).delivered, c) {
      OnCpuAppend(s.delivered, s.list, c);
    }
  }

  lemma HandedOverStays(from: State, s: State, steps: seq<Step>)
    requires Inv(s) && Runs(s, steps) && HandedOver(from, s)
    ensures HandedOver(from, After(s, steps))
  {
    RunKeepsInv(s, steps);
    var t := After(s, steps);
    forall c: nat ensures OnCpu(from.delivered, c) + OnCpu(from.list, c) <= OnCpu(t.delivered, c) {
      OnCpuPrefix(s.delivered, t.delivered, c);
      PrefixOf(OnCpu(from.delivered, c) + OnCpu(from.list, c), OnCpu(s.delivered, c), OnCpu(t.delivered, c));
    }
  }

  lemma {:induction false} HeldRun(from: State, s: State, steps: seq<Step>, second: bool)
    requires Held(from, s, second) && Runs(s, steps) && ClockTicks(s, steps)
    requires Polls(steps) >= if second then 1 else 2
    ensures HandedOver(from, After(s, steps))
    decreases |steps|
  {
    var t := Apply(s, steps[0]);
    if steps[0].Finish? {
      if s.count > 0 {
        HeldSort(from, s, second);
        HeldRun(from, t, steps[1..], true);
      } else {
        HeldDeliver(from, s, second);
        StepKeepsInv(s, Finish);
        HandedOverStays(from, t, steps[1..]);
      }
    } else {
      HeldStep(from, s, steps[0], second);
      HeldRun(from, t, steps[1..], second);
    }
  }

  /** However fast the producers run: once a poll has left a batch in the list,
      any two further completed polls hand all of it to the client. */
  lemma BatchDeliveredWithinTwoPolls(cpus: nat, before: seq<Step>, after: seq<Step>)
    requires Runs(Initial(cpus), before)
    requires
      var s := After(Initial(cpus), before);
      s.pass.Idle? && s.list != [] && Runs(s, after) && ClockTicks(s, after)
    requires Polls(after) >= 2
    ensures
      var s := After(Initial(cpus), before);
      forall c: nat :: OnCpu(s.delivered, c) + OnCpu(s.list, c) <= OnCpu(After(s, after).delivered, c)
  {
    var s := After(Initial(cpus), before);
    InitialInv(cpus);
    RunKeepsInv(Initial(cpus), before);
    assert s.list[..|s.list|] == s.list;
    assert s.list[|s.list| - 1] in s.list;
    HeldRun(s, s, after, false);
  }
}
