/**
 The collector object of the BPF probe: its fields, its two callbacks and the
 poll loop. Each method is proved to take steps of the state machine in
 EventMerge, so what is proved there about every run holds of this object.
 */
module BpfApi {
  import opened EventMerge

  lemma {:induction false} RunsAppend(s: State, steps: seq<Step>, step: Step)
    requires Runs(s, steps) && Enabled(After(s, steps), step)
    ensures Runs(s, steps + [step])
    ensures After(s, steps + [step]) == Apply(After(s, steps), step)
    ensures Polls(steps + [step]) == Polls(steps) + if step.Finish? then 1 else 0
    decreases |steps|
  {
    if steps == [] {
      assert [step][1..] == [];
    } else {
      RunsAppend(Apply(s, steps[0]), steps[1..], step);
      assert (steps + [step])[1..] == steps[1..] + [step];
    }
  }

  lemma StepKeepsShape(s: State, step: Step)
    requires Shape(s) && Enabled(s, step)
    ensures Shape(Apply(s, step)) && |Apply(s, step).queues| == |s.queues|
  {
  }

  /** What the kernel side may add: known CPUs, stamps that do not go back. */
  ghost predicate Arrivals(kernel: seq<Event>, clock: nat, cpus: nat) {
    && Ordered(kernel)
    && (forall e :: e in kernel ==> e.cpu < cpus && 0 < e.time && clock <= e.time)
  }

  class BpfApi {
    var eventList: seq<Event>
    var timestampLast: nat
    var eventCount: nat
    var didLeaveEvents: bool

    // The perf buffers, and what the client callback has been given.
    var queues: seq<seq<Event>>
    var sent: seq<Event>

    ghost var pass: Pass
    ghost var clock: nat
    ghost var produced: seq<seq<Event>>

    ghost function View(): State
      reads this
    {
      State(queues, eventList, timestampLast, eventCount, didLeaveEvents, pass, clock, produced, sent)
    }

    constructor (cpus: nat)
      ensures View() == Initial(cpus)
    {
      eventList, timestampLast, eventCount, didLeaveEvents := [], 0, 0, false;
      queues, sent := seq(cpus, _ => []), [];
      pass, clock, produced := Idle, 0, seq(cpus, _ => []);
    }

    method OnPeek(time: nat) returns (keep: bool)
      modifies this`didLeaveEvents
      ensures keep == Accepts(timestampLast, time)
      ensures didLeaveEvents == (old(didLeaveEvents) || !keep)
    {
      keep := timestampLast == 0 || time <= timestampLast;
      didLeaveEvents := didLeaveEvents || !keep;
    }

    method OnEvent(e: Event)
      modifies this`eventCount, this`eventList
      ensures eventCount == old(eventCount) + 1
      ensures eventList == old(eventList) + [e]
    {
      eventCount := eventCount + 1;
      eventList := eventList + [e];
    }

    /** One CPU writes a record to its buffer. */
    method SubmitOne(e: Event)
      requires Shape(View()) && Enabled(View(), Produce(e))
      modifies this`queues, this`clock, this`produced
      ensures View() == Apply(old(View()), Produce(e)) && Shape(View())
    {
      StepKeepsShape(View(), Produce(e));
      queues := queues[e.cpu := queues[e.cpu] + [e]];
      produced := produced[e.cpu := produced[e.cpu] + [e]];
      clock := e.time;
    }

    /** The kernel submits records from `kernel`, starting at `next`, while the
        buffers are being read. */
    method Submit(kernel: seq<Event>, next: nat, burst: nat, ghost start: State, ghost done: seq<Step>)
      returns (next': nat, ghost steps: seq<Step>)
      requires next <= |kernel| && Arrivals(kernel[next..], clock, |queues|)
      requires Shape(View()) && Runs(start, done) && View() == After(start, done)
      modifies this`queues, this`clock, this`produced
      ensures next <= next' <= |kernel| && Arrivals(kernel[next'..], clock, |queues|)
      ensures Shape(View()) && Runs(start, steps) && View() == After(start, steps)
      ensures Polls(steps) == Polls(done)
      ensures |queues| == |old(queues)|
      ensures forall c :: 0 <= c < |queues| ==> |queues[c]| <= |old(queues)[c]| + (next' - next)
    {
      next', steps := next, done;
      while next' < |kernel| && next' < next + burst
        invariant next <= next' <= |kernel| && Arrivals(kernel[next'..], clock, |queues|)
        invariant Shape(View()) && Runs(start, steps) && View() == After(start, steps)
        invariant Polls(steps) == Polls(done) && |queues| == |old(queues)|
        invariant forall c :: 0 <= c < |queues| ==> |queues[c]| <= |old(queues)[c]| + (next' - next)
      {
        var e := kernel[next'];
        assert kernel[next'..][0] == e;
        RunsAppend(start, steps, Produce(e));
        ArrivalsTail(kernel[next'..], clock, |queues|);
        assert kernel[next'..][1..] == kernel[next' + 1..];
        SubmitOne(e);
        steps := steps + [Produce(e)];
        next' := next' + 1;
      }
    }

    /** Offers the next record of a CPU to the callbacks, if there is one. */
    method ReadOne(cpu: nat) returns (more: bool, ghost step: Step)
      requires Shape(View()) && pass.Reading? && cpu in pass.todo
      modifies this
      ensures Enabled(old(View()), step) && View() == Apply(old(View()), step)
      ensures !step.Finish? && Shape(View()) && clock == old(clock) && |queues| == |old(queues)|
      ensures more ==> pass.Reading? && pass.todo == old(pass.todo) && |queues[cpu]| == |old(queues)[cpu]| - 1
      ensures !more ==> pass.Reading? && pass.todo == old(pass.todo) - {cpu}
    {
      if queues[cpu] == [] {
        step := Drained(cpu);
        pass := pass.(todo := pass.todo - {cpu});
        return false, step;
      }
      var head := queues[cpu][0];
      more := OnPeek(head.time);
      if more {
        step := Read(cpu);
        queues := queues[cpu := queues[cpu][1..]];
        OnEvent(head);
        pass := pass.(owed := pass.owed[cpu := Dec(pass.owed[cpu])]);
      } else {
        step := Refuse(cpu);
        pass := pass.(todo := pass.todo - {cpu});
      }
    }

    /** Reads one CPU's buffer until it is empty or the peek callback stops it. */
    method ReadCpu(cpu: nat, kernel: seq<Event>, next: nat, bursts: seq<nat>, ghost start: State, ghost done: seq<Step>)
      returns (next': nat, rest: seq<nat>, ghost steps: seq<Step>)
      requires next <= |kernel| && Arrivals(kernel[next..], clock, |queues|)
      requires Shape(View()) && Runs(start, done) && View() == After(start, done)
      requires pass.Reading? && cpu in pass.todo
      modifies this
      ensures next' <= |kernel| && Arrivals(kernel[next'..], clock, |queues|)
      ensures Shape(View()) && Runs(start, steps) && View() == After(start, steps)
      ensures Polls(steps) == Polls(done)
      ensures pass.Reading? && pass.todo == old(pass.todo) - {cpu}
      ensures |queues| == |old(queues)|
    {
      next', rest, steps := next, bursts, done;
      var more := true;
      while more
        invariant next' <= |kernel| && Arrivals(kernel[next'..], clock, |queues|)
        invariant Shape(View()) && Runs(start, steps) && View() == After(start, steps)
        invariant Polls(steps) == Polls(done) && |queues| == |old(queues)|
        invariant pass.Reading? && pass.todo == old(pass.todo) - (if more then {} else {cpu})
        decreases more, |kernel| - next' + |queues[cpu]|
      {
        ghost var size, at := |queues[cpu]|, next';
        var burst := 0;
        if rest != [] {
          burst, rest := rest[0], rest[1..];
        }
        next', steps := Submit(kernel, next', burst, start, steps);
        assert |queues[cpu]| <= size + (next' - at);
        ghost var step;
        more, step := ReadOne(cpu);
        RunsAppend(start, steps, step);
        steps := steps + [step];
      }
    }

    /** Sorts the list, or hands it to the client when nothing was collected. */
    method HarvestEvents()
      requires Enabled(View(), Finish)
      modifies this
      ensures View() == Apply(old(View()), Finish)
    {
      var collectedEvents := eventCount > 0;
      if eventList != [] {
        if collectedEvents {
          StableSortLength(eventList);
          eventList := StableSort(eventList);
          timestampLast := eventList[|eventList| - 1].time;
        }
        if !collectedEvents {
          var i := 0;
          while i < |eventList|
            invariant 0 <= i <= |eventList|
            invariant sent == old(sent) + eventList[..i]
            invariant eventList == old(eventList) && eventCount == old(eventCount) && queues == old(queues)
            invariant didLeaveEvents == old(didLeaveEvents) && timestampLast == old(timestampLast)
            invariant produced == old(produced) && clock == old(clock)
          {
            sent := sent + [eventList[i]];
            i := i + 1;
          }
          assert eventList[..i] == eventList;
          eventList := [];
          timestampLast := 0;
        }
      }
      eventCount := 0;
      pass := Idle;
    }

    method BeginPass(ready: seq<nat>)
      requires Shape(View()) && Enabled(View(), Begin(set c | c in ready))
      modifies this`didLeaveEvents, this`pass
      ensures View() == Apply(old(View()), Begin(set c | c in ready))
      ensures Shape(View())
    {
      didLeaveEvents := false;
      var held := queues;
      pass := Reading(set c | c in ready, seq(|held|, c requires 0 <= c < |held| => |held[c]|));
      assert pass.owed == Apply(old(View()), Begin(set c | c in ready)).pass.owed;
    }

    method ReadReady(ready: seq<nat>, kernel: seq<Event>, bursts: seq<nat>, ghost start: State, ghost done: seq<Step>)
      returns (ghost steps: seq<Step>)
      requires Shape(View()) && Runs(start, done) && View() == After(start, done)
      requires Arrivals(kernel, clock, |queues|)
      requires pass.Reading? && pass.todo == (set c | c in ready)
      requires forall i, j :: 0 <= i < j < |ready| ==> ready[i] != ready[j]
      modifies this
      ensures Shape(View()) && Runs(start, steps) && View() == After(start, steps)
      ensures Polls(steps) == Polls(done)
      ensures pass.Reading? && pass.todo == {}
    {
      assert kernel[0..] == kernel && ready[0..] == ready;
      steps := done;
      var next: nat, rest := 0, bursts;
      var i := 0;
      while i < |ready|
        invariant 0 <= i <= |ready|
        invariant next <= |kernel| && Arrivals(kernel[next..], clock, |queues|)
        invariant Shape(View()) && Runs(start, steps) && View() == After(start, steps) && Polls(steps) == Polls(done)
        invariant pass.Reading? && pass.todo == set c | c in ready[i..]
      {
        assert ready[i..] == [ready[i]] + ready[i + 1..];
        next, rest, steps := ReadCpu(ready[i], kernel, next, rest, start, steps);
        i := i + 1;
      }
    }

    /** One call of PollEvents. `ready` lists the CPUs the poll reports, `kernel`
        what is submitted meanwhile, in bursts between the records read. A poll
        that fails reads nothing. */
    method PollEvents(ready: seq<nat>, kernel: seq<Event>, bursts: seq<nat>, pollFails: bool)
      returns (rc: int, ghost steps: seq<Step>)
      requires Shape(View()) && pass.Idle?
      requires Enabled(View(), Begin(set c | c in ready))
      requires forall i, j :: 0 <= i < j < |ready| ==> ready[i] != ready[j]
      requires Arrivals(kernel, clock, |queues|)
      modifies this
      ensures Shape(View()) && pass.Idle?
      ensures Runs(old(View()), steps) && View() == After(old(View()), steps)
      ensures rc == (if pollFails && !old(didLeaveEvents) then -1 else 0)
      ensures Polls(steps) == rc + 1
      ensures old(Inv(View())) ==> Inv(View()) && Ordered(sent) && old(sent) <= sent
    {
      ghost var start := View();
      if !didLeaveEvents && pollFails {
        return -1, [];
      }
      ghost var step := Begin(set c | c in ready);
      RunsAppend(start, [], step);
      BeginPass(ready);
      steps := [] + [step];
      steps := ReadReady(ready, kernel, bursts, start, steps);
      RunsAppend(start, steps, Finish);
      HarvestEvents();
      steps := steps + [Finish];
      rc := 0;
      if Inv(start) {
        RunKeepsInv(start, steps);
      }
    }
  }

  lemma ArrivalsTail(kernel: seq<Event>, clock: nat, cpus: nat)
    requires Arrivals(kernel, clock, cpus) && kernel != []
    ensures Arrivals(kernel[1..], kernel[0].time, cpus)
  {
  }
}
