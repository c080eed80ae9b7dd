/**
 Enabling and disabling the kernel module while hooks run on every CPU.

 Hooks do not take the state lock: a hook tests the enabled flag and then
 increments the counter of the CPU it is on; it decrements the counter of the
 CPU it has reached by the time it leaves. Disabling lowers the flag, waits,
 and adds the counters up one CPU after another, until they come to zero; then
 it frees the tracking tables. One step per store, read or locked section.
 */
module ModuleState {

  datatype Mode = Enabled | Disabling | Disabled | Enabling | Broken

  /** Where a thread is inside the enable or disable call. */
  datatype Pc =
    | Delaying                          // flag lowered, waiting for late hooks
    | Scanning(next: nat, sum: int)     // adding up the counters
    | Freeing                           // about to free the tables
    | Freed                             // about to set the state to disabled
    | Allocating                        // about to set up the tables
    | Allocated                         // about to set the state to enabled
    | Published                         // state is enabled, flag not yet raised

  datatype State = State(
    mode: Mode,              // module_state
    flag: bool,              // module_enabled
    tables: bool,            // the tracking tables exist
    counters: seq<int>,      // module_active_inuse, per CPU
    entering: nat,           // hooks between the test of the flag and the increment
    active: nat,             // hooks between the increment and the decrement
    calls: map<nat, Pc>)     // threads inside an enable or disable call

  datatype Step =
    | CallDisable(t: nat)
    | DelayOver(t: nat)
    | ReadCounter(t: nat)
    | EndScan(t: nat)
    | FreeTables(t: nat)
    | SetDisabled(t: nat)
    | CallEnable(t: nat)
    | AllocFails(t: nat)
    | AllocTables(t: nat)
    | SetEnabled(t: nat)
    | RaiseFlag(t: nat)
    | HookTests
    | HookEnters(cpu: nat)
    | HookLeaves(cpu: nat)

  predicate At(s: State, t: nat, pc: Pc) {
    t in s.calls && s.calls[t] == pc
  }

  predicate InScan(s: State, t: nat) {
    t in s.calls && s.calls[t].Scanning?
  }

  predicate CanStep(s: State, step: Step) {
    match step
    case CallDisable(t) => t !in s.calls
    case CallEnable(t) => t !in s.calls
    case DelayOver(t) => At(s, t, Delaying)
    case ReadCounter(t) => InScan(s, t) && s.calls[t].next < |s.counters|
    case EndScan(t) => InScan(s, t) && s.calls[t].next >= |s.counters|
    case FreeTables(t) => At(s, t, Freeing)
    case SetDisabled(t) => At(s, t, Freed)
    case AllocFails(t) => At(s, t, Allocating)
    case AllocTables(t) => At(s, t, Allocating)
    case SetEnabled(t) => At(s, t, Allocated)
    case RaiseFlag(t) => At(s, t, Published)
    case HookTests => s.flag
    case HookEnters(cpu) => s.entering > 0 && cpu < |s.counters|
    case HookLeaves(cpu) => s.active > 0 && cpu < |s.counters|
  }

  function Apply(s: State, step: Step): State
    requires CanStep(s, step)
  {
    match step
    case CallDisable(t) =>
      // Any other state refuses, or is a no-op when already disabled.
      if s.mode == Enabled then s.(mode := Disabling, flag := false, calls := s.calls[t := Delaying])
      else s
    case CallEnable(t) =>
      if s.mode == Disabled then s.(mode := Enabling, calls := s.calls[t := Allocating]) else s
    case DelayOver(t) => s.(calls := s.calls[t := Scanning(0, 0)])
    case ReadCounter(t) =>
      var pc := s.calls[t];
      s.(calls := s.calls[t := Scanning(pc.next + 1, pc.sum + s.counters[pc.next])])
    case EndScan(t) =>
      s.(calls := s.calls[t := if s.calls[t].sum != 0 then Scanning(0, 0) else Freeing])
    case FreeTables(t) => s.(tables := false, calls := s.calls[t := Freed])
    case SetDisabled(t) => s.(mode := Disabled, calls := s.calls - {t})
    case AllocFails(t) => s.(mode := Disabled, calls := s.calls - {t})
    case AllocTables(t) => s.(tables := true, calls := s.calls[t := Allocated])
    case SetEnabled(t) => s.(mode := Enabled, calls := s.calls[t := Published])
    case RaiseFlag(t) => s.(flag := true, calls := s.calls - {t})
    case HookTests => s.(entering := s.entering + 1)
    case HookEnters(cpu) =>
      s.(entering := s.entering - 1, active := s.active + 1,
         counters := s.counters[cpu := s.counters[cpu] + 1])
    case HookLeaves(cpu) =>
      s.(active := s.active - 1, counters := s.counters[cpu := s.counters[cpu] - 1])
  }

  predicate Runs(s: State, steps: seq<Step>)
    decreases |steps|
  {
    steps == [] || (CanStep(s, steps[0]) && Runs(Apply(s, steps[0]), steps[1..]))
  }

  function After(s: State, steps: seq<Step>): State
    requires Runs(s, steps)
    decreases |steps|
  {
    if steps == [] then s else After(Apply(s, steps[0]), steps[1..])
  }

  function Initial(cpus: nat): State {
    State(Disabled, false, false, seq(cpus, _ => 0), 0, 0, map[])
  }

  function Sum(c: seq<int>): int {
    if c == [] then 0 else Sum(c[..|c| - 1]) + c[|c| - 1]
  }

  lemma {:induction false} SumUpdate(c: seq<int>, i: nat, v: int)
    requires i < |c|
    ensures Sum(c[i := v]) == Sum(c) - c[i] + v
  {
    var n := |c| - 1;
    if i < n {
      SumUpdate(c[..n], i, v);
      assert c[i := v][..n] == c[..n][i := v];
    } else {
      assert c[i := v][..n] == c[..n];
    }
  }

  /** The sum of the first k counters after one counter went down. */
  lemma SumPrefixDown(c: seq<int>, i: nat, k: nat)
    requires i < |c| && k <= |c|
    ensures Sum(c[i := c[i] - 1][..k]) <= Sum(c[..k])
  {
    if i < k {
      assert c[i := c[i] - 1][..k] == c[..k][i := c[i] - 1];
      SumUpdate(c[..k], i, c[i] - 1);
    } else {
      assert c[i := c[i] - 1][..k] == c[..k];
    }
  }

  lemma {:induction false} SumZeros(n: nat)
    ensures Sum(seq(n, _ => 0)) == 0
  {
    if n > 0 {
      SumZeros(n - 1);
      assert seq(n, _ => 0)[..n - 1] == seq(n - 1, _ => 0);
    }
  }

  // ----- safety

  /** A hook that got past the flag never runs without the tracking tables. */
  predicate Safe(s: State) {
    s.active > 0 || s.entering > 0 ==> s.tables
  }

  /** Disabling is not accepted while an enabling thread stands between its two
      stores, and the delay outlasts every hook that saw the flag up. */
  predicate Orderly(s: State, step: Step) {
    && (step.CallDisable? && s.mode == Enabled ==> s.calls == map[])
    && (step.DelayOver? ==> s.entering == 0)
  }

  predicate OrderlyRun(s: State, steps: seq<Step>)
    requires Runs(s, steps)
    decreases |steps|
  {
    steps != [] ==> Orderly(s, steps[0]) && OrderlyRun(Apply(s, steps[0]), steps[1..])
  }

  predicate Quiet(s: State) {
    s.entering == 0 && s.active == 0
  }

  /** What holds while one thread is inside a call, by where it is. */
  ghost predicate InCall(s: State, pc: Pc) {
    && !s.flag
    && match pc
       case Delaying => s.mode == Disabling && s.tables
       case Scanning(next, sum) =>
         && s.mode == Disabling && s.tables && s.entering == 0
         && next <= |s.counters| && Sum(s.counters[..next]) <= sum
       case Freeing => s.mode == Disabling && s.tables && Quiet(s)
       case Freed => s.mode == Disabling && !s.tables && Quiet(s)
       case Allocating => s.mode == Enabling && !s.tables && Quiet(s)
       case Allocated => s.mode == Enabling && s.tables && Quiet(s)
       case Published => s.mode == Enabled && s.tables && Quiet(s)
  }

  ghost predicate Inv(s: State) {
    && Sum(s.counters) == s.active
    && if s.calls == map[] then
         || (s.mode == Enabled && s.flag && s.tables)
         || (s.mode == Disabled && !s.flag && !s.tables && Quiet(s))
       else
         exists t: nat, pc :: s.calls == map[t := pc] && InCall(s, pc)
  }

  lemma HookKeepsInv(s: State, step: Step)
    requires Inv(s) && CanStep(s, step) && (step.HookTests? || step.HookEnters? || step.HookLeaves?)
    ensures Inv(Apply(s, step))
  {
    var s' := Apply(s, step);
    if step.HookEnters? {
      SumUpdate(s.counters, step.cpu, s.counters[step.cpu] + 1);
    }
    if step.HookLeaves? {
      SumUpdate(s.counters, step.cpu, s.counters[step.cpu] - 1);
    }
    if s.calls != map[] {
      var t: nat, pc :| s.calls == map[t := pc] && InCall(s, pc);
      if step.HookLeaves? && pc.Scanning? {
        SumPrefixDown(s.counters, step.cpu, pc.next);
      }
      assert s'.calls == map[t := pc] && InCall(s', pc);
    }
  }

  /** A scan that came to zero means no hook is active: the counters read only
      went down since, and together they count the active hooks. */
  lemma ZeroScanMeansQuiet(s: State, pc: Pc)
    requires Sum(s.counters) == s.active && InCall(s, pc) && pc.Scanning?
    requires pc.next == |s.counters| && pc.sum == 0
    ensures Quiet(s)
  {
    assert s.counters[..|s.counters|] == s.counters;
  }

  lemma CallKeepsInv(s: State, step: Step)
    requires Inv(s) && CanStep(s, step) && Orderly(s, step)
    requires !(step.HookTests? || step.HookEnters? || step.HookLeaves?)
    ensures Inv(Apply(s, step))
  {
    var s' := Apply(s, step);
    if s.calls == map[] {
      if s' != s {
        var pc := s'.calls[step.t];
        assert s'.calls == map[step.t := pc] && InCall(s', pc);
      }
    } else {
      var t: nat, pc :| s.calls == map[t := pc] && InCall(s, pc);
      if step.t == t {
        if step.EndScan? && pc.sum == 0 {
          ZeroScanMeansQuiet(s, pc);
        }
        if step.ReadCounter? {
          assert s.counters[..pc.next + 1][..pc.next] == s.counters[..pc.next];
        }
        if t in s'.calls {
          var pc' := s'.calls[t];
          assert s'.calls == map[t := pc'] && InCall(s', pc');
        } else {
          assert s'.calls == map[];
        }
      }
    }
  }

  lemma {:induction false} OrderlyRunKeepsInv(s: State, steps: seq<Step>)
    requires Inv(s) && Runs(s, steps) && OrderlyRun(s, steps)
    ensures Inv(After(s, steps))
    decreases |steps|
  {
    if steps != [] {
      var step := steps[0];
      if step.HookTests? || step.HookEnters? || step.HookLeaves? {
        HookKeepsInv(s, step);
      } else {
        CallKeepsInv(s, step);
      }
      OrderlyRunKeepsInv(Apply(s, step), steps[1..]);
    }
  }

  /** In every orderly run, on any number of CPUs, with any number of threads
      calling enable and disable and hooks moving between CPUs, no hook is past
      the flag while the tables are gone. */
  lemma TablesOutliveHooks(cpus: nat, steps: seq<Step>)
    requires Runs(Initial(cpus), steps) && OrderlyRun(Initial(cpus), steps)
    ensures Safe(After(Initial(cpus), steps))
  {
    SumZeros(cpus);
    OrderlyRunKeepsInv(Initial(cpus), steps);
  }

  // ----- both conditions are needed

  lemma {:induction false} RunsConcat(s: State, a: seq<Step>, b: seq<Step>)
    requires Runs(s, a) && Runs(After(s, a), b)
    ensures Runs(s, a + b) && After(s, a + b) == After(After(s, a), b)
    decreases |a|
  {
    if a == [] {
      assert a + b == b;
    } else {
      RunsConcat(Apply(s, a[0]), a[1..], b);
      assert (a + b)[1..] == a[1..] + b;
    }
  }

  lemma RunsOne(s: State, step: Step)
    requires CanStep(s, step)
    ensures Runs(s, [step]) && After(s, [step]) == Apply(s, step)
  {
    assert [step][1..] == [];
  }

  /** A scan with nothing in between adds up all the counters. */
  lemma {:induction false} ScanAlone(s: State, t: nat) returns (steps: seq<Step>)
    requires InScan(s, t) && s.calls[t].next <= |s.counters|
    ensures Runs(s, steps)
    ensures
      var pc := s.calls[t];
      var sum := pc.sum + Sum(s.counters) - Sum(s.counters[..pc.next]);
      After(s, steps) == s.(calls := s.calls[t := Scanning(|s.counters|, sum)])
    decreases |s.counters| - s.calls[t].next
  {
    var pc := s.calls[t];
    if pc.next == |s.counters| {
      steps := [];
      assert s.counters[..pc.next] == s.counters;
      assert s.calls[t := pc] == s.calls;
    } else {
      var s' := Apply(s, ReadCounter(t));
      assert s.counters[..pc.next + 1][..pc.next] == s.counters[..pc.next];
      var rest := ScanAlone(s', t);
      steps := [ReadCounter(t)] + rest;
      assert steps[1..] == rest;
      var end := After(s', rest).calls[t];
      assert s'.calls[t := end] == s.calls[t := end];
    }
  }

  /** The active hooks leave, all on CPU 0. */
  lemma {:induction false} AllLeave(s: State) returns (steps: seq<Step>)
    requires |s.counters| > 0
    ensures Runs(s, steps)
    ensures
      After(s, steps) == s.(active := 0, counters := s.counters[0 := s.counters[0] - s.active])
    ensures Sum(After(s, steps).counters) == Sum(s.counters) - s.active
    decreases s.active
  {
    if s.active == 0 {
      steps := [];
      assert s.counters[0 := s.counters[0]] == s.counters;
    } else {
      SumUpdate(s.counters, 0, s.counters[0] - 1);
      var s' := Apply(s, HookLeaves(0));
      var rest := AllLeave(s');
      steps := [HookLeaves(0)] + rest;
      assert steps[1..] == rest;
      assert s'.counters[0 := s'.counters[0] - s'.active] == s.counters[0 := s.counters[0] - s.active];
    }
  }

  /** From a scan about to start with every counter at zero in sum, the tables
      can go while a hook is past the flag. */
  lemma FreedUnderHook(s: State, t: nat) returns (steps: seq<Step>)
    requires At(s, t, Scanning(0, 0)) && Sum(s.counters) == 0 && (s.entering > 0 || s.flag)
    ensures Runs(s, steps) && !Safe(After(s, steps))
  {
    var scan := ScanAlone(s, t);
    var a := After(s, scan);
    assert s.counters[..0] == [];
    var b := Apply(a, EndScan(t));
    RunsOne(a, EndScan(t));
    RunsConcat(s, scan, [EndScan(t)]);
    steps := scan + [EndScan(t)];
    if s.flag {
      RunsOne(b, HookTests);
      RunsConcat(s, steps, [HookTests]);
      steps := steps + [HookTests];
      b := Apply(b, HookTests);
    }
    RunsOne(b, FreeTables(t));
    RunsConcat(s, steps, [FreeTables(t)]);
    steps := steps + [FreeTables(t)];
  }

  /** If disabling is accepted while an enabling thread stands between its two
      stores, some continuation frees the tables under a hook. */
  lemma DisableBetweenStoresUnsafe(s: State, e: nat, d: nat) returns (steps: seq<Step>)
    requires Inv(s) && s.calls == map[e := Published] && d != e
    ensures steps != [] && steps[0] == CallDisable(d)
    ensures Runs(s, steps) && !Safe(After(s, steps))
  {
    assert s.mode == Enabled && Quiet(s) && Sum(s.counters) == 0 by {
      assert e in s.calls && s.calls[e] == Published;
      var t: nat, pc :| s.calls == map[t := pc] && InCall(s, pc);
      assert t in s.calls;
    }
    var s1 := Apply(s, CallDisable(d));
    var s2 := Apply(s1, DelayOver(d));
    var s3 := Apply(s2, RaiseFlag(e));
    var rest := FreedUnderHook(s3, d);
    steps := [CallDisable(d), DelayOver(d), RaiseFlag(e)];
    assert steps[1..] == [DelayOver(d), RaiseFlag(e)] && steps[1..][1..] == [RaiseFlag(e)];
    RunsOne(s2, RaiseFlag(e));
    assert After(s, steps) == s3;
    RunsConcat(s, steps, rest);
    steps := steps + rest;
  }

  /** If the delay ends before a hook that saw the flag up has counted itself,
      some continuation frees the tables under that hook. */
  lemma ShortDelayUnsafe(s: State, t: nat) returns (steps: seq<Step>)
    requires Inv(s) && s.calls == map[t := Delaying] && s.entering > 0 && |s.counters| > 0
    ensures steps != [] && steps[0] == DelayOver(t)
    ensures Runs(s, steps) && !Safe(After(s, steps))
  {
    var s1 := Apply(s, DelayOver(t));
    RunsOne(s, DelayOver(t));
    var leave := AllLeave(s1);
    RunsConcat(s, [DelayOver(t)], leave);
    var rest := FreedUnderHook(After(s1, leave), t);
    RunsConcat(s, [DelayOver(t)] + leave, rest);
    steps := [DelayOver(t)] + leave + rest;
  }

  /** The window between the two stores is reachable: a thread that enables an
      idle module passes through it. */
  lemma WindowIsReached(cpus: nat, e: nat) returns (steps: seq<Step>)
    ensures Runs(Initial(cpus), steps) && OrderlyRun(Initial(cpus), steps)
    ensures Inv(After(Initial(cpus), steps)) && After(Initial(cpus), steps).calls == map[e := Published]
  {
    var s0 := Initial(cpus);
    SumZeros(cpus);
    steps := [CallEnable(e), AllocTables(e), SetEnabled(e)];
    var s1 := Apply(s0, steps[0]);
    var s2 := Apply(s1, steps[1]);
    assert steps[1..] == [AllocTables(e), SetEnabled(e)] && steps[1..][1..] == [SetEnabled(e)];
    RunsOne(s2, SetEnabled(e));
    assert OrderlyRun(s2, [SetEnabled(e)]) by { assert [SetEnabled(e)][1..] == []; }
    assert OrderlyRun(s1, [AllocTables(e), SetEnabled(e)]);
    OrderlyRunKeepsInv(s0, steps);
  }
}
