/**
 The enable and disable calls as one thread runs them, with hooks finishing on
 any CPU between any two of its actions.
 */
module DrainLoop {
  import opened ModuleState

  class ModuleControl {
    var moduleState: Mode
    var moduleEnabled: bool
    var tables: bool
    var counters: seq<int>
    // The hooks, by where they are.
    var entering: nat
    var active: nat

    /** The states in which no enable or disable call is in progress, and the
        two a second caller can find. */
    ghost predicate Valid()
      reads this
    {
      && counters != []
      && Sum(counters) == active
      && (moduleState == Enabled ==> moduleEnabled && tables)
      && (moduleState == Disabled ==> !moduleEnabled && !tables && entering == 0 && active == 0)
    }

    constructor (cpus: nat)
      requires cpus > 0
      ensures Valid() && moduleState == Disabled
    {
      moduleState, moduleEnabled, tables := Disabled, false, false;
      counters, entering, active := seq(cpus, _ => 0), 0, 0;
      SumZeros(cpus);
    }

    /** Any number of active hooks finish, each on the CPU it has reached. */
    method HooksFinish()
      requires counters != [] && Sum(counters) == active
      modifies this`counters, this`active
      ensures |counters| == |old(counters)| && Sum(counters) == active <= old(active)
      ensures forall i :: 0 <= i < |counters| ==> counters[i] <= old(counters)[i]
    {
      while *
        invariant |counters| == |old(counters)| && Sum(counters) == active <= old(active)
        invariant forall i :: 0 <= i < |counters| ==> counters[i] <= old(counters)[i]
        decreases active
      {
        if active == 0 {
          break;
        }
        HookFinishes();
      }
    }

    method HookFinishes()
      requires counters != [] && Sum(counters) == active && active > 0
      modifies this`counters, this`active
      ensures |counters| == |old(counters)| && Sum(counters) == active == old(active) - 1
      ensures forall i :: 0 <= i < |counters| ==> counters[i] <= old(counters)[i]
    {
      var cpu: nat :| cpu < |counters|;
      SumUpdate(counters, cpu, counters[cpu] - 1);
      counters := counters[cpu := counters[cpu] - 1];
      active := active - 1;
    }

    /** The short delay after the flag is lowered: every hook that saw it up
        gets to increment a counter. */
    method Delay()
      requires counters != [] && Sum(counters) == active
      modifies this`counters, this`active, this`entering
      ensures counters != [] && Sum(counters) == active && entering == 0
    {
      while entering > 0
        invariant counters != [] && Sum(counters) == active
        decreases entering
      {
        HooksFinish();
        var cpu: nat :| cpu < |counters|;
        SumUpdate(counters, cpu, counters[cpu] + 1);
        counters := counters[cpu := counters[cpu] + 1];
        entering, active := entering - 1, active + 1;
      }
    }

    /** One pass over the counters. What it adds up is at least what the
        counters come to when it ends, and at most what they came to before. */
    method Scan() returns (sum: int)
      requires counters != [] && Sum(counters) == active
      modifies this`counters, this`active
      ensures counters != [] && Sum(counters) == active <= sum <= old(active)
    {
      sum := 0;
      var cpu := 0;
      ghost var cpus := |counters|;
      ghost var whole := active;
      assert counters[..0] == [];
      while cpu < |counters|
        invariant |counters| == cpus && 0 <= cpu <= cpus && counters != []
        invariant Sum(counters) == active
        invariant Sum(counters[..cpu]) <= sum
        invariant sum + active - Sum(counters[..cpu]) <= whole
      {
        ghost var before := counters;
        HooksFinish();
        SplitDrop(before, counters, cpu);
        sum := sum + counters[cpu];
        assert counters[..cpu + 1][..cpu] == counters[..cpu];
        cpu := cpu + 1;
      }
      assert counters[..cpus] == counters;
    }

    /** Frees the tracking tables; nothing may be using them. */
    method FreeTables()
      requires active == 0 && entering == 0
      modifies this`tables
      ensures !tables
    {
      tables := false;
    }

    /** Sleeping lets at least one hook finish, if any is active. */
    method Sleep()
      requires counters != [] && Sum(counters) == active
      modifies this`counters, this`active
      ensures counters != [] && Sum(counters) == active
      ensures active <= if old(active) > 0 then old(active) - 1 else 0
    {
      if active > 0 {
        HookFinishes();
      }
      HooksFinish();
    }

    method DisableModule() returns (ok: bool)
      requires Valid()
      modifies this
      ensures old(moduleState) != Enabled ==> unchanged(this) && ok == (old(moduleState) == Disabled)
      ensures old(moduleState) == Enabled ==>
        && ok && moduleState == Disabled && !moduleEnabled && !tables && active == 0 && entering == 0
      ensures Valid()
    {
      match moduleState {
        case Disabled => return true;
        case Disabling => return false;
        case Enabling => return false;
        case Broken => return false;
        case Enabled =>
      }
      moduleState, moduleEnabled := Disabling, false;
      Delay();
      while true
        invariant moduleState == Disabling && !moduleEnabled && tables
        invariant counters != [] && Sum(counters) == active && entering == 0
        decreases active
      {
        var activeCallCount := Scan();
        if activeCallCount != 0 {
          Sleep();
          continue;
        }
        break;
      }
      FreeTables();
      moduleState := Disabled;
      ok := true;
    }

    method EnableModule(memoryInitialized: bool) returns (ok: bool)
      requires Valid()
      modifies this`moduleState, this`moduleEnabled, this`tables
      ensures Valid()
      ensures ok <==> (old(moduleState) == Enabled || (old(moduleState) == Disabled && memoryInitialized))
      ensures moduleState == (if ok then Enabled else old(moduleState))
      ensures !ok || old(moduleState) == Enabled ==> moduleEnabled == old(moduleEnabled) && tables == old(tables)
    {
      match moduleState {
        case Disabling => return false;
        case Enabling => return false;
        case Broken => return false;
        case Enabled => return true;
        case Disabled =>
      }
      moduleState := Enabling;
      if !memoryInitialized {
        moduleState := Disabled;
        return false;
      }
      tables := true;
      moduleState := Enabled;
      moduleEnabled := true;
      ok := true;
    }
  }

  /** Counters that only go down lose from their first k and from the rest. */
  lemma {:induction false} SplitDrop(a: seq<int>, b: seq<int>, k: nat)
    requires |a| == |b| && k <= |a|
    requires forall i :: 0 <= i < |a| ==> b[i] <= a[i]
    ensures Sum(b) - Sum(b[..k]) <= Sum(a) - Sum(a[..k])
    ensures Sum(b[..k]) <= Sum(a[..k])
    decreases |a|
  {
    var n := |a| - 1;
    if k == |a| {
      assert a[..k] == a && b[..k] == b;
      if k > 0 {
        SplitDrop(a[..n], b[..n], n);
        assert a[..n][..n] == a[..n] && b[..n][..n] == b[..n];
      }
    } else {
      SplitDrop(a[..n], b[..n], k);
      assert a[..n][..k] == a[..k] && b[..n][..k] == b[..k];
    }
  }
}
