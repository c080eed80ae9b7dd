/**
 The inode cache under concurrent callers. A call begins, looks at the enabled flag
 and takes the lock of its bucket, in three steps; disabling sweeps the buckets one
 by one and lowers the flag at the end.
 */
module InodeRuns {
  import opened HashBuckets
  import opened InodeCache

  /** next: the buckets before this one have been emptied. */
  datatype Sweep = NoSweep | Sweeping(next: nat)

  /** A call that has begun; tested: it has found the cache on. */
  datatype Pending = Pending(op: Op, tested: bool)

  datatype State = State(enabled: bool, sweep: Sweep, store: Store<nat>, calls: map<nat, Pending>)

  datatype Step =
    | Call(id: nat, op: Op)        // a call begins; for an answer, the client's response is taken
    | Test(id: nat)                // it looks at the flag, and returns when the cache is off
    | Section(id: nat)             // its locked section, after which it returns
    | ClearOne(bucket: nat)        // inode_cache_clear, one bucket
    | BeginDisable
    | SweepOne
    | EndDisable
    | Enable

  ghost predicate Moves(s: State, step: Step, t: State, g: Geometry)
    requires g.buckets > 0
  {
    match step
    case Call(id, op) => id !in s.calls && t == s.(calls := s.calls[id := Pending(op, false)])
    case Test(id) =>
      && id in s.calls && !s.calls[id].tested
      && t == if s.enabled && s.calls[id].op.addr != 0 then s.(calls := s.calls[id := s.calls[id].(tested := true)])
              else s.(calls := s.calls - {id})
    case Section(id) =>
      && id in s.calls && s.calls[id].tested
      && Next(s.store, s.calls[id].op, t.store, g) && t == s.(store := t.store, calls := s.calls - {id})
    case ClearOne(i) => i < g.buckets && t == s.(store := EraseBucket(s.store, g, i))
    case BeginDisable => s.enabled && s.sweep == NoSweep && t == s.(sweep := Sweeping(0))
    case SweepOne =>
      && s.sweep.Sweeping? && s.sweep.next < g.buckets
      && t == s.(store := EraseBucket(s.store, g, s.sweep.next), sweep := Sweeping(s.sweep.next + 1))
    case EndDisable => s.sweep == Sweeping(g.buckets) && t == s.(enabled := false, sweep := NoSweep)
    case Enable => s.sweep == NoSweep && t == s.(enabled := true)
  }

  const INITIAL: State := State(true, NoSweep, Store(map[], 0), map[])

  ghost predicate IsRun(run: seq<State>, steps: seq<Step>, g: Geometry) {
    && g.Valid()
    && |run| == |steps| + 1
    && run[0] == INITIAL
    && (forall i :: 0 <= i < |steps| ==> Moves(run[i], steps[i], run[i + 1], g))
  }

  /** What a read-only open gets back as the hit count is above zero, so it is let
      through without a stall. */
  predicate Live(s: Store<nat>, addr: nat) {
    addr in s.recs && Seen(s.recs[addr].val) > 0
  }

  ghost predicate Skips(run: seq<State>, steps: seq<Step>, g: Geometry, n: int, addr: nat)
    requires IsRun(run, steps, g)
  {
    && 0 <= n < |steps| && steps[n].Section? && steps[n].id in run[n].calls
    && run[n].calls[steps[n].id].op.ReadOpen? && run[n].calls[steps[n].id].op.addr == addr
    && Live(run[n].store, addr)
  }

  /** The client has enabled the address, and the answer is still on its way. */
  predicate AnswerPending(s: State, id: nat, addr: nat) {
    id in s.calls && s.calls[id].op == Answer(addr, true)
  }

  /** The client's enabling answer for the address takes effect in step i. */
  ghost predicate Enables(run: seq<State>, steps: seq<Step>, g: Geometry, i: int, addr: nat)
    requires IsRun(run, steps, g) && 0 <= i < |steps|
  {
    steps[i].Section? && AnswerPending(run[i], steps[i].id, addr) && addr in run[i].store.recs
  }

  /** The answer that takes effect in step i was given in step c. */
  ghost predicate AnsweredIn(run: seq<State>, steps: seq<Step>, g: Geometry, addr: nat, c: int, i: int)
    requires IsRun(run, steps, g)
  {
    && 0 <= c < i < |steps| && Enables(run, steps, g, i, addr)
    && steps[c] == Call(steps[i].id, Answer(addr, true))
    && (forall k :: c < k <= i ==> AnswerPending(run[k], steps[i].id, addr))
  }

  /** Step j takes the address out of the cache. */
  ghost predicate TakesOut(run: seq<State>, steps: seq<Step>, g: Geometry, j: int, addr: nat)
    requires IsRun(run, steps, g) && 0 <= j < |steps|
  {
    match steps[j]
    case Section(id) => id in run[j].calls && Removes(run[j].calls[id].op, addr)
    case ClearOne(i) => g.Index(addr) == i
    case SweepOne => run[j].sweep == Sweeping(g.Index(addr))
    case _ => false
  }

  /** In step j a call returns that was to take the address out: a write-open, an
      unlink, a freed inode, a denial or an answer that does not enable. It has done
      so, or has found the cache off and left it. */
  ghost predicate ReturnsRemoval(run: seq<State>, steps: seq<Step>, g: Geometry, j: int, addr: nat)
    requires IsRun(run, steps, g) && 0 <= j < |steps|
  {
    || TakesOut(run, steps, g, j, addr)
    || (steps[j].Test? && !run[j].enabled && steps[j].id in run[j].calls && Removes(run[j].calls[steps[j].id].op, addr))
  }

  /** The client enabled the address in step c, this took effect in step i, and the
      entry has been there since. */
  ghost predicate HeldSince(run: seq<State>, steps: seq<Step>, g: Geometry, addr: nat, c: int, i: int, n: int)
    requires IsRun(run, steps, g)
  {
    && AnsweredIn(run, steps, g, addr, c, i) && i < n <= |steps|
    && (forall j :: i < j < n ==> !TakesOut(run, steps, g, j, addr))
    && (forall j :: i < j <= n ==> Live(run[j].store, addr))
  }

  /** The client enabled the address in step c, and since then nothing that should end
      that has returned. */
  ghost predicate TrustedSince(run: seq<State>, steps: seq<Step>, g: Geometry, addr: nat, c: int, i: int, n: int)
    requires IsRun(run, steps, g)
  {
    && AnsweredIn(run, steps, g, addr, c, i) && i < n <= |steps|
    && (forall j :: c < j < n ==> !ReturnsRemoval(run, steps, g, j, addr))
  }

  /** No answer of the client accounts for the open in step n. */
  ghost predicate Untrusted(run: seq<State>, steps: seq<Step>, g: Geometry, addr: nat, n: int)
    requires IsRun(run, steps, g)
  {
    Skips(run, steps, g, n, addr) && forall c, i :: !TrustedSince(run, steps, g, addr, c, i, n)
  }

  // ----- in every run

  /** A locked section makes an entry live only by an enabling answer. */
  lemma SectionEnables(s: Store<nat>, op: Op, t: Store<nat>, g: Geometry, addr: nat)
    requires g.buckets > 0 && Next(s, op, t, g) && Live(t, addr) && op != Answer(addr, true)
    ensures Live(s, addr) && !Removes(op, addr)
  {
  }

  lemma StepEnables(run: seq<State>, steps: seq<Step>, g: Geometry, addr: nat, m: nat)
    requires IsRun(run, steps, g) && m < |steps| && Live(run[m + 1].store, addr) && !Enables(run, steps, g, m, addr)
    ensures Live(run[m].store, addr) && !TakesOut(run, steps, g, m, addr)
  {
    assert Moves(run[m], steps[m], run[m + 1], g);
    if steps[m].Section? {
      var op := run[m].calls[steps[m].id].op;
      if op != Answer(addr, true) {
        SectionEnables(run[m].store, op, run[m + 1].store, g, addr);
      }
    }
  }

  /** A pending answer was given in some step, and has been pending since. */
  lemma {:induction false} GivenIn(run: seq<State>, steps: seq<Step>, g: Geometry, addr: nat, id: nat, m: nat)
    returns (c: nat)
    requires IsRun(run, steps, g) && m <= |steps| && AnswerPending(run[m], id, addr)
    ensures c < m && steps[c] == Call(id, Answer(addr, true))
    ensures forall k :: c < k <= m ==> AnswerPending(run[k], id, addr)
    decreases m
  {
    var l := m - 1;
    assert Moves(run[l], steps[l], run[l + 1], g);
    if steps[l] == Call(id, Answer(addr, true)) {
      c := l;
    } else {
      c := GivenIn(run, steps, g, addr, id, l);
    }
  }

  lemma {:induction false} LiveSince(run: seq<State>, steps: seq<Step>, g: Geometry, addr: nat, n: nat)
    returns (c: nat, i: nat)
    requires IsRun(run, steps, g) && n <= |steps| && Live(run[n].store, addr)
    ensures HeldSince(run, steps, g, addr, c, i, n)
    decreases n
  {
    var m := n - 1;
    if Enables(run, steps, g, m, addr) {
      i := m;
      c := GivenIn(run, steps, g, addr, steps[m].id, m);
    } else {
      StepEnables(run, steps, g, addr, m);
      c, i := LiveSince(run, steps, g, addr, m);
    }
  }

  /** In every run, with the cache going off and on as it may: an open that is let
      through by the cache was enabled by the client, and since this took effect no
      write-open, unlink, free, denial, other answer, clearing or eviction has taken
      its entry out. */
  lemma SkippedOpenWasEnabled(run: seq<State>, steps: seq<Step>, g: Geometry, n: nat, addr: nat)
    requires IsRun(run, steps, g) && Skips(run, steps, g, n, addr)
    ensures exists c, i :: HeldSince(run, steps, g, addr, c, i, n)
  {
    var c, i := LiveSince(run, steps, g, addr, n);
  }

  // ----- when a removal may be missed

  /** While a sweep is on, what it has passed stays empty; while the cache is off, it
      holds nothing that would let an open through. */
  ghost predicate Quiet(s: State, g: Geometry)
    requires g.buckets > 0
  {
    && (s.sweep.Sweeping? ==> forall a :: a in s.store.recs ==> g.Index(a) >= s.sweep.next)
    && (!s.enabled ==> forall a :: !Live(s.store, a))
  }

  /** Nothing that should take an address out returns in step j while an enabling
      answer for it is on its way. */
  ghost predicate Prompt(run: seq<State>, steps: seq<Step>, g: Geometry, j: int)
    requires IsRun(run, steps, g) && 0 <= j < |steps|
  {
    forall id, addr :: AnswerPending(run[j], id, addr) && addr != 0 ==> !ReturnsRemoval(run, steps, g, j, addr)
  }

  /** As long as both hold, the open was enabled by the client, and since the client
      gave that answer no call that should take its inode out has returned, in vain
      or not. */
  lemma QuietOpensAreTrusted(run: seq<State>, steps: seq<Step>, g: Geometry, n: nat, addr: nat)
    requires IsRun(run, steps, g) && Skips(run, steps, g, n, addr)
    requires forall j :: 0 <= j < |run| ==> Quiet(run[j], g)
    requires forall j :: 0 <= j < |steps| ==> Prompt(run, steps, g, j)
    ensures exists c, i :: TrustedSince(run, steps, g, addr, c, i, n)
  {
    var c, i := LiveSince(run, steps, g, addr, n);
    HitsInRange(run, steps, g, n, addr);
    forall j | c < j < n ensures !ReturnsRemoval(run, steps, g, j, addr) {
      if j <= i {
        assert AnswerPending(run[j], steps[i].id, addr) && Prompt(run, steps, g, j);
      } else {
        assert Live(run[j].store, addr) && Quiet(run[j], g);
      }
    }
    assert TrustedSince(run, steps, g, addr, c, i, n);
  }

  // ----- runs put together

  lemma Extend(run: seq<State>, steps: seq<Step>, g: Geometry, step: Step, t: State)
    requires IsRun(run, steps, g) && Moves(run[|run| - 1], step, t, g)
    ensures IsRun(run + [t], steps + [step], g)
  {
    var run', steps' := run + [t], steps + [step];
    forall i | 0 <= i < |steps'| ensures Moves(run'[i], steps'[i], run'[i + 1], g) {
      if i < |steps| {
        assert Moves(run[i], steps[i], run[i + 1], g);
      }
    }
  }

  /** There is always an id for one more caller. */
  lemma {:induction false} FreshId(ids: set<nat>) returns (id: nat)
    ensures forall x :: x in ids ==> x < id
  {
    if ids == {} {
      id := 0;
    } else {
      var x :| x in ids;
      var m := FreshId(ids - {x});
      id := if x < m then m else x + 1;
      assert forall y :: y in ids ==> y == x || y in ids - {x};
    }
  }

  /** The states of a run after `from` with nothing but the store and calls changed. */
  ghost predicate OnlyStore(run: seq<State>, from: nat, s: State) {
    forall k :: from <= k < |run| ==> run[k].enabled == s.enabled && run[k].sweep == s.sweep
  }

  /** A whole call, undisturbed, while the cache is on. */
  lemma WholeCall(run: seq<State>, steps: seq<Step>, g: Geometry, op: Op, store: Store<nat>)
    returns (run': seq<State>, steps': seq<Step>, id: nat)
    requires IsRun(run, steps, g) && op.addr != 0
    requires var s := run[|run| - 1]; s.enabled && Next(s.store, op, store, g)
    ensures IsRun(run', steps', g) && run <= run' && |run'| == |run| + 3
    ensures steps' == steps + [Call(id, op), Test(id), Section(id)]
    ensures
      var s := run[|run| - 1];
      && id !in s.calls
      && run'[|run|].store == run'[|run| + 1].store == s.store
      && run'[|run| + 1] == s.(calls := s.calls[id := Pending(op, true)])
      && run'[|run| + 2] == s.(store := store)
      && OnlyStore(run', |run|, s)
  {
    var s := run[|run| - 1];
    id := FreshId(s.calls.Keys);
    var called := s.(calls := s.calls[id := Pending(op, false)]);
    Extend(run, steps, g, Call(id, op), called);
    run', steps' := run + [called], steps + [Call(id, op)];
    var tested := s.(calls := s.calls[id := Pending(op, true)]);
    assert called.calls[id := called.calls[id].(tested := true)] == tested.calls;
    Extend(run', steps', g, Test(id), tested);
    run', steps' := run' + [tested], steps' + [Test(id)];
    assert tested.calls - {id} == s.calls;
    Extend(run', steps', g, Section(id), s.(store := store));
    run', steps' := run' + [s.(store := store)], steps' + [Section(id)];
  }

  /** An open of a live entry is let through. */
  lemma OpenSkips(run: seq<State>, steps: seq<Step>, g: Geometry, addr: nat)
    returns (run': seq<State>, steps': seq<Step>, n: nat)
    requires IsRun(run, steps, g) && addr != 0
    requires var s := run[|run| - 1]; s.enabled && Live(s.store, addr)
    ensures IsRun(run', steps', g) && run <= run' && steps <= steps' && |steps'| == |steps| + 3 && n == |steps| + 2
    ensures Skips(run', steps', g, n, addr) && OnlyStore(run', |run|, run[|run| - 1])
    ensures steps'[|steps|].Call? && steps'[|steps|].op == ReadOpen(addr, false) && steps'[|steps| + 1].Test?
    ensures !ReturnsRemoval(run', steps', g, |steps|, addr) && !ReturnsRemoval(run', steps', g, |steps| + 1, addr)
  {
    var s := run[|run| - 1];
    var store := Rewrite(s.store, addr, Seen(s.store.recs[addr].val));
    var id;
    run', steps', id := WholeCall(run, steps, g, ReadOpen(addr, false), store);
    n := |steps| + 2;
  }

  // ----- a live entry while the cache is off

  lemma {:induction false} SweepingIsEnabled(run: seq<State>, steps: seq<Step>, g: Geometry, n: nat)
    requires IsRun(run, steps, g) && n < |run|
    ensures run[n].sweep.Sweeping? ==> run[n].enabled && run[n].sweep.next <= g.buckets
  {
    if n > 0 {
      SweepingIsEnabled(run, steps, g, n - 1);
      assert Moves(run[n - 1], steps[n - 1], run[n - 1 + 1], g);
    }
  }

  /** If a removal returned in step m and no answer was given from then on, none
      accounts for the open. */
  lemma UntrustedSince(run: seq<State>, steps: seq<Step>, g: Geometry, addr: nat, m: nat, n: nat)
    requires IsRun(run, steps, g) && Skips(run, steps, g, n, addr) && m < n
    requires ReturnsRemoval(run, steps, g, m, addr)
    requires forall j :: m <= j < n && steps[j].Call? ==> steps[j].op != Answer(addr, true)
    ensures Untrusted(run, steps, g, addr, n)
  {
    forall c, i ensures !TrustedSince(run, steps, g, addr, c, i, n) {
    }
  }

  /** With the cache off and a live entry in it: the inode is freed, the cache comes
      back on, and an open of whatever has the address then is let through. */
  lemma OffAndLiveIsUnsafe(run: seq<State>, steps: seq<Step>, g: Geometry, addr: nat)
    returns (run': seq<State>, steps': seq<Step>, n: nat)
    requires IsRun(run, steps, g) && addr != 0
    requires var s := run[|run| - 1]; !s.enabled && s.sweep == NoSweep && Live(s.store, addr)
    ensures run <= run' && steps <= steps' && IsRun(run', steps', g) && Untrusted(run', steps', g, addr, n)
  {
    var s, m := run[|run| - 1], |steps|;
    var id := FreshId(s.calls.Keys);
    var called := s.(calls := s.calls[id := Pending(InodeFreed(addr), false)]);
    Extend(run, steps, g, Call(id, InodeFreed(addr)), called);
    var run1, steps1 := run + [called], steps + [Call(id, InodeFreed(addr))];
    assert called.calls - {id} == s.calls;
    Extend(run1, steps1, g, Test(id), s);
    var run2, steps2 := run1 + [s], steps1 + [Test(id)];
    var on := s.(enabled := true);
    Extend(run2, steps2, g, Enable, on);
    var run3, steps3 := run2 + [on], steps2 + [Enable];
    run', steps', n := OpenSkips(run3, steps3, g, addr);
    assert steps3[m] == Call(id, InodeFreed(addr)) && steps3[m + 1] == Test(id) && steps3[m + 2] == Enable;
    assert steps'[m] == steps3[m] && steps'[m + 1] == steps3[m + 1] && steps'[m + 2] == steps3[m + 2];
    assert run'[m + 1] == run3[m + 1] == called;
    assert ReturnsRemoval(run', steps', g, m + 1, addr);
    UntrustedSince(run', steps', g, addr, m + 1, n);
  }

  /** Behind a sweep, an answer still takes effect. */
  lemma MadeLive(run: seq<State>, steps: seq<Step>, g: Geometry, addr: nat)
    returns (run': seq<State>, steps': seq<Step>)
    requires IsRun(run, steps, g) && addr != 0
    requires var s := run[|run| - 1]; s.enabled && addr in s.store.recs && s.store.recs[addr].val < U64
    ensures run <= run' && steps <= steps' && IsRun(run', steps', g)
    ensures
      var s, t := run[|run| - 1], run'[|run'| - 1];
      Live(t.store, addr) && t == s.(store := t.store)
  {
    run', steps' := run, steps;
    var tries := 0;
    while tries < 2 && !Live(run'[|run'| - 1].store, addr)
      invariant run <= run' && steps <= steps' && IsRun(run', steps', g) && 0 <= tries <= 2
      invariant var s, t := run[|run| - 1], run'[|run'| - 1]; t == s.(store := t.store) && addr in t.store.recs
      invariant
        var v, w := run[|run| - 1].store.recs[addr].val, run'[|run'| - 1].store.recs[addr].val;
        w == if tries == 0 then v else if tries == 1 then Bump(v) else Bump(Bump(v))
      invariant tries > 0 ==> !Live(run[|run| - 1].store, addr)
      invariant tries > 1 ==> Bump(run[|run| - 1].store.recs[addr].val) == 0
    {
      var s := run'[|run'| - 1];
      var store := Rewrite(s.store, addr, Bump(s.store.recs[addr].val));
      var id;
      run', steps', id := WholeCall(run', steps', g, Answer(addr, true), store);
      tries := tries + 1;
    }
  }

  lemma SweepOn(run: seq<State>, steps: seq<Step>, g: Geometry, addr: nat)
    returns (run': seq<State>, steps': seq<Step>)
    requires IsRun(run, steps, g)
    requires
      var s := run[|run| - 1];
      s.sweep.Sweeping? && g.Index(addr) < s.sweep.next <= g.buckets && Live(s.store, addr)
    ensures run <= run' && steps <= steps' && IsRun(run', steps', g)
    ensures var t := run'[|run'| - 1]; !t.enabled && t.sweep == NoSweep && Live(t.store, addr)
  {
    run', steps' := run, steps;
    while run'[|run'| - 1].sweep.next < g.buckets
      invariant run <= run' && steps <= steps' && IsRun(run', steps', g)
      invariant
        var s := run'[|run'| - 1];
        s.sweep.Sweeping? && g.Index(addr) < s.sweep.next <= g.buckets && Live(s.store, addr)
      decreases g.buckets - run'[|run'| - 1].sweep.next
    {
      var s := run'[|run'| - 1];
      var t := s.(store := EraseBucket(s.store, g, s.sweep.next), sweep := Sweeping(s.sweep.next + 1));
      Extend(run', steps', g, SweepOne, t);
      run', steps' := run' + [t], steps' + [SweepOne];
    }
    var s := run'[|run'| - 1];
    var t := s.(enabled := false, sweep := NoSweep);
    Extend(run', steps', g, EndDisable, t);
    run', steps' := run' + [t], steps' + [EndDisable];
  }

  lemma {:induction false} TestedHaveAddress(run: seq<State>, steps: seq<Step>, g: Geometry, n: nat)
    requires IsRun(run, steps, g) && n < |run|
    ensures forall id :: id in run[n].calls && run[n].calls[id].tested ==> run[n].calls[id].op.addr != 0
  {
    if n > 0 {
      TestedHaveAddress(run, steps, g, n - 1);
      assert Moves(run[n - 1], steps[n - 1], run[n - 1 + 1], g);
    }
  }

  lemma {:induction false} HitsInRange(run: seq<State>, steps: seq<Step>, g: Geometry, n: nat, addr: nat)
    requires IsRun(run, steps, g) && n < |run| && addr in run[n].store.recs
    ensures run[n].store.recs[addr].val < U64 && addr != 0
  {
    if n > 0 {
      TestedHaveAddress(run, steps, g, n - 1);
      assert Moves(run[n - 1], steps[n - 1], run[n - 1 + 1], g);
      if addr in run[n - 1].store.recs {
        HitsInRange(run, steps, g, n - 1, addr);
      }
    }
  }

  /** The first condition is needed: from every state of every run in which it fails,
      the run can go on to an open that no answer accounts for. */
  lemma NotQuietIsUnsafe(run: seq<State>, steps: seq<Step>, g: Geometry)
    returns (run': seq<State>, steps': seq<Step>, n: nat, addr: nat)
    requires IsRun(run, steps, g) && !Quiet(run[|run| - 1], g)
    ensures run <= run' && steps <= steps' && IsRun(run', steps', g) && Untrusted(run', steps', g, addr, n)
  {
    var s := run[|run| - 1];
    SweepingIsEnabled(run, steps, g, |run| - 1);
    run', steps' := run, steps;
    if s.sweep.Sweeping? {
      addr :| addr in s.store.recs && g.Index(addr) < s.sweep.next;
      HitsInRange(run, steps, g, |run| - 1, addr);
      run', steps' := MadeLive(run', steps', g, addr);
      run', steps' := SweepOn(run', steps', g, addr);
    } else {
      addr :| Live(s.store, addr);
      HitsInRange(run, steps, g, |run| - 1, addr);
    }
    run', steps', n := OffAndLiveIsUnsafe(run', steps', g, addr);
  }

  /** And it does fail: a lookup that is past its test inserts behind the sweep. */
  lemma InsertBehindSweep(g: Geometry, addr: nat) returns (run: seq<State>, steps: seq<Step>)
    requires g.Valid() && addr != 0
    ensures IsRun(run, steps, g) && !Quiet(run[|run| - 1], g)
  {
    var called := INITIAL.(calls := map[0 := Pending(ReadOpen(addr, true), false)]);
    run, steps := [INITIAL], [];
    Extend(run, steps, g, Call(0, ReadOpen(addr, true)), called);
    run, steps := run + [called], steps + [Call(0, ReadOpen(addr, true))];
    var tested := INITIAL.(calls := map[0 := Pending(ReadOpen(addr, true), true)]);
    Extend(run, steps, g, Test(0), tested);
    run, steps := run + [tested], steps + [Test(0)];
    var begun := tested.(sweep := Sweeping(0));
    Extend(run, steps, g, BeginDisable, begun);
    run, steps := run + [begun], steps + [BeginDisable];
    while run[|run| - 1].sweep.next <= g.Index(addr)
      invariant IsRun(run, steps, g)
      invariant
        var s := run[|run| - 1];
        s.sweep.Sweeping? && s.sweep.next <= g.Index(addr) + 1 && s == tested.(sweep := s.sweep)
      decreases g.Index(addr) + 1 - run[|run| - 1].sweep.next
    {
      var s := run[|run| - 1];
      assert EraseBucket(s.store, g, s.sweep.next) == s.store;
      var t := s.(sweep := Sweeping(s.sweep.next + 1));
      Extend(run, steps, g, SweepOne, t);
      run, steps := run + [t], steps + [SweepOne];
    }
    var s := run[|run| - 1];
    var store := CanInsert(s.store, g, addr);
    var t := s.(store := store, calls := s.calls - {0});
    Extend(run, steps, g, Section(0), t);
    run, steps := run + [t], steps + [Section(0)];
  }

  // ----- a removal while an answer is on its way

  lemma {:induction false} OldestOf(s: Store<nat>, keys: set<nat>) returns (k: nat)
    requires keys != {} && keys <= s.recs.Keys
    ensures k in keys && forall x :: x in keys ==> s.recs[k].born <= s.recs[x].born
  {
    var x :| x in keys;
    var rest := keys - {x};
    assert forall y :: y in keys ==> y == x || y in rest;
    if rest == {} {
      k := x;
    } else {
      k := OldestOf(s, rest);
      if s.recs[x].born < s.recs[k].born {
        k := x;
      }
    }
  }

  /** A lookup with memory can always insert. */
  lemma CanInsert(s: Store<nat>, g: Geometry, addr: nat) returns (t: Store<nat>)
    requires g.Valid() && addr !in s.recs
    ensures Inserted(s, t, g, addr, 0) && addr in t.recs && t.recs[addr].val == 0
  {
    var mates := Mates(s, g, g.Index(addr));
    if |mates| >= g.cap {
      var oldest := OldestOf(s, mates);
      assert IsOldest(s, g, g.Index(addr), oldest);
      t := Store((s.recs - {oldest})[addr := Rec(0, s.clock)], s.clock + 1);
    } else {
      t := Store(s.recs[addr := Rec(0, s.clock)], s.clock + 1);
    }
  }

  /** No call that should take the address out returns in steps from .. to. */
  ghost predicate NoRemoval(run: seq<State>, steps: seq<Step>, g: Geometry, addr: nat, from: int, to: int)
    requires IsRun(run, steps, g) && 0 <= from && to <= |steps|
  {
    forall j :: from <= j < to ==>
      !ReturnsRemoval(run, steps, g, j, addr) && !(steps[j].Call? && steps[j].op == Answer(addr, true))
  }

  /** Lookups bring the entry of the address to no hits. */
  lemma LookedUp(run: seq<State>, steps: seq<Step>, g: Geometry, addr: nat)
    returns (run': seq<State>, steps': seq<Step>)
    requires IsRun(run, steps, g) && addr != 0
    requires
      var s := run[|run| - 1];
      s.enabled && !Live(s.store, addr) && (addr in s.store.recs ==> s.store.recs[addr].val < U64)
    ensures run <= run' && steps <= steps' && IsRun(run', steps', g)
    ensures
      var s, t := run[|run| - 1], run'[|run'| - 1];
      && t == s.(store := t.store) && addr in t.store.recs && t.store.recs[addr].val == 0
      && OnlyStore(run', |run|, s) && NoRemoval(run', steps', g, addr, |steps|, |steps'|)
  {
    var s := run[|run| - 1];
    var store, id;
    if addr in s.store.recs {
      store := Rewrite(s.store, addr, Seen(s.store.recs[addr].val));
    } else {
      store := CanInsert(s.store, g, addr);
    }
    run', steps', id := WholeCall(run, steps, g, ReadOpen(addr, true), store);
  }

  /** The pending answer goes through its test and takes effect on an entry without
      hits, which is live then. */
  lemma AnswerArrives(run: seq<State>, steps: seq<Step>, g: Geometry, addr: nat, id: nat)
    returns (run': seq<State>, steps': seq<Step>)
    requires IsRun(run, steps, g) && addr != 0
    requires
      var s := run[|run| - 1];
      s.enabled && AnswerPending(s, id, addr) && addr in s.store.recs && s.store.recs[addr].val == 0
    ensures run <= run' && steps <= steps' && IsRun(run', steps', g)
    ensures
      var s, t := run[|run| - 1], run'[|run'| - 1];
      && t.enabled && Live(t.store, addr) && OnlyStore(run', |run|, s)
      && NoRemoval(run', steps', g, addr, |steps|, |steps'|)
  {
    var s := run[|run| - 1];
    run', steps' := run, steps;
    if !s.calls[id].tested {
      var tested := s.(calls := s.calls[id := s.calls[id].(tested := true)]);
      Extend(run, steps, g, Test(id), tested);
      run', steps' := run + [tested], steps + [Test(id)];
    }
    var s' := run'[|run'| - 1];
    var t := s'.(store := Rewrite(s'.store, addr, 1), calls := s'.calls - {id});
    Extend(run', steps', g, Section(id), t);
    run', steps' := run' + [t], steps' + [Section(id)];
  }

  lemma NoRemovalStays(run: seq<State>, steps: seq<Step>, run': seq<State>, steps': seq<Step>, g: Geometry,
                       addr: nat, from: nat)
    requires IsRun(run, steps, g) && IsRun(run', steps', g) && run <= run' && steps <= steps' && from <= |steps|
    requires NoRemoval(run, steps, g, addr, from, |steps|)
    ensures NoRemoval(run', steps', g, addr, from, |steps|)
  {
    forall j | from <= j < |steps|
      ensures !ReturnsRemoval(run', steps', g, j, addr) && !(steps'[j].Call? && steps'[j].op == Answer(addr, true))
    {
      assert run'[j] == run[j] && steps'[j] == steps[j];
      assert !ReturnsRemoval(run, steps, g, j, addr);
    }
  }

  /** From a state that is on, with an enabling answer on its way or a live entry, to
      an open that is let through, without another removal or answer. */
  lemma LetThrough(run: seq<State>, steps: seq<Step>, g: Geometry, addr: nat, id: nat)
    returns (run': seq<State>, steps': seq<Step>, n: nat)
    requires IsRun(run, steps, g) && addr != 0
    requires
      var s := run[|run| - 1];
      && s.enabled && AnswerPending(s, id, addr)
      && (addr in s.store.recs ==> s.store.recs[addr].val < U64)
    ensures run <= run' && steps <= steps' && IsRun(run', steps', g)
    ensures Skips(run', steps', g, n, addr) && |steps| <= n && NoRemoval(run', steps', g, addr, |steps|, n)
    ensures OnlyStore(run', |run|, run[|run| - 1])
  {
    var run1, steps1 := run, steps;
    if !Live(run[|run| - 1].store, addr) {
      run1, steps1 := LookedUp(run, steps, g, addr);
      var run2, steps2 := AnswerArrives(run1, steps1, g, addr, id);
      NoRemovalStays(run1, steps1, run2, steps2, g, addr, |steps|);
      run1, steps1 := run2, steps2;
    }
    run', steps', n := OpenSkips(run1, steps1, g, addr);
    NoRemovalStays(run1, steps1, run', steps', g, addr, |steps|);
  }

  /** The second condition is needed: from every run whose last step breaks it, the run
      can go on, with no removal and no answer after that, to an open that no answer
      accounts for. A cache that is on stays on. */
  lemma NotPromptIsUnsafe(run: seq<State>, steps: seq<Step>, g: Geometry)
    returns (run': seq<State>, steps': seq<Step>, n: nat, addr: nat)
    requires IsRun(run, steps, g) && |steps| > 0 && !Prompt(run, steps, g, |steps| - 1)
    ensures run <= run' && steps <= steps' && IsRun(run', steps', g) && Untrusted(run', steps', g, addr, n)
    ensures NoRemoval(run', steps', g, addr, |steps|, n)
    ensures run[|steps|].enabled ==> OnlyStore(run', |run|, run[|steps|])
  {
    var m, s := |steps| - 1, run[|steps|];
    var id;
    id, addr :| AnswerPending(run[m], id, addr) && addr != 0 && ReturnsRemoval(run, steps, g, m, addr);
    assert Moves(run[m], steps[m], run[m + 1], g);
    assert AnswerPending(s, id, addr);
    SweepingIsEnabled(run, steps, g, |steps|);
    if addr in s.store.recs {
      HitsInRange(run, steps, g, |steps|, addr);
    }
    var run1, steps1 := run, steps;
    if !s.enabled {
      Extend(run, steps, g, Enable, s.(enabled := true));
      run1, steps1 := run + [s.(enabled := true)], steps + [Enable];
      assert NoRemoval(run1, steps1, g, addr, |steps|, |steps1|);
    }
    run', steps', n := LetThrough(run1, steps1, g, addr, id);
    NoRemovalStays(run1, steps1, run', steps', g, addr, |steps|);
    assert run'[m] == run[m] && steps'[m] == steps[m];
    assert ReturnsRemoval(run', steps', g, m, addr);
    UntrustedSince(run', steps', g, addr, m, n);
  }

  /** And it is broken, on a cache that is never switched off: the client enables an
      inode, a write-open takes it out before the answer arrives, and a later open is
      let through by the answer. */
  lemma WriteBeforeAnswerArrives(g: Geometry, inode: nat)
    returns (run: seq<State>, steps: seq<Step>, n: nat, addr: nat)
    requires g.Valid() && inode != 0
    ensures IsRun(run, steps, g) && Untrusted(run, steps, g, addr, n)
    ensures forall k :: 0 <= k < |run| ==> run[k].enabled && Quiet(run[k], g)
  {
    run, steps := [INITIAL], [];
    var store := CanInsert(INITIAL.store, g, inode);
    var id;
    run, steps, id := WholeCall(run, steps, g, ReadOpen(inode, true), store);
    var entered := run[3];
    var answered := entered.(calls := map[0 := Pending(Answer(inode, true), false)]);
    Extend(run, steps, g, Call(0, Answer(inode, true)), answered);
    run, steps := run + [answered], steps + [Call(0, Answer(inode, true))];
    run, steps, id := WholeCall(run, steps, g, WriteOpen(inode), Erase(store, inode));
    assert steps[|steps| - 1] == Section(id) && AnswerPending(run[|steps| - 1], 0, inode);
    var run', steps';
    assert !Prompt(run, steps, g, |steps| - 1);
    run', steps', n, addr := NotPromptIsUnsafe(run, steps, g);
    forall k | 0 <= k < |run'| ensures run'[k].enabled && Quiet(run'[k], g) {
      if k < |run| {
        assert run'[k] == run[k];
      } else {
        assert run'[k].enabled == run[|steps|].enabled && run'[k].sweep == run[|steps|].sweep;
      }
    }
    run, steps := run', steps';
  }
}
