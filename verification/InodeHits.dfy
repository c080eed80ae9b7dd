/**
 The hit count of an inode over whole runs of the inode cache: which opens are let
 through, not only that those which are were enabled.
 */
module InodeHits {
  import opened HashBuckets
  import opened InodeCache
  import opened InodeRuns

  /** The largest hit count and one more. */
  const COUNTER: nat := 0x1_0000_0000_0000_0000

  /** Step j is the locked section of an open for reading. */
  ghost predicate Opens(run: seq<State>, steps: seq<Step>, g: Geometry, j: int, addr: nat)
    requires IsRun(run, steps, g) && 0 <= j < |steps|
  {
    && steps[j].Section? && steps[j].id in run[j].calls
    && run[j].calls[steps[j].id].op.ReadOpen? && run[j].calls[steps[j].id].op.addr == addr
  }

  // ----- counting

  /** What a step is to an address. */
  datatype Mark = Mark(enables: bool, opens: bool)

  function CountMarks(ms: seq<Mark>): nat {
    if ms == [] then 0
    else
      var before, last := CountMarks(ms[..|ms| - 1]), ms[|ms| - 1];
      if last.opens || last.enables then before + 1 else before
  }

  /** An open counts for an enabled inode, an enabling answer always. */
  predicate OneHit(hits: nat, m: Mark, next: nat) {
    var counts := m.enables || (m.opens && hits > 0);
    (counts && hits + 1 < COUNTER ==> next == hits + 1) && (!counts ==> next == hits)
  }

  predicate HitsFollow(hits: seq<nat>, ms: seq<Mark>) {
    |hits| == |ms| + 1 && forall j :: 0 <= j < |ms| ==> OneHit(hits[j], ms[j], hits[j + 1])
  }

  /** From an enabling answer on all opens and all answers count. */
  lemma {:induction false} HitsAreCounted(hits: seq<nat>, ms: seq<Mark>)
    requires HitsFollow(hits, ms) && hits[0] == 0 && ms != [] && ms[0].enables && CountMarks(ms) < COUNTER
    ensures hits[|ms|] == CountMarks(ms) > 0
    decreases |ms|
  {
    var n := |ms| - 1;
    assert OneHit(hits[n], ms[n], hits[n + 1]);
    if n > 0 {
      HitsAreCounted(hits[..n + 1], ms[..n]);
    }
  }

  /** Before it none does. */
  lemma {:induction false} NoHitBefore(hits: seq<nat>, ms: seq<Mark>)
    requires HitsFollow(hits, ms) && hits[0] == 0 && forall j :: 0 <= j < |ms| ==> !ms[j].enables
    ensures hits[|ms|] == 0
    decreases |ms|
  {
    var n := |ms| - 1;
    if n >= 0 {
      assert OneHit(hits[n], ms[n], hits[n + 1]);
      NoHitBefore(hits[..n + 1], ms[..n]);
    }
  }

  lemma {:induction false} CountAppend(a: seq<Mark>, b: seq<Mark>)
    ensures CountMarks(a + b) == CountMarks(a) + CountMarks(b)
    decreases |b|
  {
    if b == [] {
      assert a + b == a;
    } else {
      CountAppend(a, b[..|b| - 1]);
      assert (a + b)[..|a + b| - 1] == a + b[..|b| - 1];
    }
  }

  ghost function MarkOf(run: seq<State>, steps: seq<Step>, g: Geometry, addr: nat, j: nat): Mark
    requires IsRun(run, steps, g) && j < |steps|
  {
    Mark(Enables(run, steps, g, j, addr), Opens(run, steps, g, j, addr))
  }

  ghost function Marks(run: seq<State>, steps: seq<Step>, g: Geometry, addr: nat, from: nat, end: nat)
    : (ms: seq<Mark>)
    requires IsRun(run, steps, g) && from <= end <= |steps|
    ensures |ms| == end - from
    ensures forall j :: 0 <= j < |ms| ==> ms[j] == MarkOf(run, steps, g, addr, from + j)
  {
    seq(end - from, j requires 0 <= j < end - from => MarkOf(run, steps, g, addr, from + j))
  }

  /** How many steps from `from` on, before `end`, are opens of the address or enabling
      answers for it. */
  ghost function Counted(run: seq<State>, steps: seq<Step>, g: Geometry, addr: nat, from: nat, end: nat): nat
    requires IsRun(run, steps, g) && from <= end <= |steps|
  {
    CountMarks(Marks(run, steps, g, addr, from, end))
  }

  ghost function HitAt(run: seq<State>, addr: nat, j: nat): nat
    requires j < |run| && addr in run[j].store.recs
  {
    run[j].store.recs[addr].val
  }

  ghost function HitsOf(run: seq<State>, addr: nat, from: nat, end: nat): (hits: seq<nat>)
    requires from <= end < |run| && Here(run, addr, from, end)
    ensures |hits| == end - from + 1
    ensures forall j :: 0 <= j < |hits| ==> hits[j] == HitAt(run, addr, from + j)
  {
    seq<nat>(end - from + 1, j requires 0 <= j < end - from + 1 => HitAt(run, addr, from + j))
  }

  ghost predicate Here(run: seq<State>, addr: nat, from: nat, end: nat)
    requires end < |run|
  {
    forall j :: from <= j <= end ==> addr in run[j].store.recs
  }

  /** In step m an open enters the address in the cache. */
  ghost predicate EnteredIn(run: seq<State>, steps: seq<Step>, g: Geometry, m: nat, addr: nat)
    requires IsRun(run, steps, g) && m < |steps|
  {
    Opens(run, steps, g, m, addr) && addr !in run[m].store.recs && addr in run[m + 1].store.recs
  }

  /** Step j enters another address in a full bucket of which this one is the oldest. */
  ghost predicate Evicts(run: seq<State>, steps: seq<Step>, g: Geometry, j: nat, addr: nat)
    requires IsRun(run, steps, g) && j < |steps|
  {
    && steps[j].Section? && steps[j].id in run[j].calls
    && var op := run[j].calls[steps[j].id].op;
    && op.ReadOpen? && op.memory && op.addr !in run[j].store.recs && g.Index(op.addr) == g.Index(addr)
    && |Mates(run[j].store, g, g.Index(addr))| >= g.cap && IsOldest(run[j].store, g, g.Index(addr), addr)
  }

  // ----- one step

  lemma CountsUp(hits: nat)
    requires hits + 1 < COUNTER
    ensures Bump(hits) == hits + 1 && (hits > 0 ==> Seen(hits) == hits + 1) && Seen(0) == 0
  {
  }

  lemma SectionCounts(s: Store<nat>, op: Op, t: Store<nat>, g: Geometry, addr: nat)
    requires g.buckets > 0 && Next(s, op, t, g) && addr in s.recs && addr in t.recs
    ensures
      var hits, next := s.recs[addr].val, t.recs[addr].val;
      var counts := op == Answer(addr, true) || (op.ReadOpen? && op.addr == addr && hits > 0);
      (counts && hits + 1 < COUNTER ==> next == hits + 1) && (!counts ==> next == hits)
  {
    if s.recs[addr].val + 1 < COUNTER {
      CountsUp(s.recs[addr].val);
    }
  }

  lemma StepCounts(run: seq<State>, steps: seq<Step>, g: Geometry, addr: nat, j: nat)
    requires IsRun(run, steps, g) && j < |steps| && addr in run[j].store.recs && addr in run[j + 1].store.recs
    ensures OneHit(run[j].store.recs[addr].val, MarkOf(run, steps, g, addr, j), run[j + 1].store.recs[addr].val)
  {
    assert Moves(run[j], steps[j], run[j + 1], g);
    if steps[j].Section? {
      SectionCounts(run[j].store, run[j].calls[steps[j].id].op, run[j + 1].store, g, addr);
    }
  }

  lemma RunCounts(run: seq<State>, steps: seq<Step>, g: Geometry, addr: nat, i: nat, n: nat)
    requires IsRun(run, steps, g) && i <= n <= |steps| && Here(run, addr, i, n)
    ensures HitsFollow(HitsOf(run, addr, i, n), Marks(run, steps, g, addr, i, n))
  {
    var hits, ms := HitsOf(run, addr, i, n), Marks(run, steps, g, addr, i, n);
    forall j | 0 <= j < |ms| ensures OneHit(hits[j], ms[j], hits[j + 1]) {
      StepCounts(run, steps, g, addr, i + j);
    }
  }

  /** An entry stays unless it is taken out or evicted. */
  lemma StaysIn(run: seq<State>, steps: seq<Step>, g: Geometry, addr: nat, j: nat)
    requires IsRun(run, steps, g) && j < |steps| && addr in run[j].store.recs
    requires !TakesOut(run, steps, g, j, addr) && !Evicts(run, steps, g, j, addr)
    ensures addr in run[j + 1].store.recs
  {
    assert Moves(run[j], steps[j], run[j + 1], g);
  }

  // ----- over runs

  lemma EntersBy(run: seq<State>, steps: seq<Step>, g: Geometry, addr: nat, j: nat)
    requires IsRun(run, steps, g) && j < |steps| && addr !in run[j].store.recs && addr in run[j + 1].store.recs
    ensures EnteredIn(run, steps, g, j, addr)
  {
    assert Moves(run[j], steps[j], run[j + 1], g);
  }

  /** Every entry was entered by an open, and has been there since. */
  lemma {:induction false} WasEntered(run: seq<State>, steps: seq<Step>, g: Geometry, addr: nat, n: nat)
    returns (m: nat)
    requires IsRun(run, steps, g) && n <= |steps| && addr in run[n].store.recs
    ensures m < n && EnteredIn(run, steps, g, m, addr) && Here(run, addr, m + 1, n)
    decreases n
  {
    if addr in run[n - 1].store.recs {
      m := WasEntered(run, steps, g, addr, n - 1);
    } else {
      m := n - 1;
      EntersBy(run, steps, g, addr, m);
    }
  }

  lemma EnteredWithNone(run: seq<State>, steps: seq<Step>, g: Geometry, addr: nat, m: nat)
    requires IsRun(run, steps, g) && m < |steps| && EnteredIn(run, steps, g, m, addr)
    ensures HitAt(run, addr, m + 1) == 0
  {
    assert Moves(run[m], steps[m], run[m + 1], g);
  }

  lemma NoneEnables(run: seq<State>, steps: seq<Step>, g: Geometry, addr: nat, i: nat, n: nat)
    requires IsRun(run, steps, g) && i <= n <= |steps|
    requires forall k :: i <= k < n ==> !Enables(run, steps, g, k, addr)
    ensures
      var ms := Marks(run, steps, g, addr, i, n);
      forall j :: 0 <= j < |ms| ==> !ms[j].enables
  {
    var ms := Marks(run, steps, g, addr, i, n);
    forall j | 0 <= j < |ms| ensures !ms[j].enables {
      assert !Enables(run, steps, g, i + j, addr);
    }
  }

  lemma ZeroBefore(run: seq<State>, steps: seq<Step>, g: Geometry, addr: nat, i: nat, n: nat)
    requires IsRun(run, steps, g) && i <= n <= |steps| && Here(run, addr, i, n) && HitAt(run, addr, i) == 0
    requires forall k :: i <= k < n ==> !Enables(run, steps, g, k, addr)
    ensures HitAt(run, addr, n) == 0
  {
    RunCounts(run, steps, g, addr, i, n);
    NoneEnables(run, steps, g, addr, i, n);
    var hits := HitsOf(run, addr, i, n);
    assert hits[0] == HitAt(run, addr, i + 0) && hits[n - i] == HitAt(run, addr, i + (n - i));
    NoHitBefore(hits, Marks(run, steps, g, addr, i, n));
  }

  lemma CountedSince(run: seq<State>, steps: seq<Step>, g: Geometry, addr: nat, i: nat, n: nat)
    requires IsRun(run, steps, g) && i < n <= |steps| && Here(run, addr, i, n)
    requires HitAt(run, addr, i) == 0 && Enables(run, steps, g, i, addr)
    requires Counted(run, steps, g, addr, i, n) < COUNTER
    ensures HitAt(run, addr, n) == Counted(run, steps, g, addr, i, n) > 0
  {
    RunCounts(run, steps, g, addr, i, n);
    var hits, ms := HitsOf(run, addr, i, n), Marks(run, steps, g, addr, i, n);
    assert hits[0] == HitAt(run, addr, i + 0) && hits[n - i] == HitAt(run, addr, i + (n - i));
    assert ms[0] == MarkOf(run, steps, g, addr, i + 0);
    HitsAreCounted(hits, ms);
  }

  /**
   Which opens are let through. An inode was entered in step m and its entry has been
   there since. An open of it in step n stalls as long as no answer has enabled it.
   From the first enabling answer on, in step i, every open and every further answer
   counts as a hit, and an open is let through if and only if the count it makes does
   not run over the 64 bits of the counter.
   */
  lemma OpensSkipExactly(run: seq<State>, steps: seq<Step>, g: Geometry, addr: nat, m: nat, n: nat)
    requires IsRun(run, steps, g) && m < n < |steps| && EnteredIn(run, steps, g, m, addr)
    requires Here(run, addr, m + 1, n) && Opens(run, steps, g, n, addr)
    ensures (forall k :: m < k < n ==> !Enables(run, steps, g, k, addr)) ==> !Skips(run, steps, g, n, addr)
    ensures forall i :: m < i < n && FirstEnabled(run, steps, g, addr, m, i)
                        && Counted(run, steps, g, addr, i, n) < COUNTER ==>
      (Skips(run, steps, g, n, addr) <==> Counted(run, steps, g, addr, i, n) + 1 < COUNTER)
  {
    EnteredWithNone(run, steps, g, addr, m);
    if forall k :: m < k < n ==> !Enables(run, steps, g, k, addr) {
      ZeroBefore(run, steps, g, addr, m + 1, n);
    }
    forall i | m < i < n && FirstEnabled(run, steps, g, addr, m, i) && Counted(run, steps, g, addr, i, n) < COUNTER
      ensures Skips(run, steps, g, n, addr) <==> Counted(run, steps, g, addr, i, n) + 1 < COUNTER
    {
      ZeroBefore(run, steps, g, addr, m + 1, i);
      CountedSince(run, steps, g, addr, i, n);
    }
  }

  /** The first enabling answer behind step m. */
  ghost predicate FirstEnabled(run: seq<State>, steps: seq<Step>, g: Geometry, addr: nat, m: nat, i: nat)
    requires IsRun(run, steps, g) && i < |steps|
  {
    m < i && Enables(run, steps, g, i, addr) && forall k :: m < k < i ==> !Enables(run, steps, g, k, addr)
  }

  lemma {:induction false} FindFirstEnabled(run: seq<State>, steps: seq<Step>, g: Geometry, addr: nat, m: nat, i: nat)
    returns (f: nat)
    requires IsRun(run, steps, g) && m < i < |steps| && Enables(run, steps, g, i, addr)
    ensures m < f <= i && FirstEnabled(run, steps, g, addr, m, f)
    decreases i
  {
    if k :| m < k < i && Enables(run, steps, g, k, addr) {
      f := FindFirstEnabled(run, steps, g, addr, m, k);
    } else {
      f := i;
    }
  }

  lemma CountedFromEarlier(run: seq<State>, steps: seq<Step>, g: Geometry, addr: nat, m: nat, i: nat, n: nat)
    requires IsRun(run, steps, g) && m <= i <= n <= |steps|
    ensures Counted(run, steps, g, addr, i, n) <= Counted(run, steps, g, addr, m, n)
  {
    var before, since := Marks(run, steps, g, addr, m, i), Marks(run, steps, g, addr, i, n);
    assert Marks(run, steps, g, addr, m, n) == before + since;
    CountAppend(before, since);
  }

  lemma {:induction false} StaysHere(run: seq<State>, steps: seq<Step>, g: Geometry, addr: nat, i: nat, n: nat)
    requires IsRun(run, steps, g) && i <= n <= |steps| && addr in run[i].store.recs
    requires forall j :: i <= j < n ==> !TakesOut(run, steps, g, j, addr) && !Evicts(run, steps, g, j, addr)
    ensures Here(run, addr, i, n)
    decreases n
  {
    if i < n {
      StaysHere(run, steps, g, addr, i, n - 1);
      StaysIn(run, steps, g, addr, n - 1);
    }
  }

  /** The converse of being let through only when enabled: once an answer has enabled
      an inode, every open of it is let through, until something takes its entry out,
      an insertion evicts it, or the hits since it was entered, in step m, fill the
      counter. */
  lemma EnabledOpensSkip(run: seq<State>, steps: seq<Step>, g: Geometry, addr: nat, i: nat, n: nat)
    returns (m: nat)
    requires IsRun(run, steps, g) && i < n < |steps| && Enables(run, steps, g, i, addr)
    requires forall j :: i <= j < n ==> !TakesOut(run, steps, g, j, addr) && !Evicts(run, steps, g, j, addr)
    requires Opens(run, steps, g, n, addr)
    ensures m < i && EnteredIn(run, steps, g, m, addr) && Here(run, addr, m + 1, n)
    ensures Counted(run, steps, g, addr, m, n) + 1 < COUNTER ==> Skips(run, steps, g, n, addr)
  {
    m := WasEntered(run, steps, g, addr, i);
    StaysHere(run, steps, g, addr, i, n);
    var f := FindFirstEnabled(run, steps, g, addr, m, i);
    OpensSkipExactly(run, steps, g, addr, m, n);
    CountedFromEarlier(run, steps, g, addr, m, f, n);
  }
}
