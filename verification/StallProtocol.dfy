/**
 Tasks that stall in a hook until the client answers. An event draws a request
 id; later its hook enters a keyed entry in the stall table and waits on it; the
 client answers by key; the waiter resumes, waits on, times out or is
 interrupted. One step per locked section or read, so anything may happen
 between two steps of a waiter.
 */
module StallProtocol {
  import opened Common
  import opened StallConfig

  datatype Answer = Allow | Deny | Continue

  datatype Mode = Stalled | Resumed | Disabled

  /** Which event a stalled task reported. */
  datatype Key = Key(reqId: nat, eventType: nat, tid: nat)

  datatype Entry = Entry(key: Key, mode: Mode, answer: Answer, timeout: nat, inode: nat)

  const MAX_CONTINUE_RESPONSES: nat := 256

  /** Where an event is on its way through its hook. */
  datatype Pc =
    | Drawn                      // it has its id
    | Prepared                   // past the test of the table, its entry filled in
    | Entered                    // linked into the table
    | Checking(test: nat)        // top of the retry loop, before one of its three tests
    | Waiting
    | Leaving(verdict: Answer)   // about to be unlinked
    | Done(verdict: Answer)      // the hook has returned

  /** denying: deny-on-timeout was on when the entry was filled in. requested and
      waits add up the waits so far. */
  datatype Waiter = Waiter(pc: Pc, entry: Entry, denying: bool, default: Answer,
                           count: nat, timeout: nat, waits: nat, requested: nat)

  /** An accepted answer, as it was issued. */
  datatype Issued = Issued(key: Key, answer: Answer)

  datatype State = State(
    enabled: bool,            // the table
    config: Config,
    lastReq: nat,             // the counter of request ids
    waiters: seq<Waiter>,     // events that may stall, in the order they drew their ids
    table: seq<nat>,          // waiters whose entries are linked, newest first
    issued: seq<Issued>)

  datatype Step =
    | Draw(tid: nat, eventType: nat, inode: nat)   // init_dynsec_event
    | NewEvent                                     // an event that will not stall
    | Prepare(w: nat)                              // stall_tbl_insert up to the lock
    | Link(w: nat)                                 // its locked section
    | Start(w: nat)                                // the waiter copies its defaults
    | Check(w: nat)                                // one test at the top of the retry loop
    | Interrupt(w: nat)
    | TimeOut(w: nat)
    | Wake(w: nat)
    | Leave(w: nat)                                // stall_tbl_remove_entry
    | Respond(key: Key, answer: Answer, timeout: nat)
    | WakeDisabled(w: nat)                         // stall_tbl_wake_entries, one entry
    | SetEnabled(on: bool)
    | SetBypass(on: bool)
    | SetConfig(request: Request)
    | ResetConfig

  predicate IsAt(s: State, w: nat, pc: Pc) {
    w < |s.waiters| && s.waiters[w].pc == pc
  }

  /** What the top of the retry loop asks for, one unlocked read after another. */
  predicate Passes(s: State, test: nat) {
    if test == 0 then s.enabled
    else if test == 1 then s.config.stallMode
    else !s.config.bypass
  }

  predicate Open(s: State) {
    Passes(s, 0) && Passes(s, 1) && Passes(s, 2)
  }

  /** The waiter is before a test that fails. */
  predicate FindsClosed(s: State, w: nat) {
    w < |s.waiters| && s.waiters[w].pc.Checking? && !Passes(s, s.waiters[w].pc.test)
  }

  predicate CanStep(s: State, step: Step) {
    match step
    case Draw(_, _, _) => true
    case NewEvent => true
    case Prepare(w) => IsAt(s, w, Drawn) && s.enabled
    case Link(w) => IsAt(s, w, Prepared)
    case Start(w) => IsAt(s, w, Entered)
    case Check(w) => w < |s.waiters| && s.waiters[w].pc.Checking?
    case Interrupt(w) => IsAt(s, w, Waiting)
    case TimeOut(w) => IsAt(s, w, Waiting) && s.waiters[w].entry.mode == Stalled
    case Wake(w) => IsAt(s, w, Waiting) && s.waiters[w].entry.mode != Stalled
    case Leave(w) => w < |s.waiters| && s.waiters[w].pc.Leaving?
    case Respond(_, _, _) => s.enabled
    case WakeDisabled(w) => w < |s.waiters| && w in s.table
    case SetEnabled(_) => true
    case SetBypass(_) => true
    case SetConfig(_) => true
    case ResetConfig => true
  }

  /** stall_tbl_resume: only a continuation carries a timeout. */
  function AnswerTimeout(c: Config, answer: Answer, timeout: nat): nat {
    if answer != Continue then 0
    else AtMost(if timeout == 0 then c.continueTimeout else timeout, MAX_EXTENDED_TIMEOUT_MS)
  }

  /** The first linked entry with this key, as the search of its list finds it. */
  function Search(table: seq<nat>, waiters: seq<Waiter>, key: Key): (r: Option<nat>)
    ensures r.Some? ==> r.value in table && r.value < |waiters| && waiters[r.value].entry.key == key
    ensures r.None? ==> forall w :: w in table && w < |waiters| ==> waiters[w].entry.key != key
  {
    if table == [] then None
    else if table[0] < |waiters| && waiters[table[0]].entry.key == key then Some(table[0])
    else Search(table[1..], waiters, key)
  }

  function Unlink(table: seq<nat>, w: nat): (r: seq<nat>)
    ensures forall v :: v in r <==> v in table && v != w
  {
    if table == [] then []
    else (if table[0] == w then [] else [table[0]]) + Unlink(table[1..], w)
  }

  function Answered(v: Waiter, c: Config, answer: Answer, timeout: nat): Waiter {
    v.(entry := v.entry.(mode := Resumed, answer := answer, timeout := AnswerTimeout(c, answer, timeout)))
  }

  function Woken(v: Waiter, c: Config): Waiter {
    var answer := v.entry.answer;
    var u := v.(entry := v.entry.(mode := Stalled));
    if answer == Continue then
      var timeout := if v.entry.timeout != 0 then v.entry.timeout else c.continueTimeout;
      if v.count + 1 < MAX_CONTINUE_RESPONSES
      then u.(count := v.count + 1, timeout := timeout, pc := Checking(0))
      else u.(count := v.count + 1, timeout := timeout, pc := Leaving(Continue))
    else u.(pc := Leaving(answer))
  }

  function Put(s: State, w: nat, v: Waiter): State
    requires w < |s.waiters|
  {
    s.(waiters := s.waiters[w := v])
  }

  function Apply(s: State, step: Step): State
    requires CanStep(s, step)
  {
    match step
    case Draw(tid, eventType, inode) =>
      var x := Entry(Key(s.lastReq + 1, eventType, tid), Stalled, Allow, 0, inode);
      s.(lastReq := s.lastReq + 1, waiters := s.waiters + [Waiter(Drawn, x, false, Allow, 0, 0, 0, 0)])
    case NewEvent => s.(lastReq := s.lastReq + 1)
    case Prepare(w) =>
      var v := s.waiters[w];
      var answer := if s.config.deny then Deny else Allow;
      Put(s, w, v.(pc := Prepared, entry := v.entry.(answer := answer), denying := s.config.deny))
    case Link(w) => Put(s, w, s.waiters[w].(pc := Entered)).(table := [w] + s.table)
    case Start(w) =>
      var v := s.waiters[w];
      // The entry is in the table already, so this may be the client's answer.
      Put(s, w, v.(pc := Checking(0), default := v.entry.answer, timeout := s.config.timeout))
    case Check(w) =>
      var v := s.waiters[w];
      // The early return leaves the response at its safe value and the entry where it is.
      if FindsClosed(s, w) then Put(s, w, v.(pc := Done(Allow)))
      else if v.pc.test < 2 then Put(s, w, v.(pc := Checking(v.pc.test + 1)))
      else Put(s, w, v.(pc := Waiting, waits := v.waits + 1, requested := v.requested + v.timeout))
    case Interrupt(w) => Put(s, w, s.waiters[w].(pc := Leaving(s.waiters[w].default)))
    case TimeOut(w) => Put(s, w, s.waiters[w].(pc := Leaving(s.waiters[w].default)))
    case Wake(w) => Put(s, w, Woken(s.waiters[w], s.config))
    case Leave(w) =>
      Put(s, w, s.waiters[w].(pc := Done(s.waiters[w].pc.verdict))).(table := Unlink(s.table, w))
    case Respond(key, answer, timeout) =>
      (match Search(s.table, s.waiters, key)
       case None => s
       case Some(w) =>
         Put(s, w, Answered(s.waiters[w], s.config, answer, timeout)).(issued := s.issued + [Issued(key, answer)]))
    case WakeDisabled(w) =>
      var v := s.waiters[w];
      Put(s, w, v.(entry := v.entry.(mode := Disabled, answer := Allow)))
    case SetEnabled(on) => s.(enabled := on)
    case SetBypass(on) => s.(config := s.config.(bypass := on))
    case SetConfig(r) => s.(config := Configure(s.config, r))
    case ResetConfig => s.(config := DEFAULT_CONFIG)
  }

  predicate Runs(s: State, steps: seq<Step>)
    decreases |steps|
  {
    steps == [] || (CanStep(s, steps[0]) && Runs(Apply(s, steps[0]), steps[1..]))
  }

  function After(s: State, steps: seq<Step>): State
    requires Runs(s, steps)
    decreases |steps|
  {
    if steps == [] then s else After(Apply(s, steps[0]), steps[1..])
  }

  const INITIAL: State := State(false, DEFAULT_CONFIG, 0, [], [], [])

  // ----- what every step keeps

  /** Most time the first n waits of one stall may ask for. */
  function WaitBudget(n: nat): nat {
    if n == 0 then 0 else MAX_WAIT_TIMEOUT_MS + (n - 1) * MAX_EXTENDED_TIMEOUT_MS
  }

  predicate Justified(v: Waiter, answer: Answer, issued: seq<Issued>) {
    answer == Deny ==> v.denying || Issued(v.entry.key, Deny) in issued
  }

  predicate AnswersOk(v: Waiter, issued: seq<Issued>) {
    && Justified(v, v.entry.answer, issued)
    && Justified(v, v.default, issued)
    && (v.pc.Leaving? ==> Justified(v, v.pc.verdict, issued))
    && (v.pc.Done? ==> Justified(v, v.pc.verdict, issued))
    && (v.pc == Drawn ==> v.entry.answer == v.default == Allow)
    && (v.pc == Prepared ==> v.default == Allow)
  }

  predicate BudgetOk(v: Waiter) {
    && v.entry.timeout <= MAX_EXTENDED_TIMEOUT_MS
    && v.requested <= WaitBudget(v.waits)
    && v.timeout <= (if v.count == 0 then MAX_WAIT_TIMEOUT_MS else MAX_EXTENDED_TIMEOUT_MS)
    && match v.pc
       case Drawn => v.waits == v.count == 0
       case Prepared => v.waits == v.count == 0
       case Entered => v.waits == v.count == 0
       case Checking(test) => v.waits == v.count < MAX_CONTINUE_RESPONSES && test <= 2
       case Waiting => v.waits == v.count + 1 <= MAX_CONTINUE_RESPONSES
       case Leaving(_) => v.waits <= MAX_CONTINUE_RESPONSES
       case Done(_) => v.waits <= MAX_CONTINUE_RESPONSES
  }

  predicate WaiterOk(v: Waiter, issued: seq<Issued>) {
    AnswersOk(v, issued) && BudgetOk(v)
  }

  /** Ids are handed out in order, one to an event. */
  predicate KeysFresh(s: State) {
    && (forall w :: 0 <= w < |s.waiters| ==> s.waiters[w].entry.key.reqId <= s.lastReq)
    && (forall v, w :: 0 <= v < w < |s.waiters| ==>
          s.waiters[v].entry.key.reqId < s.waiters[w].entry.key.reqId)
  }

  predicate MustBeLinked(pc: Pc) {
    pc == Entered || pc.Checking? || pc == Waiting || pc.Leaving?
  }

  /** Between linking and leaving an entry is in the table; before it is not. */
  predicate TableOk(s: State) {
    && (forall w :: w in s.table ==> w < |s.waiters|)
    && (forall w :: 0 <= w < |s.waiters| ==> LinkOk(s, w))
  }

  predicate LinkOk(s: State, w: nat)
    requires w < |s.waiters|
  {
    var pc := s.waiters[w].pc;
    (MustBeLinked(pc) ==> w in s.table) && (pc == Drawn || pc == Prepared ==> w !in s.table)
  }

  predicate Inv(s: State) {
    && InRange(s.config)
    && KeysFresh(s)
    && TableOk(s)
    && (forall w :: 0 <= w < |s.waiters| ==> WaiterOk(s.waiters[w], s.issued))
  }

  lemma WaiterOkStays(v: Waiter, issued: seq<Issued>, more: seq<Issued>)
    requires WaiterOk(v, issued) && issued <= more
    ensures WaiterOk(v, more)
  {
    assert forall x :: x in issued ==> x in more;
  }

  /** A waiter moves on, and its entry is linked or unlinked as its place asks. */
  lemma PutKeepsInv(s: State, w: nat, v: Waiter, table: seq<nat>)
    requires Inv(s) && w < |s.waiters| && v.entry.key == s.waiters[w].entry.key && WaiterOk(v, s.issued)
    requires forall u :: u != w ==> (u in table <==> u in s.table)
    requires (MustBeLinked(v.pc) ==> w in table) && (v.pc == Drawn || v.pc == Prepared ==> w !in table)
    ensures Inv(Put(s, w, v).(table := table))
  {
    var t := Put(s, w, v).(table := table);
    forall u | 0 <= u < |t.waiters| ensures LinkOk(t, u) {
      assert LinkOk(s, u);
    }
  }

  lemma MoveKeepsInv(s: State, w: nat, v: Waiter)
    requires Inv(s) && w < |s.waiters| && v.entry.key == s.waiters[w].entry.key && WaiterOk(v, s.issued)
    requires (MustBeLinked(v.pc) ==> w in s.table) && (v.pc == Drawn || v.pc == Prepared ==> w !in s.table)
    ensures Inv(Put(s, w, v))
  {
    PutKeepsInv(s, w, v, s.table);
    assert Put(s, w, v).(table := s.table) == Put(s, w, v);
  }

  lemma CheckOk(v: Waiter, issued: seq<Issued>)
    requires WaiterOk(v, issued) && v.pc.Checking?
    ensures WaiterOk(v.(pc := Waiting, waits := v.waits + 1, requested := v.requested + v.timeout), issued)
  {
  }

  lemma WokenOk(v: Waiter, c: Config, issued: seq<Issued>)
    requires WaiterOk(v, issued) && v.pc == Waiting && InRange(c)
    ensures WaiterOk(Woken(v, c), issued) && MustBeLinked(Woken(v, c).pc)
  {
  }

  lemma DrawKeepsInv(s: State, step: Step)
    requires Inv(s) && step.Draw?
    ensures Inv(Apply(s, step))
  {
    var t := Apply(s, step);
    forall w | 0 <= w < |t.waiters| ensures LinkOk(t, w) {
      if w < |s.waiters| {
        assert LinkOk(s, w);
      }
    }
    assert WaiterOk(t.waiters[|s.waiters|], s.issued);
  }

  lemma InsertKeepsInv(s: State, w: nat)
    requires Inv(s) && w < |s.waiters|
    ensures CanStep(s, Prepare(w)) ==> Inv(Apply(s, Prepare(w)))
    ensures CanStep(s, Link(w)) ==> Inv(Apply(s, Link(w)))
  {
    var v := s.waiters[w];
    assert LinkOk(s, w);
    if CanStep(s, Prepare(w)) {
      MoveKeepsInv(s, w, v.(pc := Prepared, entry := v.entry.(answer := if s.config.deny then Deny else Allow),
                            denying := s.config.deny));
    }
    if CanStep(s, Link(w)) {
      PutKeepsInv(s, w, v.(pc := Entered), [w] + s.table);
    }
  }

  lemma StartKeepsInv(s: State, w: nat)
    requires Inv(s) && IsAt(s, w, Entered)
    ensures Inv(Apply(s, Start(w)))
  {
    var v := s.waiters[w];
    assert LinkOk(s, w);
    MoveKeepsInv(s, w, v.(pc := Checking(0), default := v.entry.answer, timeout := s.config.timeout));
  }

  lemma CheckKeepsInv(s: State, w: nat)
    requires Inv(s) && CanStep(s, Check(w))
    ensures Inv(Apply(s, Check(w)))
  {
    var v := s.waiters[w];
    assert LinkOk(s, w);
    CheckOk(v, s.issued);
    if FindsClosed(s, w) {
      MoveKeepsInv(s, w, v.(pc := Done(Allow)));
    } else if v.pc.test < 2 {
      MoveKeepsInv(s, w, v.(pc := Checking(v.pc.test + 1)));
    } else {
      MoveKeepsInv(s, w, v.(pc := Waiting, waits := v.waits + 1, requested := v.requested + v.timeout));
    }
  }

  lemma EndKeepsInv(s: State, w: nat)
    requires Inv(s) && w < |s.waiters|
    ensures s.waiters[w].pc == Waiting ==> Inv(Put(s, w, s.waiters[w].(pc := Leaving(s.waiters[w].default))))
    ensures CanStep(s, Wake(w)) ==> Inv(Apply(s, Wake(w)))
    ensures CanStep(s, Leave(w)) ==> Inv(Apply(s, Leave(w)))
  {
    var v := s.waiters[w];
    assert LinkOk(s, w);
    if v.pc == Waiting {
      MoveKeepsInv(s, w, v.(pc := Leaving(v.default)));
      WokenOk(v, s.config, s.issued);
      MoveKeepsInv(s, w, Woken(v, s.config));
    }
    if v.pc.Leaving? {
      PutKeepsInv(s, w, v.(pc := Done(v.pc.verdict)), Unlink(s.table, w));
    }
  }

  lemma DisableKeepsInv(s: State, w: nat)
    requires Inv(s) && w < |s.waiters| && w in s.table
    ensures Inv(Apply(s, WakeDisabled(w)))
  {
    var v := s.waiters[w];
    assert LinkOk(s, w);
    MoveKeepsInv(s, w, v.(entry := v.entry.(mode := Disabled, answer := Allow)));
  }

  lemma RespondKeepsInv(s: State, step: Step)
    requires Inv(s) && CanStep(s, step) && step.Respond?
    ensures Inv(Apply(s, step))
  {
    var target := Search(s.table, s.waiters, step.key);
    if target.Some? {
      var w := target.value;
      var v := s.waiters[w];
      var more := s.issued + [Issued(step.key, step.answer)];
      forall u | 0 <= u < |s.waiters| ensures WaiterOk(s.waiters[u], more) {
        WaiterOkStays(s.waiters[u], s.issued, more);
      }
      var s' := s.(issued := more);
      assert LinkOk(s, w);
      forall u | 0 <= u < |s.waiters| ensures LinkOk(s', u) {
        assert LinkOk(s, u);
      }
      assert more[|s.issued|] == Issued(step.key, step.answer);
      MoveKeepsInv(s', w, Answered(v, s.config, step.answer, step.timeout));
    }
  }

  lemma SettingKeepsInv(s: State, t: State)
    requires Inv(s) && InRange(t.config) && s.lastReq <= t.lastReq
    requires t.waiters == s.waiters && t.table == s.table && t.issued == s.issued
    ensures Inv(t)
  {
    forall u | 0 <= u < |t.waiters| ensures LinkOk(t, u) {
      assert LinkOk(s, u);
    }
  }

  lemma StepKeepsInv(s: State, step: Step)
    requires Inv(s) && CanStep(s, step)
    ensures Inv(Apply(s, step))
  {
    match step
    case Draw(_, _, _) => DrawKeepsInv(s, step);
    case Prepare(w) => InsertKeepsInv(s, w);
    case Link(w) => InsertKeepsInv(s, w);
    case Start(w) => StartKeepsInv(s, w);
    case Check(w) => CheckKeepsInv(s, w);
    case Interrupt(w) => EndKeepsInv(s, w);
    case TimeOut(w) => EndKeepsInv(s, w);
    case Wake(w) => EndKeepsInv(s, w);
    case Leave(w) => EndKeepsInv(s, w);
    case Respond(_, _, _) => RespondKeepsInv(s, step);
    case WakeDisabled(w) => DisableKeepsInv(s, w);
    case _ => SettingKeepsInv(s, Apply(s, step));
  }

  lemma {:induction false} RunKeepsInv(s: State, steps: seq<Step>)
    requires Inv(s) && Runs(s, steps)
    ensures Inv(After(s, steps))
    decreases |steps|
  {
    if steps != [] {
      StepKeepsInv(s, steps[0]);
      RunKeepsInv(Apply(s, steps[0]), steps[1..]);
    }
  }

  // ----- who gets a response

  lemma KeysDiffer(s: State, v: nat, w: nat)
    requires Inv(s) && v < |s.waiters| && w < |s.waiters| && v != w
    ensures s.waiters[v].entry.key != s.waiters[w].entry.key
  {
    if v < w {
      assert s.waiters[v].entry.key.reqId < s.waiters[w].entry.key.reqId;
    } else {
      assert s.waiters[w].entry.key.reqId < s.waiters[v].entry.key.reqId;
    }
  }

  lemma SearchFinds(s: State, w: nat)
    requires Inv(s) && w < |s.waiters| && w in s.table
    ensures Search(s.table, s.waiters, s.waiters[w].entry.key) == Some(w)
  {
    forall v | 0 <= v < |s.waiters| && v != w ensures s.waiters[v].entry.key != s.waiters[w].entry.key {
      KeysDiffer(s, v, w);
    }
  }

  /** Events draw their ids and enter the table at different times, in any order.
      Still no two ever share a key: a response changes the linked entry with its
      key, if there is one, and nothing else. */
  lemma ResponseReachesOneWaiter(steps: seq<Step>, key: Key, answer: Answer, timeout: nat)
    requires Runs(INITIAL, steps) && After(INITIAL, steps).enabled
    ensures
      var s := After(INITIAL, steps);
      var t := Apply(s, Respond(key, answer, timeout));
      && (forall v, w :: 0 <= v < w < |s.waiters| ==> s.waiters[v].entry.key != s.waiters[w].entry.key)
      && |t.waiters| == |s.waiters| && t.table == s.table
      && (forall w :: 0 <= w < |s.waiters| ==> t.waiters[w] == Reached(s, w, key, answer, timeout))
  {
    var s := After(INITIAL, steps);
    RunKeepsInv(INITIAL, steps);
    forall v, w | 0 <= v < w < |s.waiters| ensures s.waiters[v].entry.key != s.waiters[w].entry.key {
      KeysDiffer(s, v, w);
    }
    var t := Apply(s, Respond(key, answer, timeout));
    forall w | 0 <= w < |s.waiters| ensures t.waiters[w] == Reached(s, w, key, answer, timeout) {
      if w in s.table && s.waiters[w].entry.key == key {
        SearchFinds(s, w);
      }
    }
  }

  function Reached(s: State, w: nat, key: Key, answer: Answer, timeout: nat): Waiter
    requires w < |s.waiters|
  {
    if w in s.table && s.waiters[w].entry.key == key then Answered(s.waiters[w], s.config, answer, timeout)
    else s.waiters[w]
  }

  // ----- causes and bounds

  /** A stall is denied only if deny-on-timeout was on when its entry was filled
      in, or a denial was issued for its own key. */
  lemma DeniedOnlyWithCause(steps: seq<Step>, w: nat)
    requires Runs(INITIAL, steps) && IsAt(After(INITIAL, steps), w, Done(Deny))
    ensures
      var s := After(INITIAL, steps);
      s.waiters[w].denying || Issued(s.waiters[w].entry.key, Deny) in s.issued
  {
    RunKeepsInv(INITIAL, steps);
  }

  /** However the client and the configuration behave, one stall waits at most
      256 times and asks for at most 15000 + 255 * 1800000 milliseconds. */
  lemma WaitsAreBounded(steps: seq<Step>, w: nat)
    requires Runs(INITIAL, steps) && w < |After(INITIAL, steps).waiters|
    ensures
      var v := After(INITIAL, steps).waiters[w];
      v.waits <= 256 && v.requested <= 15000 + 255 * 1800000
  {
    RunKeepsInv(INITIAL, steps);
    var v := After(INITIAL, steps).waiters[w];
    assert WaitBudget(v.waits) <= WaitBudget(256);
  }

  // ----- what is left in the table

  /** At some point of the run, at the top of its loop, the waiter read that the
      table was off, that stalling was off or that bypass was on. */
  predicate FoundClosed(s: State, steps: seq<Step>, w: nat)
    requires Runs(s, steps)
    decreases |steps|
  {
    steps != [] &&
    ((steps[0] == Check(w) && FindsClosed(s, w)) || FoundClosed(Apply(s, steps[0]), steps[1..], w))
  }

  predicate IsDone(s: State, w: nat) {
    w < |s.waiters| && s.waiters[w].pc.Done?
  }

  lemma DoneStays(s: State, step: Step, w: nat)
    requires CanStep(s, step) && IsDone(s, w)
    ensures IsDone(Apply(s, step), w) && Apply(s, step).waiters[w].pc == s.waiters[w].pc
    ensures w in Apply(s, step).table <==> w in s.table
    ensures Apply(s, step).waiters[w].entry.key == s.waiters[w].entry.key
  {
  }

  lemma BecomesDone(s: State, step: Step, w: nat)
    requires Inv(s) && CanStep(s, step) && !IsDone(s, w) && IsDone(Apply(s, step), w)
    ensures w in Apply(s, step).table <==> step == Check(w) && FindsClosed(s, w)
  {
    assert step == Check(w) || step == Leave(w);
    assert LinkOk(s, w);
  }

  lemma {:induction false} DoneForGood(s: State, steps: seq<Step>, w: nat)
    requires Runs(s, steps) && IsDone(s, w)
    ensures IsDone(After(s, steps), w) && After(s, steps).waiters[w].pc == s.waiters[w].pc
    ensures w in After(s, steps).table <==> w in s.table
    ensures After(s, steps).waiters[w].entry.key == s.waiters[w].entry.key
    ensures !FoundClosed(s, steps, w)
    decreases |steps|
  {
    if steps != [] {
      DoneStays(s, steps[0], w);
      DoneForGood(Apply(s, steps[0]), steps[1..], w);
    }
  }

  lemma {:induction false} LeftExactly(s: State, steps: seq<Step>, w: nat)
    requires Inv(s) && Runs(s, steps) && !IsDone(s, w) && IsDone(After(s, steps), w)
    ensures w in After(s, steps).table <==> FoundClosed(s, steps, w)
    decreases |steps|
  {
    if steps != [] {
      var t := Apply(s, steps[0]);
      StepKeepsInv(s, steps[0]);
      if IsDone(t, w) {
        BecomesDone(s, steps[0], w);
        DoneForGood(t, steps[1..], w);
      } else {
        LeftExactly(t, steps[1..], w);
      }
    }
  }

  /** A hook that has returned left its entry in the table if and only if at the top
      of its retry loop it once read that the table was off, that stalling was off or
      that bypass was on. */
  lemma FinishedLeavesTableExactly(steps: seq<Step>, w: nat)
    requires Runs(INITIAL, steps) && IsDone(After(INITIAL, steps), w)
    ensures w in After(INITIAL, steps).table <==> FoundClosed(INITIAL, steps, w)
  {
    LeftExactly(INITIAL, steps, w);
  }

  /** Such an entry never goes: whatever happens after the test, it is in the table
      and takes every response to its key. */
  lemma ClosedCheckLeavesEntry(s: State, w: nat, more: seq<Step>, answer: Answer, timeout: nat)
    requires Inv(s) && FindsClosed(s, w) && Runs(Apply(s, Check(w)), more)
    ensures
      var t := After(Apply(s, Check(w)), more);
      && IsAt(t, w, Done(Allow)) && w in t.table
      && (t.enabled ==>
            var u := Apply(t, Respond(s.waiters[w].entry.key, answer, timeout));
            u.waiters[w] == Answered(t.waiters[w], t.config, answer, timeout) && |u.issued| == |t.issued| + 1)
  {
    var s' := Apply(s, Check(w));
    assert LinkOk(s, w);
    StepKeepsInv(s, Check(w));
    RunKeepsInv(s', more);
    DoneForGood(s', more, w);
    SearchFinds(After(s', more), w);
  }

  // ----- runs put together

  lemma {:induction false} RunsSnoc(s: State, steps: seq<Step>, step: Step)
    requires Runs(s, steps) && CanStep(After(s, steps), step)
    ensures Runs(s, steps + [step]) && After(s, steps + [step]) == Apply(After(s, steps), step)
    decreases |steps|
  {
    if steps == [] {
      assert [step][1..] == [];
    } else {
      RunsSnoc(Apply(s, steps[0]), steps[1..], step);
      assert (steps + [step])[1..] == steps[1..] + [step];
    }
  }

  /** A state in which an entry has been left behind is reached. */
  lemma EntryLeftBehind(tid: nat, eventType: nat, inode: nat) returns (steps: seq<Step>)
    ensures Runs(INITIAL, steps) && IsDone(After(INITIAL, steps), 0) && 0 in After(INITIAL, steps).table
  {
    steps := [];
    var t := INITIAL;
    var script := [SetEnabled(true), Draw(tid, eventType, inode), Prepare(0), Link(0), Start(0),
                   SetBypass(true), Check(0), Check(0), Check(0)];
    var i := 0;
    while i < |script|
      invariant 0 <= i <= |script| && Runs(INITIAL, steps) && After(INITIAL, steps) == t
      invariant i == 0 ==> t == INITIAL
      invariant i > 0 ==> t.enabled
      invariant t.config.stallMode
      invariant i == 1 ==> t.waiters == []
      invariant i > 1 ==> |t.waiters| == 1
      invariant i == 2 ==> IsAt(t, 0, Drawn)
      invariant i == 3 ==> IsAt(t, 0, Prepared)
      invariant i == 4 ==> IsAt(t, 0, Entered)
      invariant i > 3 ==> 0 in t.table
      invariant 5 <= i <= 6 ==> IsAt(t, 0, Checking(0))
      invariant i >= 6 ==> t.config.bypass
      invariant 7 <= i <= 8 ==> IsAt(t, 0, Checking(i - 6))
      invariant i == 9 ==> IsDone(t, 0)
    {
      RunsSnoc(INITIAL, steps, script[i]);
      t, steps := Apply(t, script[i]), steps + [script[i]];
      i := i + 1;
    }
  }

  // ----- what a timeout comes to

  /** The answer a step writes into an entry, from the client or from disabling. */
  function Touch(s: State, step: Step, w: nat): Option<Answer> {
    match step
    case Respond(key, answer, _) => if Search(s.table, s.waiters, key) == Some(w) then Some(answer) else None
    case WakeDisabled(v) => if v == w then Some(Allow) else None
    case _ => None
  }

  /** The last of these over a run, after `before`. */
  function LastTouch(s: State, steps: seq<Step>, w: nat, before: Option<Answer>): Option<Answer>
    requires Runs(s, steps)
    decreases |steps|
  {
    if steps == [] then before
    else
      var touch := Touch(s, steps[0], w);
      LastTouch(Apply(s, steps[0]), steps[1..], w, if touch.Some? then touch else before)
  }

  /** What the entry holds after a last touch: that, or the default it was given. */
  predicate HoldsTouch(s: State, w: nat, last: Option<Answer>) {
    if w >= |s.waiters| || s.waiters[w].pc == Drawn then last == None
    else
      var v := s.waiters[w];
      v.entry.answer == if last.Some? then last.value else if v.denying then Deny else Allow
  }

  lemma TouchStep(s: State, step: Step, w: nat, last: Option<Answer>)
    requires Inv(s) && CanStep(s, step) && HoldsTouch(s, w, last)
    ensures
      var touch := Touch(s, step, w);
      HoldsTouch(Apply(s, step), w, if touch.Some? then touch else last)
  {
    if w < |s.waiters| {
      assert LinkOk(s, w);
    }
  }

  lemma {:induction false} TouchRun(s: State, steps: seq<Step>, w: nat, last: Option<Answer>)
    requires Inv(s) && Runs(s, steps) && HoldsTouch(s, w, last)
    ensures HoldsTouch(After(s, steps), w, LastTouch(s, steps, w, last))
    decreases |steps|
  {
    if steps != [] {
      var touch := Touch(s, steps[0], w);
      TouchStep(s, steps[0], w, last);
      StepKeepsInv(s, steps[0]);
      TouchRun(Apply(s, steps[0]), steps[1..], w, if touch.Some? then touch else last);
    }
  }

  predicate Started(s: State, w: nat) {
    w < |s.waiters| && s.waiters[w].pc != Drawn && s.waiters[w].pc != Prepared && s.waiters[w].pc != Entered
  }

  lemma {:induction false} DefaultStays(s: State, steps: seq<Step>, w: nat)
    requires Runs(s, steps) && Started(s, w)
    ensures Started(After(s, steps), w) && After(s, steps).waiters[w].default == s.waiters[w].default
    decreases |steps|
  {
    if steps != [] {
      DefaultStays(Apply(s, steps[0]), steps[1..], w);
    }
  }

  predicate Decided(s: State, w: nat, verdict: Answer) {
    IsAt(s, w, Leaving(verdict)) || IsAt(s, w, Done(verdict))
  }

  lemma {:induction false} DecidedStays(s: State, steps: seq<Step>, w: nat, verdict: Answer)
    requires Runs(s, steps) && Decided(s, w, verdict)
    ensures Decided(After(s, steps), w, verdict)
    decreases |steps|
  {
    if steps != [] {
      DecidedStays(Apply(s, steps[0]), steps[1..], w, verdict);
    }
  }

  /**
   A stall that ends by a timeout or an interruption, in every run: up to `before`
   the waiter has not looked at its entry; it starts, waits and is continued as
   often as may be during `during`; its wait ends; it returns during `rest`. It is
   denied if and only if the last answer its entry got before the start was a
   denial, or it got none and deny-on-timeout was on when it was filled in.
   */
  lemma TimeoutVerdictExactly(before: seq<Step>, w: nat, during: seq<Step>, end: Step, rest: seq<Step>)
    requires Runs(INITIAL, before)
    requires
      var s := After(INITIAL, before);
      && CanStep(s, Start(w)) && Runs(Apply(s, Start(w)), during)
      && var t := After(Apply(s, Start(w)), during);
      && (end == TimeOut(w) || end == Interrupt(w)) && CanStep(t, end) && Runs(Apply(t, end), rest)
      && IsDone(After(Apply(t, end), rest), w)
    ensures
      var s := After(INITIAL, before);
      var t := After(Apply(s, Start(w)), during);
      var last := LastTouch(INITIAL, before, w, None);
      After(Apply(t, end), rest).waiters[w].pc == Done(Deny) <==>
        if last.Some? then last.value == Deny else s.waiters[w].denying
  {
    var s := After(INITIAL, before);
    RunKeepsInv(INITIAL, before);
    TouchRun(INITIAL, before, w, None);
    var s' := Apply(s, Start(w));
    DefaultStays(s', during, w);
    var t := After(s', during);
    DecidedStays(Apply(t, end), rest, w, t.waiters[w].default);
  }

  /** So deny-on-timeout does not always deny: from every state with a stall that
      has not started to wait, a continuation that comes first can make a later
      timeout an allowance. */
  lemma EarlyContinuationDisarmsDeny(s: State, w: nat) returns (steps: seq<Step>)
    requires Inv(s) && IsAt(s, w, Entered) && Open(s)
    ensures Runs(s, steps)
    ensures IsAt(After(s, steps), w, Done(Continue))
    ensures After(s, steps).waiters[w].denying == s.waiters[w].denying
  {
    var key := s.waiters[w].entry.key;
    assert LinkOk(s, w);
    SearchFinds(s, w);
    steps := [Respond(key, Continue, 0)];
    RunsSnoc(s, [], steps[0]);
    var t := Apply(s, steps[0]);
    t, steps := OneMore(s, steps, Start(w));
    t, steps := PassesChecks(s, steps, w);
    t, steps := OneMore(s, steps, Wake(w));
    t, steps := PassesChecks(s, steps, w);
    t, steps := OneMore(s, steps, TimeOut(w));
    t, steps := OneMore(s, steps, Leave(w));
  }

  /** A run and the state it leads to, one step further. */
  lemma OneMore(s: State, steps: seq<Step>, step: Step) returns (t: State, steps': seq<Step>)
    requires Runs(s, steps) && CanStep(After(s, steps), step)
    ensures steps' == steps + [step] && Runs(s, steps') && After(s, steps') == t == Apply(After(s, steps), step)
  {
    RunsSnoc(s, steps, step);
    t, steps' := Apply(After(s, steps), step), steps + [step];
  }

  /** With stalling on, a waiter passes the three tests and waits. */
  lemma PassesChecks(s: State, steps: seq<Step>, w: nat) returns (t: State, steps': seq<Step>)
    requires Runs(s, steps) && Open(After(s, steps)) && IsAt(After(s, steps), w, Checking(0))
    ensures Runs(s, steps') && After(s, steps') == t
    ensures
      var u := After(s, steps);
      var v := u.waiters[w];
      t == Put(u, w, v.(pc := Waiting, waits := v.waits + 1, requested := v.requested + v.timeout))
  {
    t, steps' := OneMore(s, steps, Check(w));
    t, steps' := OneMore(s, steps', Check(w));
    t, steps' := OneMore(s, steps', Check(w));
  }

  lemma {:induction false} RunsConcat(s: State, a: seq<Step>, b: seq<Step>)
    requires Runs(s, a) && Runs(After(s, a), b)
    ensures Runs(s, a + b) && After(s, a + b) == After(After(s, a), b)
    decreases |a|
  {
    if a == [] {
      assert a + b == b;
    } else {
      RunsConcat(Apply(s, a[0]), a[1..], b);
      assert (a + b)[1..] == a[1..] + b;
    }
  }

  /** A run from the start, with deny-on-timeout on, in which a stall times out and is
      not denied. */
  lemma DenyOnTimeoutDisarmed(tid: nat, eventType: nat, inode: nat) returns (steps: seq<Step>)
    ensures Runs(INITIAL, steps) && IsAt(After(INITIAL, steps), 0, Done(Continue))
    ensures After(INITIAL, steps).waiters[0].denying
  {
    var t;
    var request := Request(Keep, Keep, Keep, Set(true));
    t, steps := OneMore(INITIAL, [], SetEnabled(true));
    t, steps := OneMore(INITIAL, steps, SetConfig(request));
    t, steps := OneMore(INITIAL, steps, Draw(tid, eventType, inode));
    t, steps := OneMore(INITIAL, steps, Prepare(0));
    t, steps := OneMore(INITIAL, steps, Link(0));
    RunKeepsInv(INITIAL, steps);
    var more := EarlyContinuationDisarmsDeny(t, 0);
    RunsConcat(INITIAL, steps, more);
    steps := steps + more;
  }
}
