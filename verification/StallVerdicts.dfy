/**
 What an answer comes to, over whole runs of the stall protocol: which verdict a
 woken stall returns with, how often it may be continued, and how long it waits.
 */
module StallVerdicts {
  import opened Common
  import opened StallConfig
  import opened StallProtocol

  /** How long a response lets its stall wait on: what it says, at most half an hour,
      and what is configured when it says nothing. */
  function AskedWait(s: State, answer: Answer, timeout: nat): nat {
    if answer != Continue then 0
    else if timeout == 0 then s.config.continueTimeout
    else if timeout > 1800000 then 1800000
    else timeout
  }

  /** The wait that the last response to reach the entry asked for. */
  function LastWait(s: State, steps: seq<Step>, w: nat, before: nat): nat
    requires Runs(s, steps)
    decreases |steps|
  {
    if steps == [] then before
    else
      var wait :=
        match steps[0]
        case Respond(key, answer, timeout) =>
          if Search(s.table, s.waiters, key) == Some(w) then AskedWait(s, answer, timeout) else before
        case _ => before;
      LastWait(Apply(s, steps[0]), steps[1..], w, wait)
  }

  /** How often the waiter has been woken. */
  function Wakes(steps: seq<Step>, w: nat): nat {
    if steps == [] then 0 else (if steps[0] == Wake(w) then 1 else 0) + Wakes(steps[1..], w)
  }

  /** What a waiter's history says about its entry: the last answer, the wait it asked
      for, and the number of wake-ups. */
  datatype History = History(last: Option<Answer>, wait: nat, wakes: nat)

  function Later(h: History, s: State, step: Step, w: nat): History {
    var touch := Touch(s, step, w);
    History(if touch.Some? then touch else h.last,
            if step.Respond? && touch.Some? then AskedWait(s, step.answer, step.timeout) else h.wait,
            if step == Wake(w) then h.wakes + 1 else h.wakes)
  }

  predicate Tells(h: History, s: State, w: nat) {
    if w >= |s.waiters| then h == History(None, 0, 0)
    else
      var v := s.waiters[w];
      && (v.entry.mode != Stalled ==> h.last.Some?)
      && (h.last == Some(Continue) ==> h.wait != 0)
      && v.entry.timeout == h.wait
      && (!v.pc.Leaving? && !v.pc.Done? ==> v.count == h.wakes)
  }

  lemma RespondTells(h: History, s: State, step: Step, w: nat)
    requires Inv(s) && CanStep(s, step) && step.Respond? && Tells(h, s, w)
    ensures Tells(Later(h, s, step, w), Apply(s, step), w)
  {
  }

  lemma WakeTells(h: History, s: State, v: nat, w: nat)
    requires Inv(s) && CanStep(s, Wake(v)) && Tells(h, s, w)
    ensures Tells(Later(h, s, Wake(v), w), Apply(s, Wake(v)), w)
  {
  }

  lemma StepTells(h: History, s: State, step: Step, w: nat)
    requires Inv(s) && CanStep(s, step) && Tells(h, s, w)
    ensures Tells(Later(h, s, step, w), Apply(s, step), w)
  {
    if step.Respond? {
      RespondTells(h, s, step, w);
    } else if step.Wake? {
      WakeTells(h, s, step.w, w);
    }
  }

  lemma {:induction false} RunTells(h: History, s: State, steps: seq<Step>, w: nat)
    requires Inv(s) && Runs(s, steps) && Tells(h, s, w)
    ensures
      Tells(History(LastTouch(s, steps, w, h.last), LastWait(s, steps, w, h.wait), h.wakes + Wakes(steps, w)),
            After(s, steps), w)
    decreases |steps|
  {
    if steps != [] {
      StepTells(h, s, steps[0], w);
      StepKeepsInv(s, steps[0]);
      RunTells(Later(h, s, steps[0], w), Apply(s, steps[0]), steps[1..], w);
    }
  }

  /** A stall that is woken has been answered, or released by disabling the table. */
  lemma WokenWasAnswered(before: seq<Step>, w: nat)
    requires Runs(INITIAL, before) && CanStep(After(INITIAL, before), Wake(w))
    ensures LastTouch(INITIAL, before, w, None).Some?
    ensures
      var v := After(INITIAL, before).waiters[w];
      && v.entry.answer == LastTouch(INITIAL, before, w, None).value
      && v.entry.timeout == LastWait(INITIAL, before, w, 0)
      && (v.entry.answer == Continue ==> v.entry.timeout != 0)
      && v.count == Wakes(before, w)
  {
    RunTells(History(None, 0, 0), INITIAL, before, w);
    TouchRun(INITIAL, before, w, None);
  }

  /**
   A stall whose wait ends by a wake-up, in every run: when the last answer its entry
   got before that was not a continuation, it is decided by that answer, whatever
   happens afterwards. So it is denied if and only if that answer was a denial.
   */
  lemma AnsweredVerdictExactly(before: seq<Step>, w: nat, rest: seq<Step>)
    requires Runs(INITIAL, before)
    requires
      var s := After(INITIAL, before);
      CanStep(s, Wake(w)) && Runs(Apply(s, Wake(w)), rest)
    ensures
      var last := LastTouch(INITIAL, before, w, None);
      var t := After(Apply(After(INITIAL, before), Wake(w)), rest);
      && last.Some?
      && (last.value != Continue ==> Decided(t, w, last.value))
      && (last.value != Continue && IsDone(t, w) ==> (t.waiters[w].pc == Done(Deny) <==> last == Some(Deny)))
  {
    WokenWasAnswered(before, w);
    var last := LastTouch(INITIAL, before, w, None).value;
    if last != Continue {
      DecidedStays(Apply(After(INITIAL, before), Wake(w)), rest, w, last);
    }
  }

  // ----- an answer ends the wait

  predicate Awake(s: State, w: nat) {
    CanStep(s, Wake(w)) && !CanStep(s, TimeOut(w))
  }

  lemma {:induction false} AwakeStays(s: State, steps: seq<Step>, w: nat)
    requires Runs(s, steps) && Awake(s, w) && Wake(w) !in steps && Interrupt(w) !in steps
    ensures Awake(After(s, steps), w)
    decreases |steps|
  {
    if steps != [] {
      assert steps[0] in steps;
      AwakeStays(Apply(s, steps[0]), steps[1..], w);
    }
  }

  /** An answer to a stall that waits can no longer be missed: in every run, whatever
      happens next, the stall can be woken and cannot time out, until it is woken or
      interrupted. The same goes for releasing it when the table is disabled. */
  lemma AnswerEndsWait(before: seq<Step>, w: nat, answer: Answer, timeout: nat, more: seq<Step>)
    requires Runs(INITIAL, before) && IsAt(After(INITIAL, before), w, Waiting)
    requires Wake(w) !in more && Interrupt(w) !in more
    ensures
      var s := After(INITIAL, before);
      var answered := Respond(s.waiters[w].entry.key, answer, timeout);
      && (s.enabled && Runs(Apply(s, answered), more) ==> Awake(After(Apply(s, answered), more), w))
      && CanStep(s, WakeDisabled(w))
      && (Runs(Apply(s, WakeDisabled(w)), more) ==> Awake(After(Apply(s, WakeDisabled(w)), more), w))
  {
    var s := After(INITIAL, before);
    RunKeepsInv(INITIAL, before);
    assert LinkOk(s, w);
    SearchFinds(s, w);
    var answered := Respond(s.waiters[w].entry.key, answer, timeout);
    if s.enabled && Runs(Apply(s, answered), more) {
      AwakeStays(Apply(s, answered), more, w);
    }
    if Runs(Apply(s, WakeDisabled(w)), more) {
      AwakeStays(Apply(s, WakeDisabled(w)), more, w);
    }
  }

  // ----- continuations

  /** The waits of this waiter are this long. */
  predicate WaitsFor(s: State, w: nat, timeout: nat) {
    w < |s.waiters| && s.waiters[w].timeout == timeout
  }

  lemma {:induction false} TimeoutStays(s: State, steps: seq<Step>, w: nat)
    requires Runs(s, steps) && Started(s, w) && Wakes(steps, w) == 0
    ensures WaitsFor(After(s, steps), w, s.waiters[w].timeout)
    decreases |steps|
  {
    if steps != [] {
      TimeoutStays(Apply(s, steps[0]), steps[1..], w);
    }
  }

  /** The first wait of a stall is as long as the timeout that is configured when it
      starts, whatever is configured before it waits. */
  lemma FirstWaitExactly(before: seq<Step>, w: nat, during: seq<Step>)
    requires Runs(INITIAL, before)
    requires
      var s := After(INITIAL, before);
      CanStep(s, Start(w)) && Runs(Apply(s, Start(w)), during) && Wakes(during, w) == 0
    ensures
      var s := After(INITIAL, before);
      WaitsFor(After(Apply(s, Start(w)), during), w, s.config.timeout)
  {
    TimeoutStays(Apply(After(INITIAL, before), Start(w)), during, w);
  }

  /**
   A stall that is continued, in every run: up to the 255th time it goes back to the
   top of its loop, and until it is woken again every wait it has is exactly as long
   as the last answer asked for. The 256th time ends it without a denial.
   */
  lemma ContinuedExactly(before: seq<Step>, w: nat, during: seq<Step>)
    requires Runs(INITIAL, before) && LastTouch(INITIAL, before, w, None) == Some(Continue)
    requires
      var s := After(INITIAL, before);
      CanStep(s, Wake(w)) && Runs(Apply(s, Wake(w)), during) && Wakes(during, w) == 0
    ensures
      var t := Apply(After(INITIAL, before), Wake(w));
      && t.waiters[w].pc == (if Wakes(before, w) < 255 then Checking(0) else Leaving(Continue))
      && WaitsFor(After(t, during), w, LastWait(INITIAL, before, w, 0))
  {
    WokenWasAnswered(before, w);
    TimeoutStays(Apply(After(INITIAL, before), Wake(w)), during, w);
  }
}
