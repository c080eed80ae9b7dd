/**
 When a read of the event queue ends: not before it has a reason to, and not after.
 */
module EventReadEnds {
  import opened EventRead
  import opened EventStream

  // ----- the looks of a read, if each takes an event

  /** The queue as look j finds it, when every look before took an event. */
  function LookQueue(rest: seq<Event>, ms: seq<Meanwhile>, j: nat): seq<Event>
    decreases j
  {
    var q := Found(rest, ms);
    if j == 0 then q else LookQueue(if q == [] then [] else q[1..], Later(ms), j - 1)
  }

  function LookOn(on: bool, ms: seq<Meanwhile>, j: nat): bool
    decreases j
  {
    if j == 0 then FoundOn(on, ms) else LookOn(FoundOn(on, ms), Later(ms), j - 1)
  }

  /** What the first k looks take. */
  function Heads(rest: seq<Event>, ms: seq<Meanwhile>, k: nat): seq<Event>
    decreases k
  {
    var q := Found(rest, ms);
    if k == 0 || q == [] then [] else [q[0]] + Heads(q[1..], Later(ms), k - 1)
  }

  function Total(es: seq<Event>): nat {
    if es == [] then 0 else Payload(es[0]) + Total(es[1..])
  }

  /** Look j finds the table on and an event that fits beside those before it. */
  predicate Finds(rest: seq<Event>, on: bool, ms: seq<Meanwhile>, space: nat, j: nat) {
    && LookOn(on, ms, j) && LookQueue(rest, ms, j) != []
    && Total(Heads(rest, ms, j)) + Payload(LookQueue(rest, ms, j)[0]) <= space
  }

  /** With n events handed over at first and m since, a signal or the limit keeps the
      read from looking on. The first event is handed over without a look at either,
      and the limit is looked at only after another one. */
  predicate Stopped(n: nat, copyLimit: nat, signalAfter: nat, m: nat) {
    || (n + m >= 1 && n + m >= signalAfter)
    || (copyLimit > 0 && m >= 1 && n + m >= 2 && n + m >= copyLimit)
  }

  /** The read then has a reason to end. */
  predicate Ends(rest: seq<Event>, on: bool, ms: seq<Meanwhile>, n: nat, space: nat,
                 copyLimit: nat, signalAfter: nat, m: nat)
  {
    Stopped(n, copyLimit, signalAfter, m) || !Finds(rest, on, ms, space, m)
  }

  /** What is left when m more events have been handed over: as it was before the look
      that is not made, or as the last look found it. */
  predicate Leaves(rest: seq<Event>, on: bool, ms: seq<Meanwhile>, stopped: bool, m: nat, h: Handed) {
    if !stopped then h.left == LookQueue(rest, ms, m) && h.on == LookOn(on, ms, m)
    else if m == 0 then h.left == rest && h.on == on
    else LookQueue(rest, ms, m - 1) != [] && h.left == LookQueue(rest, ms, m - 1)[1..] && h.on == LookOn(on, ms, m - 1)
  }

  /** Once the first look has taken an event the rest is the same read on the rest. */
  lemma LookShift(rest: seq<Event>, on: bool, ms: seq<Meanwhile>, j: nat)
    requires Found(rest, ms) != []
    ensures
      var q := Found(rest, ms);
      && LookQueue(rest, ms, j + 1) == LookQueue(q[1..], Later(ms), j)
      && LookOn(on, ms, j + 1) == LookOn(FoundOn(on, ms), Later(ms), j)
      && Heads(rest, ms, j + 1) == [q[0]] + Heads(q[1..], Later(ms), j)
  {
  }

  lemma FindsShift(rest: seq<Event>, on: bool, ms: seq<Meanwhile>, space: nat, j: nat)
    requires CanTake(rest, on, ms, space)
    ensures
      var q := Found(rest, ms);
      Finds(rest, on, ms, space, j + 1) <==> Finds(q[1..], FoundOn(on, ms), Later(ms), space - Payload(q[0]), j)
  {
    LookShift(rest, on, ms, j);
    var q := Found(rest, ms);
    var tail := Heads(q[1..], Later(ms), j);
    assert ([q[0]] + tail)[1..] == tail;
  }

  lemma LeavesShift(rest: seq<Event>, on: bool, ms: seq<Meanwhile>, stopped: bool, h: Handed)
    requires Found(rest, ms) != []
    requires Leaves(Found(rest, ms)[1..], FoundOn(on, ms), Later(ms), stopped, |h.taken|, h)
    ensures Leaves(rest, on, ms, stopped, |h.taken| + 1, h.(taken := [Found(rest, ms)[0]] + h.taken))
  {
    LookShift(rest, on, ms, |h.taken|);
    if |h.taken| > 0 {
      LookShift(rest, on, ms, |h.taken| - 1);
    }
  }

  lemma HeadsShift(rest: seq<Event>, ms: seq<Meanwhile>, taken: seq<Event>)
    requires Found(rest, ms) != [] && taken == Heads(Found(rest, ms)[1..], Later(ms), |taken|)
    ensures [Found(rest, ms)[0]] + taken == Heads(rest, ms, |taken| + 1)
  {
    LookShift(rest, true, ms, |taken|);
  }

  lemma FirstLook(rest: seq<Event>, on: bool, ms: seq<Meanwhile>, space: nat)
    ensures Finds(rest, on, ms, space, 0) <==> CanTake(rest, on, ms, space)
  {
  }

  /** The events handed over are the heads that the looks find, the reason to end is
      there, it was not there earlier, and the queue is left accordingly. */
  predicate EndsFirst(rest: seq<Event>, on: bool, ms: seq<Meanwhile>, n: nat, space: nat,
                      copyLimit: nat, signalAfter: nat, h: Handed)
  {
    && h.taken == Heads(rest, ms, |h.taken|)
    && Ends(rest, on, ms, n, space, copyLimit, signalAfter, |h.taken|)
    && (forall j :: 0 <= j < |h.taken| ==> !Ends(rest, on, ms, n, space, copyLimit, signalAfter, j))
    && Leaves(rest, on, ms, Stopped(n, copyLimit, signalAfter, |h.taken|), |h.taken|, h)
  }

  /** The read goes on after the next event. */
  predicate GoesOn(rest: seq<Event>, on: bool, ms: seq<Meanwhile>, n: nat, space: nat,
                   copyLimit: nat, signalAfter: nat)
  {
    CanTake(rest, on, ms, space) && (n >= 1 ==> n < signalAfter && (copyLimit == 0 || n + 1 < copyLimit))
  }

  lemma EndsShift(rest: seq<Event>, on: bool, ms: seq<Meanwhile>, n: nat, space: nat,
                  copyLimit: nat, signalAfter: nat, m: nat)
    requires GoesOn(rest, on, ms, n, space, copyLimit, signalAfter)
    ensures
      var q := Found(rest, ms);
      Ends(rest, on, ms, n, space, copyLimit, signalAfter, m + 1) <==>
        Ends(q[1..], FoundOn(on, ms), Later(ms), n + 1, space - Payload(q[0]), copyLimit, signalAfter, m)
  {
    FindsShift(rest, on, ms, space, m);
  }

  lemma NotBeforeShift(rest: seq<Event>, on: bool, ms: seq<Meanwhile>, n: nat, space: nat,
                       copyLimit: nat, signalAfter: nat, j: nat)
    requires GoesOn(rest, on, ms, n, space, copyLimit, signalAfter)
    requires
      var q := Found(rest, ms);
      j > 0 ==>
        !Ends(q[1..], FoundOn(on, ms), Later(ms), n + 1, space - Payload(q[0]), copyLimit, signalAfter, j - 1)
    ensures !Ends(rest, on, ms, n, space, copyLimit, signalAfter, j)
  {
    if j == 0 {
      FirstLook(rest, on, ms, space);
    } else {
      EndsShift(rest, on, ms, n, space, copyLimit, signalAfter, j - 1);
    }
  }

  lemma ShiftEnds(rest: seq<Event>, on: bool, ms: seq<Meanwhile>, n: nat, space: nat,
                  copyLimit: nat, signalAfter: nat, h: Handed)
    requires GoesOn(rest, on, ms, n, space, copyLimit, signalAfter)
    requires
      var q := Found(rest, ms);
      EndsFirst(q[1..], FoundOn(on, ms), Later(ms), n + 1, space - Payload(q[0]), copyLimit, signalAfter, h)
    ensures
      EndsFirst(rest, on, ms, n, space, copyLimit, signalAfter, h.(taken := [Found(rest, ms)[0]] + h.taken))
  {
    var m := |h.taken|;
    EndsShift(rest, on, ms, n, space, copyLimit, signalAfter, m);
    HeadsShift(rest, ms, h.taken);
    LeavesShift(rest, on, ms, Stopped(n + 1, copyLimit, signalAfter, m), h);
    forall j | 0 <= j < m + 1 ensures !Ends(rest, on, ms, n, space, copyLimit, signalAfter, j) {
      NotBeforeShift(rest, on, ms, n, space, copyLimit, signalAfter, j);
    }
  }

  lemma EndsAtOnce(rest: seq<Event>, on: bool, ms: seq<Meanwhile>, n: nat, space: nat, copyLimit: nat, signalAfter: nat)
    requires (n >= 1 && n >= signalAfter) || !CanTake(rest, on, ms, space)
    ensures EndsFirst(rest, on, ms, n, space, copyLimit, signalAfter,
                      if n >= 1 && n >= signalAfter then Handed([], rest, on)
                      else Handed([], Found(rest, ms), FoundOn(on, ms)))
  {
    FirstLook(rest, on, ms, space);
  }

  lemma EndsAtLimit(rest: seq<Event>, on: bool, ms: seq<Meanwhile>, n: nat, space: nat,
                    copyLimit: nat, signalAfter: nat)
    requires 1 <= n < signalAfter && CanTake(rest, on, ms, space) && copyLimit > 0 && n + 1 >= copyLimit
    ensures
      var q := Found(rest, ms);
      EndsFirst(rest, on, ms, n, space, copyLimit, signalAfter, Handed([q[0]], q[1..], FoundOn(on, ms)))
  {
    FirstLook(rest, on, ms, space);
    LookShift(rest, on, ms, 0);
  }

  lemma {:induction false} HandOverEnds(rest: seq<Event>, on: bool, ms: seq<Meanwhile>, n: nat, space: nat,
                                        copyLimit: nat, signalAfter: nat)
    requires n >= 1
    ensures EndsFirst(rest, on, ms, n, space, copyLimit, signalAfter,
                      HandOver(rest, on, ms, n, space, copyLimit, signalAfter))
    decreases space
  {
    if n >= signalAfter || !CanTake(rest, on, ms, space) {
      EndsAtOnce(rest, on, ms, n, space, copyLimit, signalAfter);
    } else if copyLimit > 0 && n + 1 >= copyLimit {
      EndsAtLimit(rest, on, ms, n, space, copyLimit, signalAfter);
    } else {
      var q := Found(rest, ms);
      var space' := space - Payload(q[0]);
      HandOverEnds(q[1..], FoundOn(on, ms), Later(ms), n + 1, space', copyLimit, signalAfter);
      ShiftEnds(rest, on, ms, n, space, copyLimit, signalAfter,
                HandOver(q[1..], FoundOn(on, ms), Later(ms), n + 1, space', copyLimit, signalAfter));
    }
  }

  /**
   When a read ends, whatever happens to the queue meanwhile. It hands over what its
   looks find, one event each; it ends as soon as a signal is pending, the limit is
   reached (with two events at the least), the table is found off, the queue is found
   empty or its oldest event does not fit; and not before. The queue is left as the
   last look found it, less the event it took.
   */
  lemma ReadEndsExactly(queue: seq<Event>, on: bool, ms: seq<Meanwhile>, count: nat, copyLimit: nat, signalAfter: nat)
    ensures EndsFirst(queue, on, ms, 0, count, copyLimit, signalAfter,
                      ReadResult(queue, on, ms, count, copyLimit, signalAfter))
  {
    if CanTake(queue, on, ms, count) {
      var q := Found(queue, ms);
      var space := count - Payload(q[0]);
      HandOverEnds(q[1..], FoundOn(on, ms), Later(ms), 1, space, copyLimit, signalAfter);
      ShiftEnds(queue, on, ms, 0, count, copyLimit, signalAfter,
                HandOver(q[1..], FoundOn(on, ms), Later(ms), 1, space, copyLimit, signalAfter));
    } else {
      EndsAtOnce(queue, on, ms, 0, count, copyLimit, signalAfter);
    }
  }

  // ----- a read that is left alone

  lemma {:induction false} QuietLooks(queue: seq<Event>, j: nat)
    ensures LookQueue(queue, [], j) == if j <= |queue| then queue[j..] else []
    ensures j <= |queue| ==> Heads(queue, [], j) == queue[..j]
    ensures LookOn(true, [], j)
    decreases j
  {
    if j > 0 {
      QuietLooks(if queue == [] then [] else queue[1..], j - 1);
      if j <= |queue| {
        assert queue[1..][j - 1..] == queue[j..];
        assert [queue[0]] + queue[1..][..j - 1] == queue[..j];
      }
    }
  }

  lemma {:induction false} TotalSnoc(es: seq<Event>, e: Event)
    ensures Total(es + [e]) == Total(es) + Payload(e)
  {
    if es == [] {
      assert [] + [e] == [e];
    } else {
      assert (es + [e])[1..] == es[1..] + [e];
      TotalSnoc(es[1..], e);
    }
  }

  lemma {:induction false} TotalGrows(queue: seq<Event>, i: nat, j: nat)
    requires i < j <= |queue|
    ensures Total(queue[..i]) + Payload(queue[i]) <= Total(queue[..j])
    decreases j
  {
    TotalSnoc(queue[..j - 1], queue[j - 1]);
    assert queue[..j] == queue[..j - 1] + [queue[j - 1]];
    if i < j - 1 {
      TotalGrows(queue, i, j - 1);
    }
  }

  /** What a limit allows: at least two events, since it is not looked at before. */
  predicate Allowed(copyLimit: nat, k: nat) {
    copyLimit == 0 || k <= 2 || k <= copyLimit
  }

  /** A read with nothing happening meanwhile and no signal hands over a beginning of the
      queue: the longest that fits the buffer and that the limit allows. */
  lemma QuietReadIsLongest(queue: seq<Event>, count: nat, copyLimit: nat, signalAfter: nat)
    requires signalAfter > |queue|
    ensures
      var h := ReadResult(queue, true, [], count, copyLimit, signalAfter);
      var k := |h.taken|;
      && k <= |queue| && h.taken == queue[..k] && h.left == queue[k..]
      && Total(queue[..k]) <= count && Allowed(copyLimit, k)
      && (forall j :: k < j <= |queue| && Allowed(copyLimit, j) ==> Total(queue[..j]) > count)
  {
    var h := ReadResult(queue, true, [], count, copyLimit, signalAfter);
    var k := |h.taken|;
    ReadEndsExactly(queue, true, [], count, copyLimit, signalAfter);
    if k > 0 {
      assert !Ends(queue, true, [], 0, count, copyLimit, signalAfter, k - 1);
      QuietLooks(queue, k - 1);
      TotalSnoc(queue[..k - 1], queue[k - 1]);
      assert queue[..k] == queue[..k - 1] + [queue[k - 1]];
    }
    QuietLooks(queue, k);
    forall j | k < j <= |queue| && Allowed(copyLimit, j) ensures Total(queue[..j]) > count {
      TotalGrows(queue, k, j);
    }
  }
}
