/**
 One read of the device: messages are copied from the queue to the client's buffer
 while hooks go on queueing events.
 */
module EventRead {
  import opened Common
  import opened EventStream

  // ----- copying one event

  method CopyTo(ubuf: array<int>, at: nat, data: seq<int>)
    requires at + |data| <= ubuf.Length
    modifies ubuf
    ensures ubuf[..at + |data|] == old(ubuf[..at]) + data
  {
    ghost var before := ubuf[..at];
    var i := 0;
    while i < |data|
      invariant 0 <= i <= |data|
      invariant ubuf[..at + i] == before + data[..i]
    {
      ghost var done := ubuf[..at + i];
      ubuf[at + i] := data[i];
      assert ubuf[..at + i + 1] == done + [data[i]];
      assert data[..i + 1] == data[..i] + [data[i]];
      i := i + 1;
    }
    assert data[..|data|] == data;
  }

  lemma PathsStep(slots: seq<seq<int>>, i: nat)
    requires i < |slots|
    ensures Paths(slots[..i + 1]) == Paths(slots[..i]) + slots[i]
  {
    assert slots[..i + 1][..i] == slots[..i];
  }

  lemma PathBehind(before: seq<int>, slots: seq<seq<int>>, i: nat)
    requires i < |slots|
    ensures before + Paths(slots[..i]) + slots[i] == before + Paths(slots[..i + 1])
    ensures slots[i] == [] ==> Paths(slots[..i + 1]) == Paths(slots[..i])
  {
    PathsStep(slots, i);
    Regroup(before, Paths(slots[..i]), slots[i]);
  }

  /** Copies the paths that are there behind the fixed part. */
  method CopyPaths(slots: seq<seq<int>>, ubuf: array<int>, at: nat) returns (copied: nat)
    requires at + SumSizes(slots) <= ubuf.Length
    modifies ubuf
    ensures copied == SumSizes(slots) && ubuf[..at + copied] == old(ubuf[..at]) + Paths(slots)
  {
    ghost var before := ubuf[..at];
    copied := 0;
    var i := 0;
    assert slots[..0] == [] && before + [] == before;
    while i < |slots|
      invariant 0 <= i <= |slots| && copied == SumSizes(slots[..i]) <= SumSizes(slots)
      invariant ubuf[..at + copied] == before + Paths(slots[..i])
    {
      SumStep(slots, i);
      SumPrefix(slots, i + 1);
      PathBehind(before, slots, i);
      if slots[i] != [] {
        CopyTo(ubuf, at + copied, slots[i]);
        copied := copied + |slots[i]|;
      }
      i := i + 1;
    }
    assert slots[..|slots|] == slots;
  }

  /** copy_rename_event and its like: the fixed part, then every path that is there;
      negative when the buffer is too small. The last comparison, of the length
      field with what was copied, never fails. */
  method CopyEvent(e: Event, ubuf: array<int>, at: nat, count: nat) returns (ret: int)
    requires Fits(e) && at + count <= ubuf.Length
    modifies ubuf
    ensures ret == if Payload(e) > count then -22 else Payload(e)
    ensures ret < 0 ==> ubuf[..] == old(ubuf[..])
    ensures ret >= 0 ==> ubuf[..at + ret] == old(ubuf[..at]) + Message(e)
  {
    ghost var before := ubuf[..at];
    var payload := Payload(e);
    if count < payload {
      return -22;
    }
    CopyTo(ubuf, at, Fixed(e));
    var paths := CopyPaths(e.slots, ubuf, at + |Fixed(e)|);
    Regroup(before, Fixed(e), Paths(e.slots));
    var copied := |Fixed(e)| + paths;
    ret := if payload == copied then copied else -14;
  }

  // ----- what one read hands over

  /** What happens between two looks at the queue: the table is switched on or off, the
      queue is cleared, hooks queue events. */
  datatype Meanwhile = Meanwhile(on: bool, cleared: bool, queued: seq<Event>)

  function Found(rest: seq<Event>, ms: seq<Meanwhile>): seq<Event> {
    if ms == [] then rest else (if ms[0].cleared then [] else rest) + ms[0].queued
  }

  function FoundOn(on: bool, ms: seq<Meanwhile>): bool {
    if ms == [] then on else ms[0].on
  }

  function Later(ms: seq<Meanwhile>): seq<Meanwhile> {
    if ms == [] then [] else ms[1..]
  }

  predicate CanTake(rest: seq<Event>, on: bool, ms: seq<Meanwhile>, space: int) {
    var q := Found(rest, ms);
    FoundOn(on, ms) && q != [] && Payload(q[0]) <= space
  }

  /** The events handed over, the queue and the flag after it. */
  datatype Handed = Handed(taken: seq<Event>, left: seq<Event>, on: bool)

  /** With n events handed over already and the rest still queued. ms: what happens
      before each look at the queue from now on. */
  function HandOver(
      rest: seq<Event>, on: bool, ms: seq<Meanwhile>, n: nat, space: nat, copyLimit: nat, signalAfter: nat): Handed
    decreases space
  {
    if n >= signalAfter then Handed([], rest, on)
    else
      var q, now := Found(rest, ms), FoundOn(on, ms);
      if !CanTake(rest, on, ms, space) then Handed([], q, now)
      else if copyLimit > 0 && n + 1 >= copyLimit then Handed([q[0]], q[1..], now)
      else
        var h := HandOver(q[1..], now, Later(ms), n + 1, space - Payload(q[0]), copyLimit, signalAfter);
        h.(taken := [q[0]] + h.taken)
  }

  /** The first look is at neither the limit nor a signal. */
  function ReadResult(
      queue: seq<Event>, on: bool, ms: seq<Meanwhile>, count: nat, copyLimit: nat, signalAfter: nat): Handed
  {
    var q, now := Found(queue, ms), FoundOn(on, ms);
    if !CanTake(queue, on, ms, count) then Handed([], q, now)
    else
      var h := HandOver(q[1..], now, Later(ms), 1, count - Payload(q[0]), copyLimit, signalAfter);
      h.(taken := [q[0]] + h.taken)
  }

  // ----- the copy limit

  lemma {:induction false} HandOverWithin(
      rest: seq<Event>, on: bool, ms: seq<Meanwhile>, n: nat, space: nat, copyLimit: nat, signalAfter: nat)
    requires n < copyLimit
    ensures n + |HandOver(rest, on, ms, n, space, copyLimit, signalAfter).taken| <= copyLimit
    decreases space
  {
    if n < signalAfter && CanTake(rest, on, ms, space) && n + 1 < copyLimit {
      var q := Found(rest, ms);
      HandOverWithin(q[1..], FoundOn(on, ms), Later(ms), n + 1, space - Payload(q[0]), copyLimit, signalAfter);
    }
  }

  /** At its second look the read finds an event that fits beside the first. */
  predicate SecondFits(queue: seq<Event>, on: bool, ms: seq<Meanwhile>, count: nat) {
    && CanTake(queue, on, ms, count)
    && var q := Found(queue, ms);
    CanTake(q[1..], FoundOn(on, ms), Later(ms), count - Payload(q[0]))
  }

  /** The copy limit is a hard one except for a limit of one event: the first event
      is copied without a look at the limit, so a second that is there by then and
      fits goes along unless a signal stops the read. More than two do not. */
  lemma CopyLimitKeptExactly(
      queue: seq<Event>, on: bool, ms: seq<Meanwhile>, count: nat, copyLimit: nat, signalAfter: nat)
    requires copyLimit > 0
    ensures
      var taken := |ReadResult(queue, on, ms, count, copyLimit, signalAfter).taken|;
      && (taken <= copyLimit <==> !(copyLimit == 1 && signalAfter > 1 && SecondFits(queue, on, ms, count)))
      && taken <= if copyLimit == 1 then 2 else copyLimit
  {
    if copyLimit > 1 && CanTake(queue, on, ms, count) {
      var q := Found(queue, ms);
      HandOverWithin(q[1..], FoundOn(on, ms), Later(ms), 1, count - Payload(q[0]), copyLimit, signalAfter);
    }
  }

  // ----- order, and nothing lost

  function AllQueued(ms: seq<Meanwhile>): seq<Event> {
    if ms == [] then [] else ms[0].queued + AllQueued(ms[1..])
  }

  /** The elements of a are found in b in the same order. */
  ghost predicate InOrder<T(!new)>(a: seq<T>, b: seq<T>)
    decreases |a|
  {
    a == [] || exists i :: 0 <= i < |b| && b[i] == a[0] && InOrder(a[1..], b[i + 1..])
  }

  lemma {:induction false} InOrderSelf<T(!new)>(a: seq<T>, pre: seq<T>, post: seq<T>)
    ensures InOrder(a, pre + a + post)
    decreases |a|
  {
    if a != [] {
      var b := pre + a + post;
      InOrderSelf(a[1..], [], post);
      assert b[|pre|] == a[0] && b[|pre| + 1..] == [] + a[1..] + post;
    }
  }

  lemma InOrderHead<T(!new)>(x: T, a: seq<T>, pre: seq<T>, b: seq<T>)
    requires InOrder(a, b)
    ensures InOrder([x] + a, pre + [x] + b)
  {
    var c := pre + [x] + b;
    assert ([x] + a)[1..] == a && c[|pre| + 1..] == b && c[|pre|] == x;
  }

  /** What one look finds stands, with what is queued later, in everything queued. */
  lemma FoundWithin(rest: seq<Event>, ms: seq<Meanwhile>) returns (pre: seq<Event>)
    ensures rest + AllQueued(ms) == pre + Found(rest, ms) + AllQueued(Later(ms))
    ensures (ms != [] ==> !ms[0].cleared) ==> pre == []
  {
    pre := if ms != [] && ms[0].cleared then rest else [];
    if ms == [] {
      assert rest + [] == [] + rest + [];
    } else if ms[0].cleared {
      assert rest + (ms[0].queued + AllQueued(ms[1..])) == rest + ([] + ms[0].queued) + AllQueued(ms[1..]);
    } else {
      assert rest + (ms[0].queued + AllQueued(ms[1..])) == [] + (rest + ms[0].queued) + AllQueued(ms[1..]);
    }
  }

  lemma FoundInOrder(rest: seq<Event>, ms: seq<Meanwhile>)
    ensures InOrder(Found(rest, ms), rest + AllQueued(ms))
  {
    var pre := FoundWithin(rest, ms);
    InOrderSelf(Found(rest, ms), pre, AllQueued(Later(ms)));
  }

  lemma TakeInOrder(rest: seq<Event>, ms: seq<Meanwhile>, taken: seq<Event>, left: seq<Event>)
    requires Found(rest, ms) != [] && InOrder(taken + left, Found(rest, ms)[1..] + AllQueued(Later(ms)))
    ensures InOrder([Found(rest, ms)[0]] + taken + left, rest + AllQueued(ms))
  {
    var q, later := Found(rest, ms), AllQueued(Later(ms));
    var pre := FoundWithin(rest, ms);
    InOrderHead(q[0], taken + left, pre, q[1..] + later);
    assert [q[0]] + taken + left == [q[0]] + (taken + left);
    HeadApart(pre, q, later);
  }

  lemma HeadApart(pre: seq<Event>, q: seq<Event>, later: seq<Event>)
    requires q != []
    ensures pre + q + later == pre + [q[0]] + (q[1..] + later)
  {
    Regroup(pre + [q[0]], q[1..], later);
    Regroup(pre, [q[0]], q[1..]);
    assert [q[0]] + q[1..] == q;
  }

  lemma NothingOrOne(q: seq<Event>)
    ensures [] + q == q && (q != [] ==> [q[0]] + q[1..] == q)
  {
  }

  lemma {:induction false} HandOverInOrder(
      rest: seq<Event>, on: bool, ms: seq<Meanwhile>, n: nat, space: nat, copyLimit: nat, signalAfter: nat)
    ensures
      var h := HandOver(rest, on, ms, n, space, copyLimit, signalAfter);
      InOrder(h.taken + h.left, rest + AllQueued(ms))
    decreases space
  {
    var q := Found(rest, ms);
    if n >= signalAfter {
      NothingOrOne(rest);
      InOrderSelf(rest, [], AllQueued(ms));
    } else if CanTake(rest, on, ms, space) && !(copyLimit > 0 && n + 1 >= copyLimit) {
      var h := HandOver(q[1..], FoundOn(on, ms), Later(ms), n + 1, space - Payload(q[0]), copyLimit, signalAfter);
      HandOverInOrder(q[1..], FoundOn(on, ms), Later(ms), n + 1, space - Payload(q[0]), copyLimit, signalAfter);
      TakeInOrder(rest, ms, h.taken, h.left);
    } else {
      NothingOrOne(q);
      FoundInOrder(rest, ms);
    }
  }

  /** Whatever happens meanwhile: what is handed over, then what is left, are queued
      events in the order they were queued. */
  lemma ReadInOrder(queue: seq<Event>, on: bool, ms: seq<Meanwhile>, count: nat, copyLimit: nat, signalAfter: nat)
    ensures
      var h := ReadResult(queue, on, ms, count, copyLimit, signalAfter);
      InOrder(h.taken + h.left, queue + AllQueued(ms))
  {
    var q := Found(queue, ms);
    NothingOrOne(q);
    if CanTake(queue, on, ms, count) {
      var h := HandOver(q[1..], FoundOn(on, ms), Later(ms), 1, count - Payload(q[0]), copyLimit, signalAfter);
      HandOverInOrder(q[1..], FoundOn(on, ms), Later(ms), 1, count - Payload(q[0]), copyLimit, signalAfter);
      TakeInOrder(queue, ms, h.taken, h.left);
    } else {
      FoundInOrder(queue, ms);
    }
  }

  predicate NeverCleared(ms: seq<Meanwhile>) {
    forall i :: 0 <= i < |ms| ==> !ms[i].cleared
  }

  lemma FoundConserves(rest: seq<Event>, ms: seq<Meanwhile>)
    requires NeverCleared(ms)
    ensures rest <= Found(rest, ms) <= rest + AllQueued(ms)
    ensures rest + AllQueued(ms) == Found(rest, ms) + AllQueued(Later(ms))
  {
    var pre := FoundWithin(rest, ms);
    assert [] + Found(rest, ms) == Found(rest, ms);
  }

  lemma TakeConserves(rest: seq<Event>, ms: seq<Meanwhile>, taken: seq<Event>, left: seq<Event>)
    requires NeverCleared(ms) && Found(rest, ms) != []
    requires Found(rest, ms)[1..] <= taken + left <= Found(rest, ms)[1..] + AllQueued(Later(ms))
    ensures rest <= [Found(rest, ms)[0]] + taken + left <= rest + AllQueued(ms)
  {
    var q, later := Found(rest, ms), AllQueued(Later(ms));
    FoundConserves(rest, ms);
    var x := [q[0]];
    assert x + taken + left == x + (taken + left);
    assert q == x + q[1..] && q + later == x + (q[1..] + later);
  }

  lemma {:induction false} HandOverConserves(
      rest: seq<Event>, on: bool, ms: seq<Meanwhile>, n: nat, space: nat, copyLimit: nat, signalAfter: nat)
    requires NeverCleared(ms)
    ensures
      var h := HandOver(rest, on, ms, n, space, copyLimit, signalAfter);
      rest <= h.taken + h.left <= rest + AllQueued(ms)
    decreases space
  {
    var q := Found(rest, ms);
    if n >= signalAfter {
      NothingOrOne(rest);
    } else if !CanTake(rest, on, ms, space) || (copyLimit > 0 && n + 1 >= copyLimit) {
      NothingOrOne(q);
      FoundConserves(rest, ms);
    } else {
      var h := HandOver(q[1..], FoundOn(on, ms), Later(ms), n + 1, space - Payload(q[0]), copyLimit, signalAfter);
      assert NeverCleared(Later(ms));
      HandOverConserves(q[1..], FoundOn(on, ms), Later(ms), n + 1, space - Payload(q[0]), copyLimit, signalAfter);
      TakeConserves(rest, ms, h.taken, h.left);
    }
  }

  /** As long as the queue is not cleared meanwhile, nothing is lost: what is handed
      over and what is left together are the queue and what was queued since. */
  lemma ReadConserves(queue: seq<Event>, on: bool, ms: seq<Meanwhile>, count: nat, copyLimit: nat, signalAfter: nat)
    requires NeverCleared(ms)
    ensures
      var h := ReadResult(queue, on, ms, count, copyLimit, signalAfter);
      queue <= h.taken + h.left <= queue + AllQueued(ms)
  {
    var q := Found(queue, ms);
    NothingOrOne(q);
    FoundConserves(queue, ms);
    if CanTake(queue, on, ms, count) {
      var h := HandOver(q[1..], FoundOn(on, ms), Later(ms), 1, count - Payload(q[0]), copyLimit, signalAfter);
      HandOverConserves(q[1..], FoundOn(on, ms), Later(ms), 1, count - Payload(q[0]), copyLimit, signalAfter);
      TakeConserves(queue, ms, h.taken, h.left);
    }
  }

  // ----- the read itself

  /** What has been handed over, with what goes on from here. */
  ghost function Resumed(taken: seq<Event>, h: Handed): Handed {
    h.(taken := taken + h.taken)
  }

  /** The same as a loop would have it, with what has been handed over so far. */
  ghost function HandFrom(
      taken: seq<Event>, rest: seq<Event>, on: bool, ms: seq<Meanwhile>, space: nat, copyLimit: nat, signalAfter: nat)
    : Handed
    decreases space
  {
    if |taken| >= signalAfter then Handed(taken, rest, on)
    else
      var q, now := Found(rest, ms), FoundOn(on, ms);
      if !CanTake(rest, on, ms, space) then Handed(taken, q, now)
      else if copyLimit > 0 && |taken| + 1 >= copyLimit then Handed(taken + [q[0]], q[1..], now)
      else HandFrom(taken + [q[0]], q[1..], now, Later(ms), space - Payload(q[0]), copyLimit, signalAfter)
  }

  lemma {:induction false} HandFromIs(
      taken: seq<Event>, rest: seq<Event>, on: bool, ms: seq<Meanwhile>, space: nat, copyLimit: nat, signalAfter: nat)
    ensures HandFrom(taken, rest, on, ms, space, copyLimit, signalAfter)
         == Resumed(taken, HandOver(rest, on, ms, |taken|, space, copyLimit, signalAfter))
    decreases space
  {
    var q, now := Found(rest, ms), FoundOn(on, ms);
    assert taken + [] == taken;
    if |taken| < signalAfter && CanTake(rest, on, ms, space) && !(copyLimit > 0 && |taken| + 1 >= copyLimit) {
      var space' := space - Payload(q[0]);
      HandFromIs(taken + [q[0]], q[1..], now, Later(ms), space', copyLimit, signalAfter);
      var h := HandOver(q[1..], now, Later(ms), |taken| + 1, space', copyLimit, signalAfter);
      Regroup(taken, [q[0]], h.taken);
    }
  }

  lemma AllFitSnoc(es: seq<Event>, e: Event)
    requires AllFit(es) && Fits(e)
    ensures AllFit(es + [e])
  {
  }

  ghost predicate AllQueuedFit(ms: seq<Meanwhile>) {
    forall i :: 0 <= i < |ms| ==> AllFit(ms[i].queued)
  }

  class EventQueue {
    var enabled: bool
    var queue: seq<Event>

    /** Takes the oldest event off the queue if it fits the space. */
    method Shift(space: nat) returns (event: Option<Event>)
      modifies this`queue
      ensures event == (if !enabled || old(queue) == [] || Payload(old(queue)[0]) > space then None
                        else Some(old(queue)[0]))
      ensures queue == if event.None? then old(queue) else old(queue)[1..]
    {
      event := None;
      if enabled && queue != [] {
        var payload := Payload(queue[0]);
        if 0 < payload <= space {
          event := Some(queue[0]);
          queue := queue[1..];
        }
      }
    }

    /** Takes the oldest event off the queue and copies its message, if it fits. done:
        the events whose messages are in the buffer. */
    method TakeNext(ubuf: array<int>, end: nat, count: nat, ghost done: seq<Event>) returns (ok: bool, end': nat)
      requires AllFit(queue) && end <= count <= ubuf.Length && ubuf[..end] == Messages(done)
      modifies this`queue, ubuf
      ensures ok <==> enabled && old(queue) != [] && Payload(old(queue)[0]) <= count - end
      ensures ok ==> queue == old(queue)[1..] && end' == end + Payload(old(queue)[0])
      ensures ok ==> ubuf[..end'] == Messages(done + [old(queue)[0]])
      ensures !ok ==> queue == old(queue) && end' == end && ubuf[..end] == Messages(done)
    {
      var event := Shift(count - end);
      if event.None? {
        return false, end;
      }
      var ret := CopyEvent(event.value, ubuf, end, count - end);
      MessagesSnoc(done, event.value);
      ok, end' := true, end + ret;
    }

    /** One look at the queue, after what happens before it. */
    method Turn(ubuf: array<int>, end: nat, count: nat, ms: seq<Meanwhile>, ghost done: seq<Event>)
      returns (ok: bool, end': nat, rest: seq<Meanwhile>)
      requires AllFit(queue) && AllQueuedFit(ms) && end <= count <= ubuf.Length && ubuf[..end] == Messages(done)
      modifies this, ubuf
      ensures rest == Later(ms) && AllQueuedFit(rest) && AllFit(queue) && enabled == FoundOn(old(enabled), ms)
      ensures ok <==> CanTake(old(queue), old(enabled), ms, count - end)
      ensures
        var q := Found(old(queue), ms);
        if ok then
          && queue == q[1..] && Fits(q[0])
          && end' == end + Payload(q[0]) && ubuf[..end'] == Messages(done + [q[0]])
        else queue == q && end' == end && ubuf[..end] == Messages(done)
    {
      rest := ms;
      if ms != [] {
        enabled := ms[0].on;
        queue := (if ms[0].cleared then [] else queue) + ms[0].queued;
        rest := ms[1..];
      }
      ok, end' := TakeNext(ubuf, end, count, done);
    }

    /** One turn of the loop after the first event. The limit is looked at only here,
        after an event has been copied; 0 stands for no limit. goal: what the whole read
        hands over. */
    method Round(ubuf: array<int>, end: nat, count: nat, copyLimit: nat, ghost signalAfter: nat, totalCopied: nat,
                 ms: seq<Meanwhile>, ghost taken: seq<Event>, ghost goal: Handed)
      returns (more: bool, end': nat, rest: seq<Meanwhile>, ghost taken': seq<Event>)
      requires AllFit(queue) && AllQueuedFit(ms) && AllFit(taken) && |taken| == totalCopied < signalAfter
      requires end <= count <= ubuf.Length && ubuf[..end] == Messages(taken)
      requires goal == HandFrom(taken, queue, enabled, ms, count - end, copyLimit, signalAfter)
      modifies this, ubuf
      ensures AllFit(queue) && AllQueuedFit(rest) && AllFit(taken')
      ensures end <= end' <= count && ubuf[..end'] == Messages(taken')
      ensures if more
        then
          && |taken'| == totalCopied + 1 && end < end'
          && goal == HandFrom(taken', queue, enabled, rest, count - end', copyLimit, signalAfter)
        else goal == Handed(taken', queue, enabled)
    {
      ghost var q := Found(queue, ms);
      more, end', rest := Turn(ubuf, end, count, ms, taken);
      taken' := taken;
      if !more {
        return;
      }
      AllFitSnoc(taken, q[0]);
      taken' := taken + [q[0]];
      more := copyLimit == 0 || totalCopied + 1 < copyLimit;
    }

    /** Goes on after the first event. */
    method ReadMore(ubuf: array<int>, start: nat, count: nat, copyLimit: nat, signalAfter: nat,
                    ms: seq<Meanwhile>, ghost first: Event)
      returns (end: nat, ghost taken: seq<Event>)
      requires AllFit(queue) && AllQueuedFit(ms) && Fits(first)
      requires start <= count <= ubuf.Length && ubuf[..start] == Messages([first])
      modifies this, ubuf
      ensures Handed(taken, queue, enabled) ==
        HandFrom([first], old(queue), old(enabled), ms, count - start, copyLimit, signalAfter)
      ensures end <= count && ubuf[..end] == Messages(taken) && AllFit(taken)
    {
      ghost var goal := HandFrom([first], queue, enabled, ms, count - start, copyLimit, signalAfter);
      end, taken := start, [first];
      var coming, more, totalCopied := ms, true, 1;
      while more && totalCopied < signalAfter
        invariant AllFit(taken) && AllFit(queue) && AllQueuedFit(coming)
        invariant end <= count && ubuf[..end] == Messages(taken)
        invariant more ==> |taken| == totalCopied
        invariant goal == if more
          then HandFrom(taken, queue, enabled, coming, count - end, copyLimit, signalAfter)
          else Handed(taken, queue, enabled)
        decreases more, count - end
      {
        more, end, coming, taken :=
          Round(ubuf, end, count, copyLimit, signalAfter, totalCopied, coming, taken, goal);
        totalCopied := totalCopied + 1;
      }
    }

    /** Copies messages back to back until the next does not fit, the queue is
        empty, the table is off, the limit is reached or a signal is pending;
        signalAfter says after how many events that is. Negative when there is nothing
        to hand over. */
    method Read(ubuf: array<int>, count: nat, copyLimit: nat, signalAfter: nat, ms: seq<Meanwhile>)
      returns (ret: int, ghost taken: seq<Event>)
      requires AllFit(queue) && AllQueuedFit(ms) && count <= ubuf.Length
      modifies this, ubuf
      ensures Handed(taken, queue, enabled) == ReadResult(old(queue), old(enabled), ms, count, copyLimit, signalAfter)
      ensures ret < 0 <==> taken == []
      ensures ret >= 0 ==> ret <= count && Split(ubuf[..ret]) == Some(taken)
    {
      ghost var q := Found(queue, ms);
      assert ubuf[..0] == [];
      var ok, start, coming := Turn(ubuf, 0, count, ms, []);
      if !ok {
        return -11, [];
      }
      assert [] + [q[0]] == [q[0]];
      HandFromIs([q[0]], queue, enabled, coming, count - start, copyLimit, signalAfter);
      ret, taken := ReadMore(ubuf, start, count, copyLimit, signalAfter, coming, q[0]);
      SplitMessages(taken);
    }
  }
}
