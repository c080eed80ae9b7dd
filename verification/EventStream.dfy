/**
 Events on their way to the client: how a message is laid out and read back. A
 message is a fixed part, whose first field is the length of the whole message,
 then the paths that the fixed part points to.
 */
module EventStream {
  import opened Common

  const U16: nat := 0x1_0000

  /** slots: one path for each path field of the event's type, empty when there
      is none. body: the rest of the fixed part. */
  datatype Event = Event(slots: seq<seq<int>>, body: seq<int>)

  function Le16(n: nat): seq<int> {
    [n % 256, n / 256 % 256]
  }

  function FromLe16(lo: int, hi: int): int {
    lo + 256 * hi
  }

  lemma Le16RoundTrip(n: nat)
    requires n < U16
    ensures FromLe16(Le16(n)[0], Le16(n)[1]) == n
  {
  }

  // ----- filling an event in

  /** Length field, number of slots, offset and size per slot, body. */
  function FixedSize(slots: nat, body: nat): nat {
    3 + 4 * slots + body
  }

  function SumSizes(slots: seq<seq<int>>): nat {
    if slots == [] then 0 else SumSizes(slots[..|slots| - 1]) + |slots[|slots| - 1]|
  }

  function Payload(e: Event): nat {
    FixedSize(|e.slots|, |e.body|) + SumSizes(e.slots)
  }

  /** The path of a slot starts where the paths before it end. */
  function OffsetOf(e: Event, i: nat): nat
    requires i < |e.slots|
  {
    if e.slots[i] == [] then 0 else FixedSize(|e.slots|, |e.body|) + SumSizes(e.slots[..i])
  }

  /** What fits the 16-bit length field, and has a number of slots the client
      can tell from the type. */
  predicate Fits(e: Event) {
    Payload(e) < U16 && |e.slots| < 256
  }

  /** fill_in_*: the length field grows by each path, and a path's offset is the
      length before it. All three fields are 16 bits wide. */
  method FillIn(e: Event) returns (payload: nat, offsets: seq<nat>)
    requires Fits(e)
    ensures payload == Payload(e) && |offsets| == |e.slots|
    ensures forall i :: 0 <= i < |offsets| ==> offsets[i] == OffsetOf(e, i)
  {
    payload, offsets := FixedSize(|e.slots|, |e.body|), [];
    var i := 0;
    while i < |e.slots|
      invariant 0 <= i <= |e.slots| && |offsets| == i
      invariant payload == FixedSize(|e.slots|, |e.body|) + SumSizes(e.slots[..i])
      invariant forall j :: 0 <= j < i ==> offsets[j] == OffsetOf(e, j)
    {
      SumStep(e.slots, i);
      SumPrefix(e.slots, i + 1);
      if e.slots[i] != [] {
        offsets := offsets + [payload % U16];
        payload := (payload + |e.slots[i]|) % U16;
      } else {
        offsets := offsets + [0];
      }
      i := i + 1;
    }
    assert e.slots[..|e.slots|] == e.slots;
  }

  lemma SumStep(slots: seq<seq<int>>, i: nat)
    requires i < |slots|
    ensures SumSizes(slots[..i + 1]) == SumSizes(slots[..i]) + |slots[i]|
  {
    assert slots[..i + 1][..i] == slots[..i];
  }

  lemma {:induction false} SumPrefix(slots: seq<seq<int>>, k: nat)
    requires k <= |slots|
    ensures SumSizes(slots[..k]) <= SumSizes(slots)
    decreases |slots|
  {
    if k < |slots| {
      var n := |slots| - 1;
      assert slots[..n][..k] == slots[..k];
      SumPrefix(slots[..n], k);
    } else {
      assert slots[..k] == slots;
    }
  }

  // ----- the bytes of a message

  function SlotField(e: Event, i: nat): (f: seq<int>)
    requires i < |e.slots|
    ensures |f| == 4
  {
    Le16(OffsetOf(e, i)) + Le16(|e.slots[i]|)
  }

  function SlotFields(e: Event, n: nat): (f: seq<int>)
    requires n <= |e.slots|
    ensures |f| == 4 * n
  {
    if n == 0 then [] else SlotFields(e, n - 1) + SlotField(e, n - 1)
  }

  function Paths(slots: seq<seq<int>>): (p: seq<int>)
    ensures |p| == SumSizes(slots)
  {
    if slots == [] then [] else Paths(slots[..|slots| - 1]) + slots[|slots| - 1]
  }

  function Fixed(e: Event): (f: seq<int>)
    ensures |f| == FixedSize(|e.slots|, |e.body|)
  {
    Le16(Payload(e)) + [|e.slots|] + SlotFields(e, |e.slots|) + e.body
  }

  function Message(e: Event): (m: seq<int>)
    ensures |m| == Payload(e)
  {
    Fixed(e) + Paths(e.slots)
  }

  // ----- reading it back

  /** The length field of the message that starts here. */
  function LengthAt(bytes: seq<int>): int
    requires |bytes| >= 2
  {
    FromLe16(bytes[0], bytes[1])
  }

  /** The path a slot points to: offset and size as the fixed part has them. */
  function PathAt(m: seq<int>, i: nat): seq<int>
    requires 3 + 4 * i + 4 <= |m|
  {
    var at := 3 + 4 * i;
    var offset, size := FromLe16(m[at], m[at + 1]), FromLe16(m[at + 2], m[at + 3]);
    if 0 <= offset && 0 <= size && offset + size <= |m| then m[offset..offset + size] else []
  }

  lemma {:induction false} SlotFieldAt(e: Event, n: nat, i: nat)
    requires i < n <= |e.slots|
    ensures SlotFields(e, n)[4 * i..4 * i + 4] == SlotField(e, i)
    decreases n
  {
    if i < n - 1 {
      SlotFieldAt(e, n - 1, i);
      var f := SlotFields(e, n - 1);
      assert SlotFields(e, n)[4 * i..4 * i + 4] == f[4 * i..4 * i + 4];
    }
  }

  lemma {:induction false} PathsAt(slots: seq<seq<int>>, i: nat)
    requires i < |slots|
    ensures SumSizes(slots[..i]) + |slots[i]| <= SumSizes(slots)
    ensures Paths(slots)[SumSizes(slots[..i])..SumSizes(slots[..i]) + |slots[i]|] == slots[i]
    decreases |slots|
  {
    var n := |slots| - 1;
    if i < n {
      PathsAt(slots[..n], i);
      assert slots[..n][..i] == slots[..i];
      var a, b := SumSizes(slots[..i]), SumSizes(slots[..i]) + |slots[i]|;
      assert Paths(slots)[a..b] == Paths(slots[..n])[a..b];
    }
  }

  lemma FixedParts(e: Event, i: nat)
    requires i < |e.slots|
    ensures Fixed(e)[3 + 4 * i..3 + 4 * i + 4] == SlotField(e, i)
  {
    SlotFieldAt(e, |e.slots|, i);
    var head := Le16(Payload(e)) + [|e.slots|];
    var fields := SlotFields(e, |e.slots|);
    assert Fixed(e) == head + (fields + e.body);
    TailSlice(head, fields + e.body, 4 * i, 4 * i + 4);
    assert (fields + e.body)[4 * i..4 * i + 4] == fields[4 * i..4 * i + 4];
  }

  lemma FieldsRead(e: Event, i: nat)
    requires Fits(e) && i < |e.slots|
    ensures
      var m, at := Message(e), 3 + 4 * i;
      && FromLe16(m[at], m[at + 1]) == OffsetOf(e, i)
      && FromLe16(m[at + 2], m[at + 3]) == |e.slots[i]|
  {
    var m, at := Message(e), 3 + 4 * i;
    FixedParts(e, i);
    var field, fixed := SlotField(e, i), Fixed(e);
    assert forall k :: 0 <= k < 4 ==> m[at + k] == fixed[at..at + 4][k] == field[k];
    PathsAt(e.slots, i);
    Le16RoundTrip(OffsetOf(e, i));
    Le16RoundTrip(|e.slots[i]|);
    assert m[at] == field[0] && m[at + 1] == field[1] && m[at + 2] == field[2] && m[at + 3] == field[3];
  }

  lemma PathInMessage(e: Event, i: nat)
    requires i < |e.slots| && e.slots[i] != []
    ensures
      var o := OffsetOf(e, i);
      o + |e.slots[i]| <= |Message(e)| && Message(e)[o..o + |e.slots[i]|] == e.slots[i]
  {
    PathsAt(e.slots, i);
    var base, a := |Fixed(e)|, SumSizes(e.slots[..i]);
    TailSlice(Fixed(e), Paths(e.slots), a, a + |e.slots[i]|);
  }

  lemma TailSlice(a: seq<int>, b: seq<int>, i: nat, j: nat)
    requires i <= j <= |b|
    ensures (a + b)[|a| + i..|a| + j] == b[i..j]
  {
  }

  /** Following the offsets recovers every path of an event. */
  lemma PathRecovered(e: Event, i: nat)
    requires Fits(e) && i < |e.slots|
    ensures PathAt(Message(e), i) == e.slots[i]
  {
    FieldsRead(e, i);
    if e.slots[i] != [] {
      PathInMessage(e, i);
    }
  }

  /** A message begins with its length, low octet first. */
  lemma LengthRecovered(e: Event, rest: seq<int>)
    requires Fits(e)
    ensures LengthAt(Message(e) + rest) == Payload(e) == |Message(e)|
    ensures Message(e)[0] == Payload(e) % 256 && Message(e)[1] == Payload(e) / 256
  {
    Le16RoundTrip(Payload(e));
  }

  /** The first n paths a message points to. */
  function PathsOf(m: seq<int>, n: nat): (p: seq<seq<int>>)
    requires 3 + 4 * n <= |m|
    ensures |p| == n
  {
    if n == 0 then [] else PathsOf(m, n - 1) + [PathAt(m, n - 1)]
  }

  /** The event a whole message stands for. */
  function DecodeMessage(m: seq<int>): Option<Event> {
    if |m| < 3 || m[2] < 0 || 3 + 4 * m[2] > |m| then None
    else
      var slots := PathsOf(m, m[2]);
      var end := |m| - SumSizes(slots);
      if end < 3 + 4 * m[2] then None else Some(Event(slots, m[3 + 4 * m[2]..end]))
  }

  lemma {:induction false} PathsOfMessage(e: Event, n: nat)
    requires Fits(e) && n <= |e.slots|
    ensures PathsOf(Message(e), n) == e.slots[..n]
  {
    if n > 0 {
      PathsOfMessage(e, n - 1);
      PathRecovered(e, n - 1);
      assert e.slots[..n] == e.slots[..n - 1] + [e.slots[n - 1]];
    }
  }

  lemma BodyInMessage(e: Event)
    ensures Message(e)[2] == |e.slots|
    ensures Message(e)[3 + 4 * |e.slots|..|Fixed(e)|] == e.body
  {
    var head := Le16(Payload(e)) + [|e.slots|] + SlotFields(e, |e.slots|);
    assert Message(e)[..|Fixed(e)|] == Fixed(e) == head + e.body;
    assert Message(e)[3 + 4 * |e.slots|..|Fixed(e)|] == Fixed(e)[|head|..];
  }

  /** Decoding a message gives back the event, its body and all its paths. */
  lemma MessageRoundTrip(e: Event)
    requires Fits(e)
    ensures DecodeMessage(Message(e)) == Some(e)
  {
    BodyInMessage(e);
    PathsOfMessage(e, |e.slots|);
    assert e.slots[..|e.slots|] == e.slots;
  }

  // ----- messages back to back

  function Messages(es: seq<Event>): seq<int> {
    if es == [] then [] else Message(es[0]) + Messages(es[1..])
  }

  /** The client cuts what it read at the length fields. */
  function Split(bytes: seq<int>): Option<seq<Event>>
    decreases |bytes|
  {
    if bytes == [] then Some([])
    else if |bytes| < 3 || LengthAt(bytes) < 3 || LengthAt(bytes) > |bytes| then None
    else
      var n := LengthAt(bytes);
      match (DecodeMessage(bytes[..n]), Split(bytes[n..]))
      case (Some(e), Some(rest)) => Some([e] + rest)
      case (_, _) => None
  }

  lemma SplitStep(e: Event, rest: seq<int>)
    requires Fits(e) && Split(rest).Some?
    ensures Split(Message(e) + rest) == Some([e] + Split(rest).value)
  {
    var bytes, m := Message(e) + rest, Message(e);
    LengthRecovered(e, rest);
    MessageRoundTrip(e);
    assert bytes[..|m|] == m && bytes[|m|..] == rest;
  }

  ghost predicate AllFit(es: seq<Event>) {
    forall i :: 0 <= i < |es| ==> Fits(es[i])
  }

  /** The client gets back exactly the events whose messages it read. */
  lemma {:induction false} SplitMessages(es: seq<Event>)
    requires AllFit(es)
    ensures Split(Messages(es)) == Some(es)
  {
    if es != [] {
      SplitMessages(es[1..]);
      SplitStep(es[0], Messages(es[1..]));
      assert [es[0]] + es[1..] == es;
    }
  }

  lemma {:induction false} MessagesSnoc(es: seq<Event>, e: Event)
    ensures Messages(es + [e]) == Messages(es) + Message(e)
  {
    if es == [] {
      assert [e][1..] == [] && Messages([e]) == Message(e) + [];
    } else {
      MessagesSnoc(es[1..], e);
      assert (es + [e])[1..] == es[1..] + [e];
    }
  }

  lemma TakeOneMore(es: seq<Event>, n: nat)
    requires n < |es|
    ensures Messages(es[..n + 1]) == Messages(es[..n]) + Message(es[n])
  {
    MessagesSnoc(es[..n], es[n]);
    assert es[..n + 1] == es[..n] + [es[n]];
  }
}
