/**
 Names inside a DNS response: what it means for a message to hold a name
 (sections 3.1 and 4.1.4 of RFC 1035), and what the collector's decoder makes
 of the octets it finds.
 */
module DnsName {

  type Octet = int

  /** A message: octets from 0 to 255. */
  predicate Octets(data: seq<Octet>) {
    forall k :: 0 <= k < |data| ==> 0 <= data[k] < 256
  }

  const DNS_MAX_NAME: nat := 256
  const MAX_JUMPS: nat := 20
  const DOT: Octet := 46

  datatype Code = Ok | NotSufficientBuffer | InvalidData | Fail

  /** The two top bits mark a compression pointer. */
  predicate IsIndirect(b: Octet) {
    b >= 0xC0
  }

  function IndirectOffset(hi: Octet, lo: Octet): nat
    requires 0 <= lo
  {
    (hi % 64) * 256 + lo
  }

  // ----- first half of the decoder: collect the octets of the name

  datatype Copy = Copied(raw: seq<Octet>) | Bad

  /** What the copy loop collects from offset `from` on, when it has already
      copied n octets and followed `jumps` pointers. Every octet is examined for
      zero and for a pointer, label octets included. */
  function Collect(data: seq<Octet>, len: nat, from: nat, n: nat, jumps: nat): Copy
    requires len < |data| && Octets(data) && n <= DNS_MAX_NAME && jumps <= MAX_JUMPS
    decreases DNS_MAX_NAME - n, MAX_JUMPS - jumps
  {
    if n == DNS_MAX_NAME || from >= len then Bad
    else if data[from] == 0 then Copied([])
    else if IsIndirect(data[from]) then
      if jumps == MAX_JUMPS then Bad
      else Collect(data, len, IndirectOffset(data[from], data[from + 1]), n, jumps + 1)
    else
      match Collect(data, len, from + 1, n + 1, jumps)
      case Bad => Bad
      case Copied(raw) => Copied([data[from]] + raw)
  }

  /** How far the caller's cursor moves: through the zero octet or the first
      pointer, or as far as the loop got before it gave up. */
  function Moved(data: seq<Octet>, len: nat, from: nat, n: nat): nat
    requires len < |data| && n <= DNS_MAX_NAME
    decreases DNS_MAX_NAME - n
  {
    if n == DNS_MAX_NAME then 0
    else if from >= len || data[from] == 0 then 1
    else if IsIndirect(data[from]) then 2
    else 1 + Moved(data, len, from + 1, n + 1)
  }

  // ----- second half: turn length octets into dots, in place

  datatype Text = Rewritten(octets: seq<Octet>, stop: nat) | Unreadable

  /** The rewriting of the part t of the buffer that is still to be read: what
      it becomes, and where in it the reading stops. The length octet is a signed
      char, so 128 and above count as negative. */
  function Rewrite(t: seq<Octet>): (r: Text)
    ensures r.Rewritten? ==> |r.octets| == |t| && r.stop <= |t|
    decreases |t|
  {
    if t == [] || t[0] == 0 then Rewritten(t, 0)
    else if !(0 <= t[0] < 128) || t[0] >= |t| - 1 || t[t[0]] == 0 then Unreadable
    else
      var n := t[0];
      match Rewrite(t[n + 1..])
      case Unreadable => Unreadable
      case Rewritten(octets, stop) => Rewritten(t[1..n + 1] + [DOT] + octets, n + 1 + stop)
  }

  /** The last dot is cut off, and the text ends there. */
  function CutLastDot(octets: seq<Octet>, stop: nat): (r: seq<Octet>)
    requires stop <= |octets|
    ensures |r| == |octets|
  {
    if stop > 0 then octets[stop - 1 := 0] else octets
  }

  /** The octets of a buffer before its first zero octet. */
  function CString(name: seq<Octet>): seq<Octet> {
    if name == [] || name[0] == 0 then [] else [name[0]] + CString(name[1..])
  }

  // ----- the decoder as one function of the message

  datatype Outcome = Name(text: seq<Octet>) | Error(code: Code)

  /** `before` is what the output buffer held. */
  function Decode(before: seq<Octet>, data: seq<Octet>, len: nat, from: nat): Outcome
    requires |before| == DNS_MAX_NAME && len < |data| && Octets(data)
  {
    if from > len then Error(NotSufficientBuffer)
    else
      CollectBound(data, len, from, 0, 0);
      match Collect(data, len, from, 0, 0)
      case Bad => Error(InvalidData)
      case Copied(raw) =>
        match Rewrite(Terminated(before, raw))
        case Unreadable => Error(Fail)
        case Rewritten(octets, stop) => Name(CString(CutLastDot(octets, stop)))
  }

  function Terminated(before: seq<Octet>, raw: seq<Octet>): (r: seq<Octet>)
    requires |before| == DNS_MAX_NAME && |raw| < DNS_MAX_NAME
    ensures |r| == DNS_MAX_NAME
  {
    raw + [0] + before[|raw| + 1..]
  }

  lemma {:induction false} CollectBound(data: seq<Octet>, len: nat, from: nat, n: nat, jumps: nat)
    requires len < |data| && Octets(data) && n <= DNS_MAX_NAME && jumps <= MAX_JUMPS
    ensures
      var c := Collect(data, len, from, n, jumps);
      c.Copied? ==> n + |c.raw| < DNS_MAX_NAME && PlainOctets(c.raw)
    decreases DNS_MAX_NAME - n, MAX_JUMPS - jumps
  {
    if n == DNS_MAX_NAME || from >= len || data[from] == 0 {
    } else if IsIndirect(data[from]) {
      if jumps < MAX_JUMPS {
        CollectBound(data, len, IndirectOffset(data[from], data[from + 1]), n, jumps + 1);
      }
    } else {
      CollectBound(data, len, from + 1, n + 1, jumps);
    }
  }

  // ----- what a message may hold: labels, a root octet, pointers

  type Labels = seq<seq<Octet>>

  /** How a name is laid out: labels in place, then the root octet, with any
      number of pointers on the way. */
  datatype Layout = Root | Label(rest: Layout) | Pointer(target: nat, rest: Layout)

  /** The message holds the name at offset `off`, laid out so. A length octet is
      any that is not zero and not marked as a pointer. */
  predicate Encodes(data: seq<Octet>, len: nat, off: nat, labels: Labels, layout: Layout)
    requires len < |data|
    decreases layout
  {
    off < len &&
    match layout
    case Root => labels == [] && data[off] == 0
    case Label(rest) =>
      && labels != []
      && var l := labels[0];
      && 1 <= |l| < 0xC0
      && data[off] == |l|
      && off + 1 + |l| <= len
      && data[off + 1..off + 1 + |l|] == l
      && Encodes(data, len, off + 1 + |l|, labels[1..], rest)
    case Pointer(target, rest) =>
      && target < 0x4000
      && off + 1 < len
      && data[off] == 0xC0 + target / 256
      && data[off + 1] == target % 256
      && Encodes(data, len, target, labels, rest)
  }

  function Jumps(layout: Layout): nat {
    match layout
    case Root => 0
    case Label(rest) => Jumps(rest)
    case Pointer(_, rest) => 1 + Jumps(rest)
  }

  /** Octets the name takes up where it starts. */
  function Footprint(labels: Labels, layout: Layout): nat
  {
    match layout
    case Root => 1
    case Pointer(_, _) => 2
    case Label(rest) => if labels == [] then 0 else 1 + |labels[0]| + Footprint(labels[1..], rest)
  }

  /** Length-prefixed form, without the root octet. */
  function Wire(labels: Labels): seq<Octet> {
    if labels == [] then [] else [|labels[0]|] + labels[0] + Wire(labels[1..])
  }

  /** Each label followed by a dot. */
  function Dotted(labels: Labels): seq<Octet> {
    if labels == [] then [] else labels[0] + [DOT] + Dotted(labels[1..])
  }

  /** Labels joined by dots. */
  function Joined(labels: Labels): seq<Octet> {
    if |labels| == 0 then []
    else if |labels| == 1 then labels[0]
    else labels[0] + [DOT] + Joined(labels[1..])
  }

  predicate PlainOctets(l: seq<Octet>) {
    forall k :: 0 <= k < |l| ==> 0 < l[k] < 0xC0
  }

  predicate PlainLabels(labels: Labels) {
    forall l :: l in labels ==> PlainOctets(l)
  }

  predicate ShortLabels(labels: Labels) {
    forall l :: l in labels ==> |l| < 128
  }

  /** Label lengths that can stand in a length octet. */
  predicate LabelSizes(labels: Labels) {
    forall l :: l in labels ==> 1 <= |l| < 0xC0
  }
}
