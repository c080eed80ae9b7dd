/**
 What the DNS name decoder returns for a message that holds a name: exactly
 when it is the labels joined by dots, and how many octets it reports as used.
 */
module DnsDecoding {
  import opened DnsName

  function Prepend(run: seq<Octet>, c: Copy): Copy {
    match c
    case Bad => Bad
    case Copied(raw) => Copied(run + raw)
  }

  /** A stretch of plain octets is copied as it is. */
  lemma {:induction false} CollectRun(data: seq<Octet>, len: nat, off: nat, m: nat, n: nat, jumps: nat)
    requires len < |data| && Octets(data) && off + m <= len && n + m <= DNS_MAX_NAME && jumps <= MAX_JUMPS
    requires PlainOctets(data[off..off + m])
    ensures Collect(data, len, off, n, jumps)
         == Prepend(data[off..off + m], Collect(data, len, off + m, n + m, jumps))
    decreases m
  {
    var run := data[off..off + m];
    if m > 0 {
      assert run[0] == data[off];
      assert data[off + 1..off + m] == run[1..];
      CollectRun(data, len, off + 1, m - 1, n + 1, jumps);
      assert run == [data[off]] + run[1..];
      var tail := Collect(data, len, off + m, n + m, jumps);
      if tail.Copied? {
        assert [data[off]] + (run[1..] + tail.raw) == run + tail.raw;
      }
    } else {
      var tail := Collect(data, len, off, n, jumps);
      if tail.Copied? {
        assert [] + tail.raw == tail.raw;
      }
    }
  }

  /** A length octet and its label are copied as one stretch. */
  lemma CollectLabel(data: seq<Octet>, len: nat, off: nat, l: seq<Octet>, n: nat, jumps: nat)
    requires len < |data| && Octets(data) && n <= DNS_MAX_NAME && jumps <= MAX_JUMPS
    requires 1 <= |l| < 0xC0 && PlainOctets(l) && off + 1 + |l| <= len
    requires data[off] == |l| && data[off + 1..off + 1 + |l|] == l
    ensures
      var m := 1 + |l|;
      && (n + m <= DNS_MAX_NAME ==>
            Collect(data, len, off, n, jumps) == Prepend([|l|] + l, Collect(data, len, off + m, n + m, jumps)))
      && (n + m > DNS_MAX_NAME ==> Collect(data, len, off, n, jumps) == Bad)
  {
    var m := 1 + |l|;
    var run := data[off..off + m];
    assert run == [|l|] + l;
    var k := if n + m <= DNS_MAX_NAME then m else DNS_MAX_NAME - n;
    assert data[off..off + k] == run[..k];
    CollectRun(data, len, off, k, n, jumps);
    assert run[..m] == run;
  }

  /** A name of plain octets is collected in its length-prefixed form, wherever
      its pieces are, or refused when it is too long or has too many pointers. */
  lemma {:induction false} CollectEncoded(
      data: seq<Octet>, len: nat, off: nat, labels: Labels, layout: Layout, n: nat, jumps: nat)
    requires len < |data| && Octets(data) && n <= DNS_MAX_NAME && jumps <= MAX_JUMPS
    requires Encodes(data, len, off, labels, layout) && PlainLabels(labels)
    ensures Collect(data, len, off, n, jumps) ==
            if n + |Wire(labels)| < DNS_MAX_NAME && jumps + Jumps(layout) <= MAX_JUMPS
            then Copied(Wire(labels)) else Bad
    decreases layout
  {
    match layout
    case Root =>
    case Pointer(target, rest) =>
      PointerOffset(target);
      if n < DNS_MAX_NAME && jumps < MAX_JUMPS {
        CollectEncoded(data, len, target, labels, rest, n, jumps + 1);
      }
    case Label(rest) =>
      var l := labels[0];
      var m := 1 + |l|;
      assert l in labels;
      CollectLabel(data, len, off, l, n, jumps);
      TailPlain(labels);
      if n + m <= DNS_MAX_NAME {
        CollectEncoded(data, len, off + m, labels[1..], rest, n + m, jumps);
      }
  }

  lemma TailPlain(labels: Labels)
    requires labels != [] && PlainLabels(labels)
    ensures PlainLabels(labels[1..])
    ensures Wire(labels) == [|labels[0]|] + labels[0] + Wire(labels[1..])
    ensures |Wire(labels)| == 1 + |labels[0]| + |Wire(labels[1..])|
  {
  }

  lemma PointerOffset(target: nat)
    requires target < 0x4000
    ensures IndirectOffset(0xC0 + target / 256, target % 256) == target
  {
  }

  lemma {:induction false} MovedRun(data: seq<Octet>, len: nat, off: nat, m: nat, n: nat)
    requires len < |data| && Octets(data) && off + m <= len && n + m <= DNS_MAX_NAME
    requires PlainOctets(data[off..off + m])
    ensures Moved(data, len, off, n) == m + Moved(data, len, off + m, n + m)
    decreases m
  {
    if m > 0 {
      assert data[off..off + m][0] == data[off];
      assert data[off + 1..off + m] == data[off..off + m][1..];
      MovedRun(data, len, off + 1, m - 1, n + 1);
    }
  }

  /** The cursor moves by exactly the octets the name takes up at its start:
      through the first pointer, or through the root octet. */
  lemma {:induction false} MovedEncoded(
      data: seq<Octet>, len: nat, off: nat, labels: Labels, layout: Layout, n: nat)
    requires len < |data| && Octets(data) && n + |Wire(labels)| < DNS_MAX_NAME
    requires Encodes(data, len, off, labels, layout) && PlainLabels(labels)
    ensures Moved(data, len, off, n) == Footprint(labels, layout)
    decreases layout
  {
    match layout
    case Root =>
    case Pointer(_, _) =>
    case Label(rest) =>
      var l := labels[0];
      var m := 1 + |l|;
      assert data[off..off + m] == [|l|] + l;
      assert l in labels && PlainOctets(l);
      MovedRun(data, len, off, m, n);
      assert PlainLabels(labels[1..]);
      MovedEncoded(data, len, off + m, labels[1..], rest, n + m);
  }

  // ----- rewriting

  /** Where the parts of a buffer lie that starts with a length octet and a label. */
  lemma LabelParts(x: Octet, l: seq<Octet>, tail: seq<Octet>)
    requires l != []
    ensures
      var t := [x] + l + tail;
      && t[0] == x
      && t[1..|l| + 1] == l
      && t[|l|] == l[|l| - 1]
      && t[|l| + 1..] == tail
  {
  }

  lemma ConsLabels(labels: Labels)
    requires labels != []
    ensures ShortLabels(labels) <==> |labels[0]| < 128 && ShortLabels(labels[1..])
    ensures PlainLabels(labels) ==> PlainOctets(labels[0]) && PlainLabels(labels[1..])
    ensures LabelSizes(labels) ==> 1 <= |labels[0]| < 0xC0 && LabelSizes(labels[1..])
  {
    assert labels == [labels[0]] + labels[1..];
  }

  lemma AllFrom(p: seq<Octet>, q: seq<Octet>, r: seq<Octet>, s: seq<Octet>)
    ensures p + q + r + s == p + (q + r + s)
    ensures p + q + r == p + (q + r)
  {
  }

  /** A name in length-prefixed form gets a dot behind each label; a length octet
      of 128 or more is refused, whatever precedes it. */
  lemma {:induction false} RewriteLabels(labels: Labels, junk: seq<Octet>)
    requires PlainLabels(labels) && LabelSizes(labels)
    ensures Rewrite(Wire(labels) + [0] + junk) ==
            if ShortLabels(labels) then Rewritten(Dotted(labels) + [0] + junk, |Dotted(labels)|)
            else Unreadable
    decreases |labels|
  {
    if labels == [] {
      assert [] + [0] + junk == [0] + junk;
    } else {
      var l, rest := labels[0], labels[1..];
      ConsLabels(labels);
      var tail := Wire(rest) + [0] + junk;
      AllFrom([|l|] + l, Wire(rest), [0], junk);
      LabelParts(|l|, l, tail);
      RewriteLabels(rest, junk);
      AllFrom(l + [DOT], Dotted(rest), [0], junk);
    }
  }

  // ----- the text read back from the buffer

  lemma {:induction false} CStringOf(text: seq<Octet>, tail: seq<Octet>)
    requires 0 !in text
    ensures CString(text + [0] + tail) == text
  {
    if text != [] {
      assert (text + [0] + tail)[1..] == text[1..] + [0] + tail;
      CStringOf(text[1..], tail);
    }
  }

  lemma {:induction false} DottedJoined(labels: Labels)
    requires labels != []
    ensures Dotted(labels) == Joined(labels) + [DOT]
  {
    if |labels| > 1 {
      DottedJoined(labels[1..]);
    }
  }

  lemma {:induction false} JoinedOctets(labels: Labels)
    ensures PlainLabels(labels) <==> PlainOctets(Joined(labels))
  {
    if |labels| > 1 {
      var l, rest := labels[0], labels[1..];
      JoinedOctets(rest);
      PlainAppend(l + [DOT], Joined(rest));
      PlainAppend(l, [DOT]);
      assert labels == [l] + rest;
    } else if |labels| == 1 {
      assert labels == [labels[0]];
    }
  }

  lemma PlainAppend(a: seq<Octet>, b: seq<Octet>)
    ensures PlainOctets(a + b) <==> PlainOctets(a) && PlainOctets(b)
  {
    assert forall k :: 0 <= k < |a| ==> a[k] == (a + b)[k];
    assert forall k :: 0 <= k < |b| ==> b[k] == (a + b)[|a| + k];
  }

  /** There is a zero octet, and before it only octets below 0xC0. */
  ghost predicate LowText(name: seq<Octet>, z: nat) {
    z < |name| && name[z] == 0 && forall k :: 0 <= k < z ==> 0 <= name[k] < 0xC0
  }

  lemma {:induction false} CStringLow(name: seq<Octet>, z: nat)
    requires LowText(name, z)
    ensures PlainOctets(CString(name))
  {
    if name[0] != 0 {
      assert LowText(name[1..], z - 1);
      CStringLow(name[1..], z - 1);
    }
  }

  /** Whatever stale octets the buffer holds behind the name, the text that is
      read back never has an octet that the copy loop would not have copied. */
  ghost predicate AllLow(a: seq<Octet>) {
    forall k :: 0 <= k < |a| ==> 0 <= a[k] < 0xC0
  }

  lemma LowAfter(a: seq<Octet>, tail: seq<Octet>, z: nat)
    requires LowText(tail, z) && AllLow(a)
    ensures LowText(a + tail, |a| + z)
  {
  }

  lemma LowWithin(name: seq<Octet>, from: nat, z: nat)
    requires LowText(name, z) && from <= z
    ensures LowText(name[from..], z - from)
  {
  }

  lemma LowHead(t: seq<Octet>, n: nat, rest: seq<Octet>, z: nat)
    requires LowText(t, z) && 0 < z <= n < |t|
    ensures LowText(t[1..n + 1] + rest, z - 1)
  {
    var name := t[1..n + 1] + rest;
    assert forall k :: 0 <= k < n ==> name[k] == t[k + 1];
  }

  /** One step of the rewriting: a label, and what follows it. */
  lemma RewriteUnfold(t: seq<Octet>) returns (n: nat, tail: seq<Octet>)
    requires t != [] && t[0] != 0 && Rewrite(t).Rewritten?
    ensures n == t[0] && n + 1 < |t| && t[n] != 0 && tail == t[n + 1..]
    ensures Rewrite(tail).Rewritten?
    ensures Rewrite(t).octets == t[1..n + 1] + [DOT] + Rewrite(tail).octets
  {
    n := t[0];
    tail := t[n + 1..];
  }

  lemma LowInLabel(t: seq<Octet>, n: nat, rest: seq<Octet>, z: nat)
    requires LowText(t, z) && 0 < z < n < |t|
    ensures LowText(t[1..n + 1] + [DOT] + rest, z - 1)
  {
    AllFrom(t[1..n + 1], [DOT], rest, []);
    LowHead(t, n, [DOT] + rest, z);
  }

  lemma LowBehindLabel(t: seq<Octet>, n: nat, rest: seq<Octet>, z: nat, z': nat)
    requires LowText(t, z) && n < z && LowText(rest, z')
    ensures LowText(t[1..n + 1] + [DOT] + rest, n + 1 + z')
  {
    LowHeadOf(t, n, z);
    LowAfter(t[1..n + 1] + [DOT], rest, z');
  }

  lemma {:induction false} RewriteLow(t: seq<Octet>, z: nat) returns (z': nat)
    requires LowText(t, z) && Rewrite(t).Rewritten?
    ensures LowText(Rewrite(t).octets, z')
    decreases |t|
  {
    if t[0] == 0 {
      return z;
    }
    var n, tail := RewriteUnfold(t);
    if z < n {
      z' := z - 1;
      LowInLabel(t, n, Rewrite(tail).octets, z);
    } else {
      LowWithin(t, n + 1, z);
      z' := RewriteLow(tail, z - n - 1);
      LowBehindLabel(t, n, Rewrite(tail).octets, z, z');
      z' := n + 1 + z';
    }
  }

  lemma LowHeadOf(t: seq<Octet>, n: nat, z: nat)
    requires LowText(t, z) && n < z
    ensures AllLow(t[1..n + 1] + [DOT])
  {
  }

  lemma CutLow(octets: seq<Octet>, stop: nat, z: nat)
    requires LowText(octets, z) && stop <= |octets|
    ensures LowText(CutLastDot(octets, stop), if 0 < stop <= z then stop - 1 else z)
  {
  }

  // ----- main results

  /** What the decoder needs of a name, beyond its being in the message. */
  predicate Readable(labels: Labels, layout: Layout) {
    && PlainLabels(labels)
    && ShortLabels(labels)
    && |Wire(labels)| < DNS_MAX_NAME
    && Jumps(layout) <= MAX_JUMPS
  }

  lemma {:induction false} EncodedLabelSizes(data: seq<Octet>, len: nat, off: nat, labels: Labels, layout: Layout)
    requires len < |data| && Octets(data) && Encodes(data, len, off, labels, layout)
    ensures LabelSizes(labels)
    decreases layout
  {
    match layout
    case Root =>
    case Pointer(target, rest) => EncodedLabelSizes(data, len, target, labels, rest);
    case Label(rest) =>
      EncodedLabelSizes(data, len, off + 1 + |labels[0]|, labels[1..], rest);
      assert labels == [labels[0]] + labels[1..];
  }

  lemma CutText(labels: Labels, junk: seq<Octet>)
    requires PlainLabels(labels)
    ensures CString(CutLastDot(Dotted(labels) + [0] + junk, |Dotted(labels)|)) == Joined(labels)
  {
    var out := Dotted(labels) + [0] + junk;
    JoinedOctets(labels);
    if labels == [] {
      CStringOf([], junk);
    } else {
      DottedJoined(labels);
      assert CutLastDot(out, |Dotted(labels)|) == Joined(labels) + [0] + ([0] + junk);
      CStringOf(Joined(labels), [0] + junk);
    }
  }

  lemma DecodePlain(before: seq<Octet>, data: seq<Octet>, len: nat, off: nat, labels: Labels, layout: Layout)
    requires |before| == DNS_MAX_NAME && len < |data| && Octets(data)
    requires Encodes(data, len, off, labels, layout) && PlainLabels(labels)
    ensures Decode(before, data, len, off) ==
            if Readable(labels, layout) then Name(Joined(labels))
            else if |Wire(labels)| >= 256 || Jumps(layout) > 20 then Error(InvalidData)
            else Error(Fail)
  {
    CollectEncoded(data, len, off, labels, layout, 0, 0);
    EncodedLabelSizes(data, len, off, labels, layout);
    if |Wire(labels)| < DNS_MAX_NAME && Jumps(layout) <= MAX_JUMPS {
      RewriteLabels(labels, before[|Wire(labels)| + 1..]);
      CutText(labels, before[|Wire(labels)| + 1..]);
    }
  }

  lemma DecodeOddOctet(before: seq<Octet>, data: seq<Octet>, len: nat, off: nat, labels: Labels)
    requires |before| == DNS_MAX_NAME && len < |data| && Octets(data) && !PlainLabels(labels)
    ensures Decode(before, data, len, off) != Name(Joined(labels))
  {
    var d := Decode(before, data, len, off);
    if d.Name? {
      CollectBound(data, len, off, 0, 0);
      var raw := Collect(data, len, off, 0, 0).raw;
      var name := Terminated(before, raw);
      assert LowText(name, |raw|);
      var z := RewriteLow(name, |raw|);
      var r := Rewrite(name);
      CutLow(r.octets, r.stop, z);
      CStringLow(CutLastDot(r.octets, r.stop), if 0 < r.stop <= z then r.stop - 1 else z);
      JoinedOctets(labels);
    }
  }

  /**
   The decoder returns the labels joined by dots if and only if every label
   octet is neither zero nor marked like a pointer, every label is shorter than
   128 octets, at most 255 octets precede the root octet, and at most 20
   pointers are followed. Stale contents of the output buffer do not matter.
   */
  lemma DecodesExactlyReadableNames(
      before: seq<Octet>, data: seq<Octet>, len: nat, off: nat, labels: Labels, layout: Layout)
    requires |before| == DNS_MAX_NAME && len < |data| && Octets(data)
    requires Encodes(data, len, off, labels, layout)
    ensures Decode(before, data, len, off) == Name(Joined(labels)) <==> Readable(labels, layout)
  {
    if PlainLabels(labels) {
      DecodePlain(before, data, len, off, labels, layout);
    } else {
      DecodeOddOctet(before, data, len, off, labels);
    }
  }

  /** The limits of section 2.3.4 of RFC 1035 are inside what is read, for every
      placement of at most 20 pointers, and the cursor ends up behind the name. */
  lemma StandardNamesDecode(
      before: seq<Octet>, data: seq<Octet>, len: nat, off: nat, labels: Labels, layout: Layout)
    requires |before| == DNS_MAX_NAME && len < |data| && Octets(data)
    requires Encodes(data, len, off, labels, layout)
    requires forall l :: l in labels ==> |l| <= 63 && PlainOctets(l)
    requires |Wire(labels)| + 1 <= 255 && Jumps(layout) <= 20
    ensures Decode(before, data, len, off) == Name(Joined(labels))
    ensures Moved(data, len, off, 0) == Footprint(labels, layout)
  {
    DecodePlain(before, data, len, off, labels, layout);
    MovedEncoded(data, len, off, labels, layout, 0);
  }

  // ----- names written without compression

  function InPlace(n: nat): Layout {
    if n == 0 then Root else Label(InPlace(n - 1))
  }

  lemma SliceParts(data: seq<Octet>, off: nat, end: nat, x: Octet, l: seq<Octet>, tail: seq<Octet>)
    requires off <= end <= |data| && l != []
    requires data[off..end] == [x] + l + tail
    ensures end == off + 1 + |l| + |tail|
    ensures data[off] == x
    ensures data[off + 1..off + 1 + |l|] == l
    ensures data[off + 1 + |l|..end] == tail
  {
    var t := data[off..end];
    LabelParts(x, l, tail);
    assert |t| == 1 + |l| + |tail|;
    assert data[off] == t[0];
    SubSlice(data, off, end, 1, |l| + 1);
    SubSlice(data, off, end, |l| + 1, |t|);
    assert t[|l| + 1..|t|] == t[|l| + 1..];
  }

  lemma SubSlice(data: seq<Octet>, a: nat, b: nat, c: nat, d: nat)
    requires a <= b <= |data| && c <= d <= b - a
    ensures data[a..b][c..d] == data[a + c..a + d]
  {
    var s, t := data[a..b][c..d], data[a + c..a + d];
    forall k | 0 <= k < d - c ensures s[k] == t[k] {
      assert s[k] == data[a..b][c + k] == data[a + c + k];
    }
  }

  /** A label stands here, behind its length. */
  predicate LabelAt(data: seq<Octet>, off: nat, l: seq<Octet>) {
    off + 1 + |l| <= |data| && data[off] == |l| && data[off + 1..off + 1 + |l|] == l
  }

  lemma EncodesLabel(data: seq<Octet>, len: nat, off: nat, next: nat, labels: Labels, layout: Layout)
    requires len < |data| && labels != [] && 1 <= |labels[0]| < 0xC0 && LabelAt(data, off, labels[0])
    requires next == off + 1 + |labels[0]| <= len && Encodes(data, len, next, labels[1..], layout)
    ensures Encodes(data, len, off, labels, Label(layout))
  {
  }

  predicate WrittenAt(data: seq<Octet>, off: nat, labels: Labels) {
    var end := off + |Wire(labels)| + 1;
    end <= |data| && data[off..end] == Wire(labels) + [0]
  }

  lemma WrittenLabel(data: seq<Octet>, off: nat, next: nat, labels: Labels)
    requires labels != [] && labels[0] != [] && WrittenAt(data, off, labels) && next == off + 1 + |labels[0]|
    ensures LabelAt(data, off, labels[0]) && WrittenAt(data, next, labels[1..])
    ensures off + |Wire(labels)| == next + |Wire(labels[1..])|
  {
    var l, rest := labels[0], labels[1..];
    AllFrom([|l|] + l, Wire(rest), [0], []);
    SliceParts(data, off, off + |Wire(labels)| + 1, |l|, l, Wire(rest) + [0]);
  }

  lemma RootEncodes(data: seq<Octet>, len: nat, off: nat)
    requires off < len < |data| && WrittenAt(data, off, [])
    ensures Encodes(data, len, off, [], Root)
  {
    assert data[off] == data[off..off + 1][0];
  }

  lemma {:induction false} WrittenEncodes(data: seq<Octet>, len: nat, off: nat, labels: Labels)
    requires len < |data| && LabelSizes(labels) && off + |Wire(labels)| < len && WrittenAt(data, off, labels)
    ensures Encodes(data, len, off, labels, InPlace(|labels|))
    decreases |labels|
  {
    if labels == [] {
      RootEncodes(data, len, off);
    } else {
      ConsLabels(labels);
      var next := off + 1 + |labels[0]|;
      WrittenLabel(data, off, next, labels);
      WrittenEncodes(data, len, next, labels[1..]);
      EncodesLabel(data, len, off, next, labels, InPlace(|labels| - 1));
    }
  }

  /** A name written out in full is one way to encode it, wherever it stands. */
  lemma WrittenOutEncodes(data: seq<Octet>, len: nat, off: nat, labels: Labels)
    requires len < |data| && LabelSizes(labels) && off + |Wire(labels)| < len
    requires data[off..off + |Wire(labels)| + 1] == Wire(labels) + [0]
    ensures Encodes(data, len, off, labels, InPlace(|labels|))
  {
    WrittenEncodes(data, len, off, labels);
  }

  lemma MisreadCollects(data: seq<Octet>)
    requires data == [2, 0xC0, 4, 0, 97, 98, 0, 0]
    ensures Octets(data) && Collect(data, 7, 0, 0, 0) == Copied([2, 97, 98])
  {
    assert Collect(data, 7, 6, 3, 1) == Copied([]);
    assert Collect(data, 7, 5, 2, 1) == Copied([98] + []);
    assert Collect(data, 7, 4, 1, 1) == Copied([97] + [98]);
    assert IndirectOffset(0xC0, 4) == 4;
    assert Collect(data, 7, 1, 1, 0) == Copied([97, 98]);
    assert Collect(data, 7, 0, 0, 0) == Copied([2] + [97, 98]);
  }

  lemma MisreadEncodes(data: seq<Octet>)
    requires data == [2, 0xC0, 4, 0, 97, 98, 0, 0]
    ensures Encodes(data, 7, 0, [[0xC0, 4]], Label(Root))
  {
    var l: seq<Octet> := [0xC0, 4];
    assert data[1..3] == l && [l][1..] == [];
    assert Encodes(data, 7, 3, [], Root);
  }

  /** Two octets inside a label that look like a pointer are followed as one: the
      name with the single label (192, 4) is read as "ab", whatever the output
      buffer held. */
  lemma PointerInsideLabelMisread(before: seq<Octet>)
    requires |before| == DNS_MAX_NAME
    ensures
      var data: seq<Octet> := [2, 0xC0, 4, 0, 97, 98, 0, 0];
      && Encodes(data, 7, 0, [[0xC0, 4]], Label(Root)) && Octets(data)
      && Decode(before, data, 7, 0) == Name([97, 98])
  {
    var data: seq<Octet> := [2, 0xC0, 4, 0, 97, 98, 0, 0];
    MisreadEncodes(data);
    MisreadCollects(data);
    var read: seq<Octet> := [97, 98];
    assert [read][1..] == [] && Wire([read]) == [2] + read + [];
    assert Terminated(before, [2, 97, 98]) == Wire([read]) + [0] + before[4..];
    RewriteLabels([read], before[4..]);
    CutText([read], before[4..]);
  }
}
