/**
 What the DNS name decoder makes of any message at all. A walk is what a reader of
 names does: from octet to octet, and from a pointer to where it points, until an
 octet is zero.
 */
module DnsWalk {
  import opened DnsName
  import opened DnsDecoding

  /** From the octet at a the reading goes on at b. */
  predicate LeadsTo(data: seq<Octet>, a: nat, b: nat)
    requires a + 1 < |data|
  {
    if data[a] < 0xC0 then data[a] != 0 && b == a + 1
    else b == (data[a] - 0xC0) * 256 + data[a + 1]
  }

  /** A walk stays within the first len octets and ends at a zero octet. */
  ghost predicate IsWalk(data: seq<Octet>, len: nat, walk: seq<nat>)
    requires len < |data|
  {
    && walk != []
    && (forall k :: 0 <= k < |walk| ==> walk[k] < len)
    && (forall k :: 0 <= k < |walk| - 1 ==> LeadsTo(data, walk[k], walk[k + 1]))
    && data[walk[|walk| - 1]] == 0
  }

  ghost predicate Within(data: seq<Octet>, walk: seq<nat>) {
    forall k :: 0 <= k < |walk| ==> walk[k] < |data|
  }

  /** The octets met on a walk that are neither pointers nor its end. */
  ghost function Plain(data: seq<Octet>, walk: seq<nat>): seq<Octet>
    requires Within(data, walk)
  {
    if walk == [] then []
    else (if 0 < data[walk[0]] < 0xC0 then [data[walk[0]]] else []) + Plain(data, walk[1..])
  }

  ghost function Pointers(data: seq<Octet>, walk: seq<nat>): nat
    requires Within(data, walk)
  {
    if walk == [] then 0
    else (if data[walk[0]] >= 0xC0 then 1 else 0) + Pointers(data, walk[1..])
  }

  /** There is a walk from this offset that meets these octets, fewer than 256, and at
      most 20 pointers. */
  ghost predicate ReadsAs(data: seq<Octet>, len: nat, from: nat, raw: seq<Octet>)
    requires len < |data|
  {
    exists walk :: IsWalk(data, len, walk) && walk[0] == from && Plain(data, walk) == raw
                   && |raw| < 256 && Pointers(data, walk) <= 20
  }

  lemma WalkOn(data: seq<Octet>, len: nat, walk: seq<nat>)
    requires len < |data| && Octets(data) && IsWalk(data, len, walk) && data[walk[0]] != 0
    ensures |walk| > 1 && IsWalk(data, len, walk[1..]) && walk[1..][0] == walk[1]
    ensures walk[1] == if IsIndirect(data[walk[0]]) then IndirectOffset(data[walk[0]], data[walk[0] + 1])
                       else walk[0] + 1
  {
    assert LeadsTo(data, walk[0], walk[0 + 1]);
    var rest := walk[1..];
    forall k | 0 <= k < |rest| - 1 ensures LeadsTo(data, rest[k], rest[k + 1]) {
      assert LeadsTo(data, walk[k + 1], walk[k + 1 + 1]);
    }
  }

  lemma WalkBack(data: seq<Octet>, len: nat, from: nat, rest: seq<nat>)
    requires len < |data| && from < len && IsWalk(data, len, rest) && LeadsTo(data, from, rest[0])
    ensures IsWalk(data, len, [from] + rest) && ([from] + rest)[1..] == rest
  {
    var walk := [from] + rest;
    forall k | 0 <= k < |walk| - 1 ensures LeadsTo(data, walk[k], walk[k + 1]) {
      if k > 0 {
        assert LeadsTo(data, rest[k - 1], rest[k - 1 + 1]);
      }
    }
  }

  lemma ZeroEndsWalk(data: seq<Octet>, len: nat, walk: seq<nat>)
    requires len < |data| && IsWalk(data, len, walk) && |walk| > 1
    ensures data[walk[0]] != 0
  {
    assert LeadsTo(data, walk[0], walk[0 + 1]);
  }

  lemma WalkEnds(data: seq<Octet>, len: nat, walk: seq<nat>)
    requires len < |data| && IsWalk(data, len, walk) && data[walk[0]] == 0
    ensures Plain(data, walk) == [] && Pointers(data, walk) == 0
  {
    if |walk| > 1 {
      ZeroEndsWalk(data, len, walk);
      assert false;
    }
  }

  /** Along a walk the copy loop collects its octets, or refuses it for its length or
      its pointers. */
  lemma {:induction false} WalkCollects(data: seq<Octet>, len: nat, walk: seq<nat>, n: nat, jumps: nat)
    requires len < |data| && Octets(data) && n <= DNS_MAX_NAME && jumps <= MAX_JUMPS && IsWalk(data, len, walk)
    ensures Collect(data, len, walk[0], n, jumps) ==
      if n + |Plain(data, walk)| < DNS_MAX_NAME && jumps + Pointers(data, walk) <= MAX_JUMPS
      then Copied(Plain(data, walk)) else Bad
    decreases |walk|
  {
    var x := data[walk[0]];
    if n == DNS_MAX_NAME {
    } else if x == 0 {
      WalkEnds(data, len, walk);
    } else {
      WalkOn(data, len, walk);
      if !IsIndirect(x) {
        WalkCollects(data, len, walk[1..], n + 1, jumps);
      } else if jumps < MAX_JUMPS {
        WalkCollects(data, len, walk[1..], n, jumps + 1);
      }
    }
  }

  /** What the copy loop collects lies on a walk. */
  lemma {:induction false} CollectWalks(data: seq<Octet>, len: nat, from: nat, n: nat, jumps: nat)
    returns (walk: seq<nat>)
    requires len < |data| && Octets(data) && n <= DNS_MAX_NAME && jumps <= MAX_JUMPS
    requires Collect(data, len, from, n, jumps).Copied?
    ensures IsWalk(data, len, walk) && walk[0] == from
    decreases DNS_MAX_NAME - n, MAX_JUMPS - jumps
  {
    if data[from] == 0 {
      walk := [from];
    } else {
      var rest;
      if IsIndirect(data[from]) {
        rest := CollectWalks(data, len, IndirectOffset(data[from], data[from + 1]), n, jumps + 1);
      } else {
        rest := CollectWalks(data, len, from + 1, n + 1, jumps);
      }
      WalkBack(data, len, from, rest);
      walk := [from] + rest;
    }
  }

  /** For every message, whatever it holds: the copy loop succeeds with these octets if
      and only if a walk within its limits meets them. A message that ends before a
      zero octet, or points beyond its end, has no walk. */
  lemma CollectExactly(data: seq<Octet>, len: nat, from: nat, raw: seq<Octet>)
    requires len < |data| && Octets(data)
    ensures Collect(data, len, from, 0, 0) == Copied(raw) <==> ReadsAs(data, len, from, raw)
  {
    if Collect(data, len, from, 0, 0) == Copied(raw) {
      var walk := CollectWalks(data, len, from, 0, 0);
      WalkCollects(data, len, walk, 0, 0);
    }
    if ReadsAs(data, len, from, raw) {
      var walk :| IsWalk(data, len, walk) && walk[0] == from && Plain(data, walk) == raw
                  && |raw| < 256 && Pointers(data, walk) <= 20;
      WalkCollects(data, len, walk, 0, 0);
    }
  }

  /** How far the cursor moves, for every message: k plain octets stand in a row, and
      behind them the end of the data, the root octet or a pointer. */
  lemma MovedExactly(data: seq<Octet>, len: nat, from: nat, k: nat)
    requires len < |data| && Octets(data) && from + k <= len && k <= 256
    requires PlainOctets(data[from..from + k])
    requires k < 256 ==> from + k == len || data[from + k] == 0 || data[from + k] >= 0xC0
    ensures Moved(data, len, from, 0) ==
      if k == 256 then 256
      else if from + k < len && data[from + k] >= 0xC0 then k + 2
      else k + 1
  {
    MovedRun(data, len, from, k, 0);
  }

  // ----- the second half

  /** A label that the rewriting accepts: its length fits a signed char, and its last
      octet is not zero. */
  predicate Acceptable(l: seq<Octet>) {
    1 <= |l| < 128 && l[|l| - 1] != 0
  }

  /** The buffer begins with these labels, each behind its length, and then a zero. */
  predicate HoldsLabels(t: seq<Octet>, labels: Labels)
    decreases |labels|
  {
    if labels == [] then t != [] && t[0] == 0
    else
      var l := labels[0];
      && Acceptable(l) && |l| + 1 < |t| && t[0] == |l| && t[1..|l| + 1] == l
      && HoldsLabels(t[|l| + 1..], labels[1..])
  }

  /** What stands behind the labels. */
  function Behind(t: seq<Octet>, labels: Labels): (r: seq<Octet>)
    requires HoldsLabels(t, labels)
    ensures r != [] && r[0] == 0
    decreases |labels|
  {
    if labels == [] then t else Behind(t[|labels[0]| + 1..], labels[1..])
  }

  /** One label off the front of the buffer. */
  lemma RewriteOne(t: seq<Octet>, l: seq<Octet>, octets: seq<Octet>, stop: nat)
    requires Acceptable(l) && |l| + 1 < |t| && t[0] == |l| && t[1..|l| + 1] == l
    requires Rewrite(t[|l| + 1..]) == Rewritten(octets, stop)
    ensures Rewrite(t) == Rewritten(l + [DOT] + octets, |l| + 1 + stop)
  {
    assert t[|l|] == t[1..|l| + 1][|l| - 1];
  }

  lemma {:induction false} LabelsRewrite(t: seq<Octet>, labels: Labels)
    requires HoldsLabels(t, labels)
    ensures Rewrite(t) == Rewritten(Dotted(labels) + Behind(t, labels), |Dotted(labels)|)
    decreases |labels|
  {
    if labels == [] {
      assert [] + t == t;
    } else {
      var l, rest := labels[0], labels[1..];
      var tail := t[|l| + 1..];
      LabelsRewrite(tail, rest);
      RewriteOne(t, l, Dotted(rest) + Behind(tail, rest), |Dotted(rest)|);
      AllFrom(l + [DOT], Dotted(rest), Behind(tail, rest), []);
    }
  }

  lemma {:induction false} RewriteFinds(t: seq<Octet>) returns (labels: Labels)
    requires t != [] && Rewrite(t).Rewritten?
    ensures HoldsLabels(t, labels)
    decreases |t|
  {
    if t[0] == 0 {
      labels := [];
    } else {
      var n, tail := RewriteUnfold(t);
      var rest := RewriteFinds(tail);
      var l := t[1..n + 1];
      assert l[n - 1] == t[n];
      labels := [l] + rest;
      assert labels[1..] == rest;
    }
  }

  lemma {:induction false} CStringPrefix(text: seq<Octet>, tail: seq<Octet>)
    ensures CString(text + [0] + tail) == CString(text)
    decreases |text|
  {
    if text != [] {
      assert (text + [0] + tail)[1..] == text[1..] + [0] + tail;
      CStringPrefix(text[1..], tail);
    }
  }

  lemma CutAt(text: seq<Octet>, tail: seq<Octet>)
    ensures CutLastDot(text + [DOT] + tail, |text| + 1) == text + [0] + tail
  {
  }

  /** The text that is left when the last dot has been cut off. */
  lemma TextIsJoined(labels: Labels, tail: seq<Octet>)
    requires tail != [] && tail[0] == 0
    ensures CString(CutLastDot(Dotted(labels) + tail, |Dotted(labels)|)) == CString(Joined(labels))
  {
    if labels != [] {
      DottedJoined(labels);
      var text := Joined(labels);
      CutAt(text, tail);
      CStringPrefix(text, tail);
    }
  }

  // ----- the decoder

  /** The message, from this offset on, in a buffer that held `before`, is a name with
      these labels: a walk meets the octets of the buffer, a zero is put behind them,
      and the buffer then begins with the labels. */
  ghost predicate ReadsName(before: seq<Octet>, data: seq<Octet>, len: nat, from: nat, raw: seq<Octet>, labels: Labels)
    requires |before| == DNS_MAX_NAME && len < |data|
  {
    ReadsAs(data, len, from, raw) && |raw| < 256 && HoldsLabels(raw + [0] + before[|raw| + 1..], labels)
  }

  lemma DecodedName(before: seq<Octet>, data: seq<Octet>, len: nat, from: nat, raw: seq<Octet>, labels: Labels)
    requires |before| == DNS_MAX_NAME && len < |data| && Octets(data) && from <= len
    requires ReadsName(before, data, len, from, raw, labels)
    ensures Decode(before, data, len, from) == Name(CString(Joined(labels)))
  {
    CollectExactly(data, len, from, raw);
    var t := raw + [0] + before[|raw| + 1..];
    LabelsRewrite(t, labels);
    TextIsJoined(labels, Behind(t, labels));
  }

  /**
   What the decoder returns, for every message, offset and buffer. An offset beyond
   the data is one error. No walk within the limits is another: so a name that is cut
   off by the end of the data, or that points beyond it, is never accepted. Octets
   that do not fall into labels are a third. Otherwise the labels come back, joined
   by dots, up to the first zero octet in them.
   */
  lemma DecodeExactly(before: seq<Octet>, data: seq<Octet>, len: nat, from: nat)
    requires |before| == DNS_MAX_NAME && len < |data| && Octets(data)
    ensures
      match Decode(before, data, len, from)
      case Error(code) =>
        if from > len then code == NotSufficientBuffer
        else if forall raw :: !ReadsAs(data, len, from, raw) then code == InvalidData
        else code == Fail && forall raw, labels :: !ReadsName(before, data, len, from, raw, labels)
      case Name(text) =>
        from <= len && exists raw, labels ::
          ReadsName(before, data, len, from, raw, labels) && text == CString(Joined(labels))
  {
    if from <= len {
      forall raw ensures Collect(data, len, from, 0, 0) == Copied(raw) <==> ReadsAs(data, len, from, raw) {
        CollectExactly(data, len, from, raw);
      }
      var c := Collect(data, len, from, 0, 0);
      if c.Copied? {
        CollectBound(data, len, from, 0, 0);
        var t := Terminated(before, c.raw);
        if Rewrite(t).Rewritten? {
          var labels := RewriteFinds(t);
          assert ReadsName(before, data, len, from, c.raw, labels);
          DecodedName(before, data, len, from, c.raw, labels);
        } else {
          forall raw, labels ensures !ReadsName(before, data, len, from, raw, labels) {
            if ReadsName(before, data, len, from, raw, labels) {
              DecodedName(before, data, len, from, raw, labels);
            }
          }
        }
      }
    }
  }
}
