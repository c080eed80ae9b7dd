/**
 The two loops of the DNS name parser, on buffers: the copy loop that follows
 compression pointers, and the rewriting of length octets to dots in place.
 */
module DnsParser {
  import opened DnsDecoding
  import opened DnsName
  import opened DnsWalk

  /** Moves a label of n octets down over its length octet at index i. */
  method ShiftDown(name: array<Octet>, i: nat, n: nat) returns (ok: bool)
    requires name.Length == DNS_MAX_NAME && i < DNS_MAX_NAME && 1 <= n
    modifies name
    ensures ok <==> i + n < DNS_MAX_NAME - 1
    ensures ok ==> name[..] == old(name[..i]) + old(name[i + 1..i + n + 1]) + old(name[i + n..])
  {
    var k, j := i, 0;
    while j < n
      invariant k == i + j <= i + n && (j > 0 ==> k < DNS_MAX_NAME - 1)
      invariant k < DNS_MAX_NAME
      invariant forall x :: 0 <= x < i || k <= x < DNS_MAX_NAME ==> name[x] == old(name[x])
      invariant forall x :: i <= x < k ==> name[x] == old(name[x + 1])
    {
      k := k + 1;
      if k >= DNS_MAX_NAME - 1 {
        return false;
      }
      name[k - 1] := name[k];
      j := j + 1;
    }
    ok := true;
  }

  /** One label of the unread part, with the buffer described by absolute indices. */
  lemma SlicesFrom(s: seq<Octet>, i: nat, n: nat)
    requires i + n < |s| - 1
    ensures s[i..][n] == s[i + n] && s[i..][n + 1..] == s[i + n + 1..] && s[i..][1..n + 1] == s[i + 1..i + n + 1]
  {
  }

  lemma RewriteAt(s: seq<Octet>, i: nat)
    requires i < |s| && s[i] != 0
    ensures
      var n := s[i];
      if !(0 <= n < 128) || i + n >= |s| - 1 || s[i + n] == 0 then Rewrite(s[i..]) == Unreadable
      else
        var rest := Rewrite(s[i + n + 1..]);
        Rewrite(s[i..]) ==
        if rest.Unreadable? then Unreadable
        else Rewritten(s[i + 1..i + n + 1] + [DOT] + rest.octets, n + 1 + rest.stop)
  {
    var t, n := s[i..], s[i];
    if 0 <= n && i + n < |s| - 1 {
      SlicesFrom(s, i, n);
    }
  }

  /** The buffer after its first i octets are done, seen as a whole. */
  ghost function Finished(done: seq<Octet>, rest: Text): Text {
    if rest.Unreadable? then Unreadable else Rewritten(done + rest.octets, |done| + rest.stop)
  }

  lemma DotPlaced(s: seq<Octet>, t: seq<Octet>, i: nat, end: nat)
    requires i < end < |s|
    requires t == (s[..i] + s[i + 1..end + 1] + s[end..])[end := DOT]
    ensures |t| == |s| && t[..end + 1] == s[..i] + s[i + 1..end + 1] + [DOT]
    ensures t[end + 1..] == s[end + 1..]
  {
  }

  lemma FinishedLabel(done: seq<Octet>, l: seq<Octet>, rest: Text)
    ensures Finished(done + l + [DOT], rest) ==
            Finished(done, if rest.Unreadable? then Unreadable
                           else Rewritten(l + [DOT] + rest.octets, |l| + 1 + rest.stop))
  {
    if rest.Rewritten? {
      AllFrom(done, l, [DOT], rest.octets);
    }
  }

  lemma LabelDone(s: seq<Octet>, t: seq<Octet>, i: nat, n: nat)
    requires i < |s| && n == s[i] && 0 < n < 128 && i + n < |s| - 1 && s[i + n] != 0
    requires |t| == |s| && t[..i + n + 1] == s[..i] + s[i + 1..i + n + 1] + [DOT] && t[i + n + 1..] == s[i + n + 1..]
    ensures Finished(t[..i + n + 1], Rewrite(t[i + n + 1..])) == Finished(s[..i], Rewrite(s[i..]))
  {
    RewriteAt(s, i);
    FinishedLabel(s[..i], s[i + 1..i + n + 1], Rewrite(s[i + n + 1..]));
  }

  /** Rewrites the label whose length octet is at index i. */
  method RewriteLabel(name: array<Octet>, i: nat) returns (ok: bool, next: nat)
    requires name.Length == DNS_MAX_NAME && i < DNS_MAX_NAME && name[i] != 0
    modifies name
    ensures i < next <= DNS_MAX_NAME
    ensures !ok ==> Rewrite(old(name[i..])) == Unreadable
    ensures ok ==>
      Finished(name[..next], Rewrite(name[next..])) == Finished(old(name[..i]), Rewrite(old(name[i..])))
  {
    ghost var s := name[..];
    assert s[i..] == name[i..] && s[..i] == name[..i];
    RewriteAt(s, i);
    var num := name[i];
    next := DNS_MAX_NAME;
    if !(0 <= num < 128) {
      return false, next;
    }
    ok := ShiftDown(name, i, num);
    if !ok {
      return;
    }
    var end := i + num;
    if name[end] == 0 {
      return false, next;
    }
    name[end] := DOT;
    next := end + 1;
    DotPlaced(s, name[..], i, end);
    LabelDone(s, name[..], i, num);
    assert name[..][..next] == name[..next] && name[..][next..] == name[next..];
  }

  lemma StoppedAt(s: seq<Octet>, i: nat)
    requires i <= |s| && (i == |s| || s[i] == 0)
    ensures Finished(s[..i], Rewrite(s[i..])) == Rewritten(s, i)
  {
    assert s[..i] + s[i..] == s;
  }

  method NameFromDns(name: array<Octet>) returns (code: Code)
    requires name.Length == DNS_MAX_NAME
    modifies name
    ensures
      match Rewrite(old(name[..]))
      case Unreadable => code == Fail
      case Rewritten(octets, stop) => code == Ok && name[..] == CutLastDot(octets, stop)
  {
    ghost var whole := Rewrite(name[..]);
    assert name[0..] == name[..];
    var i: nat := 0;
    while i < DNS_MAX_NAME && name[i] != 0
      invariant i <= DNS_MAX_NAME
      invariant whole == Finished(name[..i], Rewrite(name[i..]))
      decreases DNS_MAX_NAME - i
    {
      var ok, next := RewriteLabel(name, i);
      if !ok {
        return Fail;
      }
      i := next;
    }
    StoppedAt(name[..], i);
    assert name[..][..i] == name[..i] && name[..][i..] == name[i..];
    if i > 0 {
      name[i - 1] := 0;
    }
    code := Ok;
  }

  /** Copies the octets of the name, following at most 20 pointers and writing
      at most 256 octets. */
  method CopyOctets(to: array<Octet>, from: nat, data: seq<Octet>, len: nat)
    returns (moved: nat, ok: bool, pos: nat)
    requires to.Length == DNS_MAX_NAME && len < |data| && Octets(data)
    modifies to
    ensures pos <= DNS_MAX_NAME
    ensures ok ==> pos < DNS_MAX_NAME && Collect(data, len, from, 0, 0) == Copied(to[..pos])
    ensures !ok ==> Collect(data, len, from, 0, 0) == Bad
    ensures to[pos..] == old(to[..])[pos..]
    ensures moved == Moved(data, len, from, 0)
  {
    ghost var whole := Collect(data, len, from, 0, 0);
    moved, pos := 0, 0;
    var cur: nat, moveIncrement: nat, jumped: nat := from, 1, 0;
    assert to[0..] == to[..];
    EmptyPrepend(whole);
    while pos < DNS_MAX_NAME
      invariant pos <= DNS_MAX_NAME && jumped <= MAX_JUMPS
      invariant moveIncrement == if jumped == 0 then 1 else 0
      invariant whole == Prepend(to[..pos], Collect(data, len, cur, pos, jumped))
      invariant moved + (if jumped == 0 then Moved(data, len, cur, pos) else 0) == Moved(data, len, from, 0)
      invariant to[pos..] == old(to[..])[pos..]
      decreases DNS_MAX_NAME - pos, MAX_JUMPS - jumped
    {
      moved := moved + moveIncrement;
      if cur >= len {
        return moved, false, pos;
      }
      if data[cur] == 0 {
        break;
      }
      if IsIndirect(data[cur]) {
        if jumped >= MAX_JUMPS {
          return moved, false, pos;
        }
        jumped := jumped + 1;
        cur := IndirectOffset(data[cur], data[cur + 1]);
        moved := moved + moveIncrement;
        moveIncrement := 0;
      } else {
        ghost var done, rest := to[..pos], to[pos..];
        to[pos] := data[cur];
        assert to[..pos + 1] == done + [data[cur]];
        PrependOne(done, data[cur], Collect(data, len, cur + 1, pos + 1, jumped));
        assert to[pos + 1..] == rest[1..];
        assert old(to[..])[pos..][1..] == old(to[..])[pos + 1..];
        pos, cur := pos + 1, cur + 1;
      }
    }
    ok := pos < DNS_MAX_NAME;
  }

  lemma EmptyPrepend(c: Copy)
    ensures Prepend([], c) == c
  {
    if c.Copied? {
      assert [] + c.raw == c.raw;
    }
  }

  lemma PrependOne(done: seq<Octet>, x: Octet, c: Copy)
    ensures Prepend(done, Prepend([x], c)) == Prepend(done + [x], c)
  {
    if c.Copied? {
      assert done + ([x] + c.raw) == done + [x] + c.raw;
    }
  }

  method ParseName(to: array<Octet>, from: nat, data: seq<Octet>, len: nat) returns (moved: nat, code: Code)
    requires to.Length == DNS_MAX_NAME && len < |data| && Octets(data)
    modifies to
    ensures
      match Decode(old(to[..]), data, len, from)
      case Error(c) => code == c
      case Name(text) => code == Ok && CString(to[..]) == text
    ensures moved == if from > len then 0 else Moved(data, len, from, 0)
    ensures code == Ok ==> exists raw, labels ::
      ReadsName(old(to[..]), data, len, from, raw, labels) && CString(to[..]) == CString(Joined(labels))
    ensures code == InvalidData <==> from <= len && forall raw :: !ReadsAs(data, len, from, raw)
  {
    DecodeExactly(to[..], data, len, from);
    if from > len {
      return 0, NotSufficientBuffer;
    }
    var ok, pos;
    moved, ok, pos := CopyOctets(to, from, data, len);
    if !ok {
      return moved, InvalidData;
    }
    ghost var raw := to[..pos];
    to[pos] := 0;
    assert to[..] == Terminated(old(to[..]), raw);
    code := NameFromDns(to);
  }
}
