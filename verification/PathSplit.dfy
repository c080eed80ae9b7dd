/**
 Splitting the raw path of an intended action into the directory, which is
 looked up, and the last component, which need not exist yet.
 */
module PathSplit {

  const NUL: char := '\0'
  const SLASH: char := '/'

  /** Index of the last slash, -1 if there is none. */
  function LastSlash(s: string): (k: int)
    ensures -1 <= k < |s|
    ensures k >= 0 ==> s[k] == SLASH
    ensures forall j :: k < j < |s| ==> s[j] != SLASH
  {
    if s == [] then -1 else if s[|s| - 1] == SLASH then |s| - 1 else LastSlash(s[..|s| - 1])
  }

  /** The text behind the last slash. */
  function LastComponent(s: string): string {
    s[LastSlash(s) + 1..]
  }

  /** The characters that are not NUL. */
  function Visible(s: string): string {
    if s == [] then [] else (if s[0] == NUL then [] else [s[0]]) + Visible(s[1..])
  }

  /** The text in a buffer up to its first NUL. */
  function CString(s: string): string {
    if s == [] || s[0] == NUL then [] else [s[0]] + CString(s[1..])
  }

  predicate IsDots(c: string) {
    (|c| == 1 && c[0] == '.') || (|c| == 2 && c[0] == '.' && c[1] == '.')
  }

  datatype Outcome = Absent | TooLong | At(pos: nat)

  /** What splitting comes to, by the path and the room for the component. */
  function OutcomeOf(s: string, room: nat): Outcome {
    var c := Visible(LastComponent(s));
    if |c| >= room then TooLong
    else if IsDots(c) then Absent
    else At(room - 1 - |c|)
  }

  lemma {:induction false} VisibleAppend(a: string, b: string)
    ensures Visible(a + b) == Visible(a) + Visible(b)
  {
    if a == [] {
      assert a + b == b;
    } else {
      assert (a + b)[1..] == a[1..] + b;
      VisibleAppend(a[1..], b);
    }
  }

  lemma {:induction false} VisibleAll(s: string)
    ensures NUL !in s ==> Visible(s) == s
    ensures NUL !in Visible(s)
  {
    if s != [] {
      VisibleAll(s[1..]);
      assert s == [s[0]] + s[1..];
    }
  }

  lemma {:induction false} CStringOf(text: string, rest: string)
    requires NUL !in text
    ensures CString(text + [NUL] + rest) == text
  {
    if text != [] {
      assert (text + [NUL] + rest)[1..] == text[1..] + [NUL] + rest;
      CStringOf(text[1..], rest);
    }
  }

  lemma ScanStep(s: string, p: nat)
    requires p < |s|
    ensures Visible(s[p..]) == (if s[p] == NUL then [] else [s[p]]) + Visible(s[p + 1..])
  {
    assert s[p..][1..] == s[p + 1..];
  }

  /** Cuts trailing slashes off a path, in place. */
  method ChompSlashes(pathbuf: array<char>, inputLen: nat) returns (len: nat)
    requires inputLen <= pathbuf.Length
    modifies pathbuf
    ensures len <= inputLen
    ensures pathbuf[..len] == old(pathbuf[..len])
    ensures forall k :: len <= k < inputLen ==> old(pathbuf[k]) == SLASH && pathbuf[k] == NUL
    ensures len > 0 ==> pathbuf[len - 1] != SLASH
    ensures forall k :: inputLen <= k < pathbuf.Length ==> pathbuf[k] == old(pathbuf[k])
  {
    len := inputLen;
    while len > 0 && pathbuf[len - 1] == SLASH
      invariant 0 <= len <= inputLen
      invariant forall k :: 0 <= k < len || inputLen <= k < pathbuf.Length ==> pathbuf[k] == old(pathbuf[k])
      invariant forall k :: len <= k < inputLen ==> old(pathbuf[k]) == SLASH && pathbuf[k] == NUL
    {
      pathbuf[len - 1] := NUL;
      len := len - 1;
    }
  }

  method Fill(buf: array<char>, len: nat)
    requires len <= buf.Length
    modifies buf
    ensures forall k :: 0 <= k < len ==> buf[k] == NUL
    ensures forall k :: len <= k < buf.Length ==> buf[k] == old(buf[k])
  {
    var i := 0;
    while i < len
      invariant 0 <= i <= len
      invariant forall k :: 0 <= k < i ==> buf[k] == NUL
      invariant forall k :: i <= k < buf.Length ==> buf[k] == old(buf[k])
    {
      buf[i] := NUL;
      i := i + 1;
    }
  }

  /** The buffer ends with the text c and a NUL, which start at pos. */
  ghost predicate EndsWith(name: string, pos: int, c: string) {
    && 0 <= pos && |name| == pos + |c| + 1 && name[|name| - 1] == NUL
    && forall i :: 0 <= i < |c| ==> name[pos + i] == c[i]
  }

  /** The name buffer ends with what was collected of s so far. */
  ghost predicate Holds(name: string, s: string, p: int, comp: int)
    requires -1 <= p < |s|
  {
    EndsWith(name, comp + 1, Visible(s[p + 1..]))
  }

  lemma HoldsSkip(name: string, s: string, p: nat, comp: int)
    requires p < |s| && s[p] == NUL && Holds(name, s, p, comp)
    ensures Holds(name, s, p - 1, comp)
  {
    ScanStep(s, p);
  }

  lemma HoldsStore(name: string, s: string, p: nat, comp: nat)
    requires p < |s| && s[p] != NUL && Holds(name, s, p, comp)
    ensures comp < |name| && Holds(name[comp := s[p]], s, p - 1, comp - 1)
  {
    ScanStep(s, p);
  }

  lemma StoppedAtSlash(s: string, p: int)
    requires -1 <= p < |s| && LastSlash(s) <= p && (p >= 0 ==> s[p] == SLASH)
    ensures p == LastSlash(s)
  {
  }

  /** Copies the last component to the end of the name buffer, from its last
      character backward, passing over NUL characters. Ends at the last slash, or
      when the room is used up. */
  method CopyComponent(namebuf: array<char>, pathbuf: array<char>, inputLen: nat, ghost s: string)
    returns (fits: bool, p: int, comp: int)
    requires inputLen <= pathbuf.Length && namebuf != pathbuf && namebuf.Length > 2
    requires s == pathbuf[..inputLen]
    modifies namebuf
    ensures -1 <= p < inputLen
    ensures fits ==> p == LastSlash(s) && Holds(namebuf[..], s, p, comp)
    ensures !fits ==> |Visible(LastComponent(s))| >= namebuf.Length
  {
    p, comp := inputLen - 1, namebuf.Length - 2;
    Fill(namebuf, namebuf.Length);
    assert s[inputLen..] == [];
    while p >= 0 && pathbuf[p] != SLASH
      invariant -1 <= p < inputLen && LastSlash(s) <= p
      invariant Holds(namebuf[..], s, p, comp)
    {
      assert pathbuf[p] == s[p];
      if pathbuf[p] == NUL {
        HoldsSkip(namebuf[..], s, p, comp);
      } else {
        if comp < 0 {
          LongerStill(s, p);
          return false, p, comp;
        }
        HoldsStore(namebuf[..], s, p, comp);
        ghost var name := namebuf[..];
        namebuf[comp] := pathbuf[p];
        assert namebuf[..] == name[comp := s[p]];
        comp := comp - 1;
      }
      p := p - 1;
    }
    assert p >= 0 ==> pathbuf[p] == s[p];
    StoppedAtSlash(s, p);
    fits := true;
  }

  /** The characters at the end of the buffer tell "." and ".." from the rest. */
  lemma DotsAtEnd(name: string, comp: int, c: string)
    requires EndsWith(name, comp + 1, c) && |name| > 2
    ensures IsDots(c) <==>
      || (|c| == 1 && name[|name| - 2] == '.')
      || (|c| == 2 && name[|name| - 2] == '.' && name[|name| - 3] == '.')
  {
  }

  /** Finds the last component and whether it may be split off. */
  method FindComponent(namebuf: array<char>, pathbuf: array<char>, inputLen: nat, ghost s: string)
    returns (r: Outcome, p: int)
    requires 0 < inputLen <= pathbuf.Length && namebuf != pathbuf && namebuf.Length > 2
    requires s == pathbuf[..inputLen]
    modifies namebuf
    ensures r == OutcomeOf(s, namebuf.Length)
    ensures r.At? ==> p == LastSlash(s) && Named(namebuf[..], s, r.pos)
  {
    var fits, comp;
    fits, p, comp := CopyComponent(namebuf, pathbuf, inputLen, s);
    if !fits {
      return TooLong, p;
    }
    assert s[p + 1..] == LastComponent(s);
    var dots := IsDotEntry(namebuf, comp, s, p);
    r := if dots then Absent else At(comp + 1);
  }

  method IsDotEntry(namebuf: array<char>, comp: int, ghost s: string, ghost p: int) returns (dots: bool)
    requires -1 <= p < |s| && namebuf.Length > 2 && Holds(namebuf[..], s, p, comp)
    ensures dots <==> IsDots(Visible(s[p + 1..]))
  {
    var nameEnd := namebuf.Length - 2;
    var componentLen := nameEnd - comp;
    DotsAtEnd(namebuf[..], comp, Visible(s[p + 1..]));
    if componentLen == 1 && namebuf[nameEnd] == '.' {
      return true;
    } else if componentLen == 2 && namebuf[nameEnd] == '.' && namebuf[nameEnd - 1] == '.' {
      return true;
    }
    dots := false;
  }

  /** What is left in the path buffer: the part before the slash, or nothing. */
  ghost predicate IsCut(path: string, after: string, inputLen: nat, slash: int)
    requires -1 <= slash < inputLen <= |path|
  {
    if slash >= 0 then after == path[slash := NUL]
    else
      && |after| == |path| && after[inputLen..] == path[inputLen..]
      && forall k :: 0 <= k < inputLen ==> after[k] == NUL
  }

  method CutComponent(namebuf: array<char>, pathbuf: array<char>, inputLen: nat, p: int,
                      ghost pos: nat, ghost c: string)
    requires -1 <= p < inputLen <= pathbuf.Length && namebuf != pathbuf && EndsWith(namebuf[..], pos, c)
    modifies pathbuf
    ensures EndsWith(namebuf[..], pos, c)
    ensures IsCut(old(pathbuf[..]), pathbuf[..], inputLen, p)
  {
    ghost var name := namebuf[..];
    if p < 0 {
      Fill(pathbuf, inputLen);
    } else {
      pathbuf[p] := NUL;
    }
    assert namebuf[..] == name;
  }

  /** The outcome of splitting the first inputLen characters of a path, and what is
      then in the buffers. Without a component to split off the path is untouched. */
  ghost predicate IsSplit(r: Outcome, path: string, inputLen: nat, after: string, name: string)
    requires inputLen <= |path|
  {
    var s := path[..inputLen];
    && r == (if inputLen == 0 || |name| <= 2 then Absent else OutcomeOf(s, |name|))
    && if r.At? then Named(name, s, r.pos) && IsCut(path, after, inputLen, LastSlash(s)) else after == path
  }

  ghost predicate Named(name: string, s: string, pos: nat) {
    EndsWith(name, pos, Visible(LastComponent(s)))
  }

  /** Splits off the last component, for every input. */
  method ParseLastComponent(namebuf: array<char>, pathbuf: array<char>, inputLen: nat) returns (r: Outcome)
    requires inputLen <= pathbuf.Length && namebuf != pathbuf
    modifies namebuf, pathbuf
    ensures IsSplit(r, old(pathbuf[..]), inputLen, pathbuf[..], namebuf[..])
  {
    ghost var path := pathbuf[..];
    if inputLen == 0 || namebuf.Length <= 2 {
      return Absent;
    }
    assert path[..inputLen] == pathbuf[..inputLen];
    var p;
    r, p := FindComponent(namebuf, pathbuf, inputLen, path[..inputLen]);
    assert pathbuf[..] == path;
    if r.At? {
      CutComponent(namebuf, pathbuf, inputLen, p, r.pos, Visible(LastComponent(path[..inputLen])));
    }
  }

  /** Once the component is longer than the room it stays so. */
  lemma LongerStill(s: string, p: nat)
    requires LastSlash(s) < p < |s| && s[p] != NUL
    ensures |Visible(LastComponent(s))| > |Visible(s[p + 1..])|
  {
    var k := LastSlash(s) + 1;
    assert s[k..] == s[k..p] + s[p..];
    VisibleAppend(s[k..p], s[p..]);
    ScanStep(s, p);
  }

  // ----- what a caller gets

  lemma CutParts(path: string, k: nat)
    requires k < |path|
    ensures path[k := NUL] == path[..k] + [NUL] + path[k + 1..]
    ensures path == path[..k] + [path[k]] + path[k + 1..]
  {
  }

  lemma PrefixFree(path: string, m: nat, k: nat)
    requires k <= m <= |path| && NUL !in path[..m]
    ensures NUL !in path[..k]
  {
    assert path[..k] == path[..m][..k];
  }

  lemma CutDirectory(path: string, after: string, inputLen: nat, k: int)
    requires -1 <= k < inputLen <= |path| && 0 < inputLen && NUL !in path[..inputLen]
    requires IsCut(path, after, inputLen, k)
    ensures CString(after) == if k >= 0 then path[..k] else []
  {
    if k >= 0 {
      CutParts(path, k);
      PrefixFree(path, inputLen, k);
      CStringOf(path[..k], path[k + 1..]);
    } else {
      assert after[0] == NUL;
    }
  }

  lemma ComponentHasNoSlash(s: string)
    ensures SLASH !in LastComponent(s)
    ensures LastComponent(s) == [] <==> s == [] || s[|s| - 1] == SLASH
  {
    var last := LastComponent(s);
    forall j | 0 <= j < |last| ensures last[j] != SLASH {
      assert last[j] == s[LastSlash(s) + 1 + j];
    }
  }

  lemma PlainComponent(s: string)
    requires NUL !in s
    ensures Visible(LastComponent(s)) == LastComponent(s)
  {
    var last := LastComponent(s);
    assert forall x :: x in last ==> x in s;
    VisibleAll(last);
  }

  /** For a path without NUL characters, cut off at its trailing slashes: the
      directory left in the buffer and the component put together again are the
      path, and the component has no slash. */
  lemma SplitRoundTrip(path: string, after: string, len: nat)
    requires 0 < len <= |path| && NUL !in path[..len] && path[len - 1] != SLASH
    requires IsCut(path, after, len, LastSlash(path[..len]))
    ensures
      var s := path[..len];
      var c := Visible(LastComponent(s));
      && SLASH !in c && c != []
      && s == if LastSlash(s) >= 0 then CString(after) + [SLASH] + c else c
    ensures LastSlash(path[..len]) < 0 ==> CString(after) == []
  {
    var s := path[..len];
    var k := LastSlash(s);
    PlainComponent(s);
    ComponentHasNoSlash(s);
    CutDirectory(path, after, len, k);
    if k >= 0 {
      CutParts(s, k);
      assert s[..k] == path[..k];
    }
  }

  /** Such a path has no result exactly when its last component is a dot entry,
      and is refused exactly when the component does not fit. */
  lemma OutcomeExactly(s: string, room: nat)
    requires NUL !in s && room > 2
    ensures OutcomeOf(s, room) == TooLong <==> |LastComponent(s)| > room - 1
    ensures OutcomeOf(s, room) == Absent <==> LastComponent(s) == "." || LastComponent(s) == ".."
  {
    PlainComponent(s);
  }
}
