/**
 Command lines on their way out of the probe. An argument is read in pieces of
 at most 254 characters; at most 30 pieces are taken in all.
 */
module ExecArgs {
  import opened Common

  const MAXARG: nat := 30
  const MAX_ARG_CHUNK_SIZE: nat := 255
  const PIECE: nat := 254
  /** Room for 30 full pieces and the ellipsis with its NUL. */
  const BLOB_SIZE: nat := 7624
  const NUL: char := '\0'
  const ELLIPSIS: string := "..."

  function Concat(parts: seq<string>): string {
    if parts == [] then [] else Concat(parts[..|parts| - 1]) + parts[|parts| - 1]
  }

  lemma {:induction false} ConcatAppend(a: seq<string>, b: seq<string>)
    ensures Concat(a + b) == Concat(a) + Concat(b)
  {
    if b == [] {
      assert a + b == a;
    } else {
      var n := |b| - 1;
      assert (a + b)[..|a + b| - 1] == a + b[..n] && (a + b)[|a + b| - 1] == b[n];
      ConcatAppend(a, b[..n]);
      assert Concat(a + b) == Concat(a) + Concat(b[..n]) + b[n];
    }
  }

  lemma ConcatOne(p: string)
    ensures Concat([p]) == p
  {
    assert [p][..0] == [];
  }

  /** One argument cut into pieces: full ones, then a shorter last one, which may
      be empty. */
  function Pieces(arg: string): (ps: seq<string>)
    ensures |ps| == |arg| / PIECE + 1
    decreases |arg|
  {
    if |arg| < PIECE then [arg] else [arg[..PIECE]] + Pieces(arg[PIECE..])
  }

  lemma {:induction false} PiecesConcat(arg: string)
    ensures Concat(Pieces(arg)) == arg
    decreases |arg|
  {
    if |arg| < PIECE {
      ConcatOne(arg);
    } else {
      PiecesConcat(arg[PIECE..]);
      ConcatOne(arg[..PIECE]);
      ConcatAppend([arg[..PIECE]], Pieces(arg[PIECE..]));
    }
  }

  // ----- the argument blob

  /** The pieces of an argument as they go into the blob: the last one ends the
      argument with NUL. */
  function Chunks(arg: string): (cs: seq<string>)
    ensures |cs| == |arg| / PIECE + 1
    ensures forall c :: c in cs ==> |c| <= PIECE
    decreases |arg|
  {
    if |arg| < PIECE then [arg + [NUL]] else [arg[..PIECE]] + Chunks(arg[PIECE..])
  }

  function AllChunks(argv: seq<string>): (cs: seq<string>)
    ensures |cs| == ChunkCount(argv)
  {
    if argv == [] then [] else Chunks(argv[0]) + AllChunks(argv[1..])
  }

  function ChunkCount(argv: seq<string>): nat {
    if argv == [] then 0 else |argv[0]| / PIECE + 1 + ChunkCount(argv[1..])
  }

  /** Every argument followed by NUL. */
  function Flat(argv: seq<string>): string {
    if argv == [] then [] else argv[0] + [NUL] + Flat(argv[1..])
  }

  function Blob(argv: seq<string>): string {
    var cs := AllChunks(argv);
    if |cs| <= MAXARG then Concat(cs) else Concat(cs[..MAXARG]) + ELLIPSIS + [NUL]
  }

  lemma {:induction false} ChunksConcat(arg: string)
    ensures Concat(Chunks(arg)) == arg + [NUL]
    decreases |arg|
  {
    if |arg| < PIECE {
      ConcatOne(arg + [NUL]);
    } else {
      ChunksConcat(arg[PIECE..]);
      ConcatOne(arg[..PIECE]);
      ConcatAppend([arg[..PIECE]], Chunks(arg[PIECE..]));
      assert arg[..PIECE] + (arg[PIECE..] + [NUL]) == arg + [NUL];
    }
  }

  lemma {:induction false} AllChunksConcat(argv: seq<string>)
    ensures Concat(AllChunks(argv)) == Flat(argv)
    ensures forall c :: c in AllChunks(argv) ==> |c| <= PIECE
  {
    if argv != [] {
      ChunksConcat(argv[0]);
      AllChunksConcat(argv[1..]);
      ConcatAppend(Chunks(argv[0]), AllChunks(argv[1..]));
    }
  }

  lemma {:induction false} ConcatBound(parts: seq<string>)
    requires forall c :: c in parts ==> |c| <= PIECE
    ensures |Concat(parts)| <= 254 * |parts|
  {
    if parts != [] {
      ConcatBound(parts[..|parts| - 1]);
      assert parts[|parts| - 1] in parts;
    }
  }

  /** The blob is all the arguments when they take at most 30 pieces; otherwise it
      is a proper beginning of them, 30 pieces long, and an ellipsis. */
  lemma BlobContents(argv: seq<string>)
    ensures ChunkCount(argv) <= MAXARG ==> Blob(argv) == Flat(argv)
    ensures ChunkCount(argv) > MAXARG ==>
      var head := Concat(AllChunks(argv)[..MAXARG]);
      Blob(argv) == head + ELLIPSIS + [NUL] && head <= Flat(argv)
    ensures |Blob(argv)| <= BLOB_SIZE
  {
    AllChunksConcat(argv);
    var cs := AllChunks(argv);
    if |cs| > MAXARG {
      ConcatAppend(cs[..MAXARG], cs[MAXARG..]);
      assert cs[..MAXARG] + cs[MAXARG..] == cs;
      ConcatBound(cs[..MAXARG]);
    } else {
      ConcatBound(cs);
    }
  }

  /** Cutting the blob at every NUL. */
  function SplitNul(blob: string): seq<string>
    decreases |blob|
  {
    if blob == [] then []
    else
      var end := NextNul(blob);
      if end == |blob| then [blob] else [blob[..end]] + SplitNul(blob[end + 1..])
  }

  function NextNul(blob: string): (i: nat)
    ensures i <= |blob|
    ensures i < |blob| ==> blob[i] == NUL
    ensures NUL !in blob[..i]
  {
    if blob == [] || blob[0] == NUL then 0
    else
      assert blob[..1 + NextNul(blob[1..])] == [blob[0]] + blob[1..][..NextNul(blob[1..])];
      1 + NextNul(blob[1..])
  }

  lemma NextNulAfter(a: string, rest: string)
    requires NUL !in a
    ensures NextNul(a + [NUL] + rest) == |a|
    ensures (a + [NUL] + rest)[..|a|] == a
    ensures (a + [NUL] + rest)[|a| + 1..] == rest
  {
    var s := a + [NUL] + rest;
    assert s[..|a|] == a && s[|a|] == NUL;
  }

  lemma {:induction false} SplitFlat(argv: seq<string>)
    requires forall a :: a in argv ==> NUL !in a
    ensures SplitNul(Flat(argv)) == argv
    decreases |argv|
  {
    if argv != [] {
      assert argv[0] in argv;
      NextNulAfter(argv[0], Flat(argv[1..]));
      SplitFlat(argv[1..]);
    }
  }

  /** With at most 30 pieces the command line can be read back from the blob. */
  lemma BlobRoundTrip(argv: seq<string>)
    requires ChunkCount(argv) <= MAXARG && forall a :: a in argv ==> NUL !in a
    ensures SplitNul(Blob(argv)) == argv
  {
    BlobContents(argv);
    SplitFlat(argv);
  }

  // ----- the loop that fills the blob

  /** bpf_probe_read_str: copies at most size-1 characters and ends them with NUL;
      returns how many characters were written, the NUL included. */
  method ReadStr(blob: array<char>, pos: nat, size: nat, src: string) returns (len: nat)
    requires size > 0 && pos + size <= blob.Length
    modifies blob
    ensures len == (if |src| < size then |src| else size - 1) + 1
    ensures blob[..pos] == old(blob[..pos])
    ensures blob[pos..pos + len] == src[..len - 1] + [NUL]
  {
    len := 0;
    while len < size - 1 && len < |src|
      invariant 0 <= len <= size - 1 && len <= |src|
      invariant blob[..pos] == old(blob[..pos])
      invariant blob[pos..pos + len] == src[..len]
    {
      blob[pos + len] := src[len];
      assert blob[pos..pos + len + 1] == blob[pos..pos + len] + [src[len]];
      len := len + 1;
    }
    blob[pos + len] := NUL;
    len := len + 1;
  }

  /** The next piece of an argument goes into the blob; a full one leaves the
      argument unfinished. */
  method ReadChunk(blob: array<char>, pos: nat, argp: string) returns (full: bool, len: nat)
    requires pos + MAX_ARG_CHUNK_SIZE <= blob.Length
    modifies blob
    ensures full <==> |argp| >= PIECE
    ensures len <= PIECE && blob[..pos + len] == old(blob[..pos]) + FirstChunk(argp)
  {
    len := ReadStr(blob, pos, MAX_ARG_CHUNK_SIZE, argp);
    assert blob[..pos + len] == old(blob[..pos]) + (argp[..len - 1] + [NUL]);
    full := len == MAX_ARG_CHUNK_SIZE;
    if full {
      len := len - 1;
      assert blob[..pos + len] == blob[..pos + len + 1][..pos + len];
    } else {
      assert argp[..len - 1] == argp;
    }
  }

  function FirstChunk(argp: string): string {
    if |argp| < PIECE then argp + [NUL] else argp[..PIECE]
  }

  /** The arguments still to be read, after one more piece of the first. */
  ghost function Advance(todo: seq<string>): seq<string>
    requires todo != []
  {
    if |todo[0]| >= PIECE then [todo[0][PIECE..]] + todo[1..] else todo[1..]
  }

  lemma AllChunksStep(todo: seq<string>)
    requires todo != []
    ensures AllChunks(todo) == [FirstChunk(todo[0])] + AllChunks(Advance(todo))
  {
    if |todo[0]| >= PIECE {
      var rest := Advance(todo);
      assert rest[0] == todo[0][PIECE..] && rest[1..] == todo[1..];
      Regroup([todo[0][..PIECE]], Chunks(rest[0]), AllChunks(rest[1..]));
    }
  }

  lemma ChunkTaken(all: seq<string>, done: seq<string>, todo: seq<string>)
    requires todo != [] && all == done + AllChunks(todo)
    ensures all == done + [FirstChunk(todo[0])] + AllChunks(Advance(todo))
    ensures Concat(done + [FirstChunk(todo[0])]) == Concat(done) + FirstChunk(todo[0])
  {
    var chunk := FirstChunk(todo[0]);
    AllChunksStep(todo);
    Regroup(done, [chunk], AllChunks(Advance(todo)));
    ConcatAppend(done, [chunk]);
    ConcatOne(chunk);
  }

  /** One turn of the loop: a piece is read, and the cursor moves on in the
      argument, to the next argument, or off the end. */
  method TakeChunk(argv: seq<string>, blob: array<char>, pos: nat, argp: string, index: nat,
                   ghost done: seq<string>, ghost todo: seq<string>)
    returns (ended: bool, pos': nat, argp': string, index': nat, ghost done': seq<string>, ghost todo': seq<string>)
    requires pos + MAX_ARG_CHUNK_SIZE <= blob.Length && index <= |argv|
    requires todo == [argp] + argv[index..] && blob[..pos] == Concat(done)
    modifies blob
    ensures pos <= pos' <= pos + PIECE && index <= index' <= |argv|
    ensures blob[..pos'] == Concat(done') && |done'| == |done| + 1
    ensures done' + AllChunks(todo') == done + AllChunks(todo)
    ensures if ended then todo' == [] else todo' == [argp'] + argv[index'..]
  {
    ghost var all := done + AllChunks(todo);
    ChunkTaken(all, done, todo);
    var full, len := ReadChunk(blob, pos, argp);
    done', todo' := done + [FirstChunk(argp)], Advance(todo);
    pos', argp', index', ended := pos + len, argp, index, false;
    if full {
      argp' := argp[PIECE..];
    } else if index == |argv| {
      ended := true;
    } else {
      argp', index' := argv[index], index + 1;
    }
  }

  lemma BlobWhole(argv: seq<string>, done: seq<string>)
    requires AllChunks(argv) == done + [] && |done| <= MAXARG
    ensures Blob(argv) == Concat(done)
  {
    assert done + [] == done;
  }

  lemma BlobCut(argv: seq<string>, done: seq<string>, todo: seq<string>)
    requires AllChunks(argv) == done + AllChunks(todo) && |done| == MAXARG && todo != []
    ensures Blob(argv) == Concat(done) + ELLIPSIS + [NUL]
  {
    AllChunksStep(todo);
    assert AllChunks(argv)[..MAXARG] == done;
  }

  /** Reads argument strings into the blob, following a long argument piece by
      piece. */
  method BlobifyStrArray(argv: seq<string>, blob: array<char>) returns (total: nat)
    requires blob.Length >= BLOB_SIZE
    modifies blob
    ensures total <= blob.Length && blob[..total] == Blob(argv)
  {
    total := 0;
    if argv == [] {
      return 0;
    }
    var argp, index := argv[0], 1;
    ghost var done, todo := [], argv;
    var i := 0;
    while i < MAXARG
      invariant 0 <= i <= MAXARG && index <= |argv| && |done| == i
      invariant todo == [argp] + argv[index..]
      invariant AllChunks(argv) == done + AllChunks(todo)
      invariant total <= 254 * i && blob[..total] == Concat(done)
    {
      var ended;
      ended, total, argp, index, done, todo := TakeChunk(argv, blob, total, argp, index, done, todo);
      if ended {
        BlobWhole(argv, done);
        return;
      }
      i := i + 1;
    }
    BlobCut(argv, done, todo);
    total := WriteEllipsis(blob, total);
  }

  method WriteEllipsis(blob: array<char>, pos: nat) returns (end: nat)
    requires pos + 4 <= blob.Length
    modifies blob
    ensures end == pos + 4 && blob[..end] == old(blob[..pos]) + ELLIPSIS + [NUL]
  {
    ghost var head := blob[..pos];
    blob[pos], blob[pos + 1], blob[pos + 2], blob[pos + 3] := '.', '.', '.', NUL;
    end := pos + 4;
    assert blob[..pos] == head;
    assert blob[..end] == head + [blob[pos], blob[pos + 1], blob[pos + 2], blob[pos + 3]];
    assert ELLIPSIS + [NUL] == ['.', '.', '.', NUL];
    Regroup(head, ELLIPSIS, [NUL]);
  }
}
