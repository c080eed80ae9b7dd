/**
 Command lines sent piece by piece: an ENTRY message starts an argument, APPEND
 messages carry on with it, a FINAL message ends the command line. The reader
 joins them again, for any number of tasks at once.
 */
module ExecMessages {
  import opened Common
  import opened ExecArgs

  /** Exec stands for the messages about the executed file, which share the
      reader's table. */
  datatype MsgState = Entry | Append | Final | Exec

  datatype Msg = Msg(state: MsgState, text: string)

  // ----- what is sent

  /** The pieces of an argument that is already under way. */
  function Rest(arg: string): seq<Msg>
    decreases |arg|
  {
    if |arg| < PIECE then [Msg(Append, arg)] else [Msg(Append, arg[..PIECE])] + Rest(arg[PIECE..])
  }

  /** An argument: its first piece starts it, the others carry on. */
  function ArgMsgs(arg: string): seq<Msg> {
    if |arg| < PIECE then [Msg(Entry, arg)] else [Msg(Entry, arg[..PIECE])] + Rest(arg[PIECE..])
  }

  function AllMsgs(argv: seq<string>): seq<Msg> {
    if argv == [] then [] else ArgMsgs(argv[0]) + AllMsgs(argv[1..])
  }

  /** The whole transmission. The loop needs a turn to see the end of the list, so
      30 pieces are already too many; the ellipsis goes out in the state of the
      message before it. */
  function Sent(argv: seq<string>): seq<Msg> {
    var all := AllMsgs(argv);
    if |all| < MAXARG then all + [Msg(Final, [])]
    else all[..MAXARG] + [Msg(all[MAXARG - 1].state, ELLIPSIS), Msg(Final, [])]
  }

  lemma {:induction false} RestCount(arg: string)
    ensures |Rest(arg)| == |arg| / PIECE + 1
    ensures forall m :: m in Rest(arg) ==> m.state == Append
    decreases |arg|
  {
    if |arg| >= PIECE {
      RestCount(arg[PIECE..]);
    }
  }

  lemma {:induction false} AllMsgsCount(argv: seq<string>)
    ensures |AllMsgs(argv)| == ChunkCount(argv)
    ensures forall m :: m in AllMsgs(argv) ==> m.state == Entry || m.state == Append
    ensures argv != [] ==> AllMsgs(argv) != [] && AllMsgs(argv)[0].state == Entry
  {
    if argv != [] {
      if |argv[0]| >= PIECE {
        RestCount(argv[0][PIECE..]);
      }
      AllMsgsCount(argv[1..]);
    }
  }

  function FirstPiece(argp: string): string {
    if |argp| < PIECE then argp else argp[..PIECE]
  }

  /** What remains to be sent; the first argument may be under way. */
  ghost function Remaining(todo: seq<string>, appending: bool): seq<Msg> {
    if todo == [] then []
    else (if appending then Rest(todo[0]) else ArgMsgs(todo[0])) + AllMsgs(todo[1..])
  }

  lemma RemainingNew(todo: seq<string>)
    ensures Remaining(todo, false) == AllMsgs(todo)
  {
  }

  lemma RemainingStep(todo: seq<string>, appending: bool)
    requires todo != []
    ensures Remaining(todo, appending) ==
      [Msg(if appending then Append else Entry, FirstPiece(todo[0]))] + Remaining(Advance(todo), |todo[0]| >= PIECE)
  {
    var rest := Advance(todo);
    if |todo[0]| >= PIECE {
      assert rest[0] == todo[0][PIECE..] && rest[1..] == todo[1..];
      Regroup([Msg(if appending then Append else Entry, FirstPiece(todo[0]))], Rest(rest[0]), AllMsgs(rest[1..]));
    } else {
      RemainingNew(rest);
    }
  }

  lemma PieceTaken(all: seq<Msg>, done: seq<Msg>, todo: seq<string>, appending: bool)
    requires todo != [] && all == done + Remaining(todo, appending)
    ensures
      var m := Msg(if appending then Append else Entry, FirstPiece(todo[0]));
      all == done + [m] + Remaining(Advance(todo), |todo[0]| >= PIECE)
  {
    RemainingStep(todo, appending);
    var m := Msg(if appending then Append else Entry, FirstPiece(todo[0]));
    Regroup(done, [m], Remaining(Advance(todo), |todo[0]| >= PIECE));
  }

  /** The argument at hand is the first of what is to come. */
  lemma NextArgument(argv: seq<string>, index: nat, argp: string, todo: seq<string>, appending: bool, next: string)
    requires index <= |argv|
    requires if appending then argp == next && todo == [next] + argv[index..]
             else index > 0 && argp == argv[index - 1] && todo == [] + argv[index - 1..]
    ensures todo == [argp] + argv[index..] && todo != [] && todo[0] == argp && todo[1..] == argv[index..]
  {
  }

  lemma AdvancedTo(todo: seq<string>, argp: string, rest: seq<string>)
    requires todo == [argp] + rest
    ensures todo != [] && Advance(todo) == (if |argp| >= PIECE then [argp[PIECE..]] else []) + rest
  {
    assert todo[1..] == rest;
  }

  /** submit_all_args, where a full buffer means that the argument goes on. */
  method SubmitAllArgs(argv: seq<string>) returns (msgs: seq<Msg>)
    ensures msgs == Sent(argv)
  {
    msgs := [];
    var state := Entry;
    var next := "";
    var appending, index := false, 0;
    ghost var all, todo := AllMsgs(argv), argv;
    RemainingNew(argv);
    var i := 0;
    while i < MAXARG
      invariant 0 <= i <= MAXARG && index <= |argv| && |msgs| == i
      invariant todo == (if appending then [next] else []) + argv[index..]
      invariant all == msgs + Remaining(todo, appending)
      invariant i > 0 ==> state == msgs[i - 1].state
    {
      var argp;
      ghost var continuing := appending;
      if appending {
        state, argp := Append, next;
      } else {
        state := Entry;
        if index == |argv| {
          assert all == msgs;
          msgs := msgs + [Msg(Final, [])];
          return;
        }
        argp := argv[index];
        index := index + 1;
      }
      NextArgument(argv, index, argp, todo, continuing, next);
      PieceTaken(all, msgs, todo, continuing);
      AdvancedTo(todo, argp, argv[index..]);
      msgs, todo := msgs + [Msg(state, FirstPiece(argp))], Advance(todo);
      appending := |argp| >= PIECE;
      if appending {
        next := argp[PIECE..];
      }
      i := i + 1;
    }
    assert all[..MAXARG] == msgs;
    msgs := msgs + [Msg(state, ELLIPSIS), Msg(Final, [])];
  }

  // ----- what the reader makes of it

  /** The text collected for a task, or nothing yet. */
  type Collected = Option<string>

  /** The reader's reaction to one message of a task. The first message of a task
      opens its record, whatever its state. */
  function React(c: Collected, m: Msg): (r: (Collected, Option<string>)) {
    match c
    case None => (Some(m.text), None)
    case Some(text) =>
      match m.state
      case Final => (None, Some(text))
      case Entry => (Some(text + " " + m.text), None)
      case Append => (Some(text + m.text), None)
      case Exec => (Some(text), None)
  }

  function After(c: Collected, msgs: seq<Msg>): Collected {
    if msgs == [] then c else React(After(c, msgs[..|msgs| - 1]), msgs[|msgs| - 1]).0
  }

  /** The command lines reported while these messages come in. */
  function Reported(c: Collected, msgs: seq<Msg>): seq<string> {
    if msgs == [] then []
    else
      var n := |msgs| - 1;
      var out := React(After(c, msgs[..n]), msgs[n]).1;
      Reported(c, msgs[..n]) + if out.Some? then [out.value] else []
  }

  lemma {:induction false} AfterConcat(c: Collected, a: seq<Msg>, b: seq<Msg>)
    ensures After(c, a + b) == After(After(c, a), b)
    ensures Reported(c, a + b) == Reported(c, a) + Reported(After(c, a), b)
    decreases |b|
  {
    if b == [] {
      assert a + b == a;
    } else {
      var n := |b| - 1;
      assert (a + b)[..|a + b| - 1] == a + b[..n] && (a + b)[|a + b| - 1] == b[n];
      AfterConcat(c, a, b[..n]);
    }
  }

  /** Arguments joined by single spaces. */
  function Spaced(argv: seq<string>): string {
    if |argv| == 0 then [] else if |argv| == 1 then argv[0] else argv[0] + " " + Spaced(argv[1..])
  }

  /** Each argument after the first is preceded by a space. */
  function Tail(argv: seq<string>): string {
    if argv == [] then [] else " " + argv[0] + Tail(argv[1..])
  }

  lemma {:induction false} SpacedTail(argv: seq<string>)
    requires argv != []
    ensures Spaced(argv) == argv[0] + Tail(argv[1..])
  {
    if |argv| > 1 {
      SpacedTail(argv[1..]);
      assert argv[0] + " " + (argv[1..][0] + Tail(argv[1..][1..])) == argv[0] + Tail(argv[1..]);
    } else {
      assert Tail(argv[1..]) == [];
    }
  }

  lemma AfterOne(c: Collected, m: Msg)
    ensures After(c, [m]) == React(c, m).0
    ensures Reported(c, [m]) == if React(c, m).1.Some? then [React(c, m).1.value] else []
  {
    assert [m][..0] == [];
  }

  lemma CutAndJoined(text: string, arg: string)
    requires |arg| >= PIECE
    ensures text + arg[..PIECE] + arg[PIECE..] == text + arg
  {
    assert arg == arg[..PIECE] + arg[PIECE..];
  }

  lemma {:induction false} RestCollected(text: string, arg: string)
    ensures After(Some(text), Rest(arg)) == Some(text + arg)
    ensures Reported(Some(text), Rest(arg)) == []
    decreases |arg|
  {
    if |arg| < PIECE {
      AfterOne(Some(text), Msg(Append, arg));
    } else {
      var m := Msg(Append, arg[..PIECE]);
      AfterOne(Some(text), m);
      RestCollected(text + arg[..PIECE], arg[PIECE..]);
      AfterConcat(Some(text), [m], Rest(arg[PIECE..]));
      CutAndJoined(text, arg);
    }
  }

  /** The messages of one argument add it to the text; opening a record with them
      makes it the text. */
  lemma ArgCollected(c: Collected, arg: string)
    ensures After(c, ArgMsgs(arg)) == Some(Opened(c, arg))
    ensures Reported(c, ArgMsgs(arg)) == []
  {
    if |arg| < PIECE {
      AfterOne(c, Msg(Entry, arg));
    } else {
      var m, tail := Msg(Entry, arg[..PIECE]), arg[PIECE..];
      AfterOne(c, m);
      RestCollected(Opened(c, arg[..PIECE]), tail);
      AfterConcat(c, [m], Rest(tail));
      OpenedAppend(c, arg[..PIECE], tail);
      assert arg[..PIECE] + tail == arg;
    }
  }

  /** The text when an argument comes to a record. */
  function Opened(c: Collected, arg: string): string {
    if c.None? then arg else c.value + " " + arg
  }

  lemma OpenedAppend(c: Collected, a: string, b: string)
    ensures Opened(c, a) + b == Opened(c, a + b)
  {
  }

  lemma {:induction false} ArgsCollected(text: string, argv: seq<string>)
    ensures After(Some(text), AllMsgs(argv)) == Some(text + Tail(argv))
    ensures Reported(Some(text), AllMsgs(argv)) == []
    decreases |argv|
  {
    if argv == [] {
      assert text + Tail(argv) == text;
    } else {
      ArgCollected(Some(text), argv[0]);
      var next := text + " " + argv[0];
      ArgsCollected(next, argv[1..]);
      AfterConcat(Some(text), ArgMsgs(argv[0]), AllMsgs(argv[1..]));
      Regroup(text, " " + argv[0], Tail(argv[1..]));
      Regroup(text, " ", argv[0]);
    }
  }

  lemma CommandCollected(argv: seq<string>)
    requires argv != []
    ensures After(None, AllMsgs(argv)) == Some(Spaced(argv))
    ensures Reported(None, AllMsgs(argv)) == []
  {
    ArgCollected(None, argv[0]);
    ArgsCollected(argv[0], argv[1..]);
    AfterConcat(None, ArgMsgs(argv[0]), AllMsgs(argv[1..]));
    SpacedTail(argv);
  }

  /** Up to 29 pieces: the reader reports the arguments joined by single spaces,
      once, and is ready for the next command line. */
  lemma ShortCommandRoundTrip(argv: seq<string>)
    requires argv != [] && ChunkCount(argv) < MAXARG
    ensures Reported(None, Sent(argv)) == [Spaced(argv)]
    ensures After(None, Sent(argv)) == None
  {
    AllMsgsCount(argv);
    CommandCollected(argv);
    var final := Msg(Final, []);
    AfterConcat(None, AllMsgs(argv), [final]);
    AfterOne(Some(Spaced(argv)), final);
  }

  /** Whatever message opens the record of a task, its text stays in front of the command
      line that follows. So an empty argument vector, which is sent as a final message
      alone, is not reported, and puts a space in front of the task's next command. */
  lemma FirstMessageStaysInFront(m: Msg, argv: seq<string>)
    requires ChunkCount(argv) < MAXARG
    ensures Reported(None, [m] + Sent(argv)) == [m.text + Tail(argv)]
    ensures After(None, [m] + Sent(argv)) == None
  {
    AllMsgsCount(argv);
    AfterOne(None, m);
    AfterConcat(None, [m], Sent(argv));
    var final := Msg(Final, []);
    ArgsCollected(m.text, argv);
    AfterConcat(Some(m.text), AllMsgs(argv), [final]);
    AfterOne(Some(m.text + Tail(argv)), final);
  }

  lemma EmptyCommandIsNotReported()
    ensures Sent([]) == [Msg(Final, [])]
    ensures Reported(None, Sent([])) == [] && After(None, Sent([])) == Some([])
  {
    AfterOne(None, Msg(Final, []));
  }

  lemma {:induction false} NoFinalNoReport(c: Collected, msgs: seq<Msg>)
    requires forall m :: m in msgs ==> m.state != Final
    ensures Reported(c, msgs) == []
    ensures c.Some? || msgs != [] ==> After(c, msgs).Some?
  {
    if msgs != [] {
      var n := |msgs| - 1;
      NoFinalNoReport(c, msgs[..n]);
      assert msgs[n] in msgs;
    }
  }

  lemma HeadIsPrefix(argv: seq<string>)
    requires argv != [] && |AllMsgs(argv)| >= MAXARG
    ensures
      var head := AllMsgs(argv)[..MAXARG];
      After(None, head).Some? && After(None, head).value <= Spaced(argv) && Reported(None, head) == []
  {
    AllMsgsCount(argv);
    var all := AllMsgs(argv);
    var head := all[..MAXARG];
    NoFinalNoReport(None, head);
    CommandCollected(argv);
    AfterConcat(None, head, all[MAXARG..]);
    assert head + all[MAXARG..] == all;
    TextGrows(After(None, head).value, all[MAXARG..]);
  }

  /** The ellipsis and the final message close the record. */
  lemma EllipsisCollected(text: string, state: MsgState)
    requires state == Entry || state == Append
    ensures
      var tail := [Msg(state, ELLIPSIS), Msg(Final, [])];
      && Reported(Some(text), tail) == [text + (if state == Entry then " " else "") + ELLIPSIS]
      && After(Some(text), tail) == None
  {
    var dots, final := Msg(state, ELLIPSIS), Msg(Final, []);
    AfterOne(Some(text), dots);
    var more := React(Some(text), dots).0;
    assert text + "" == text;
    AfterOne(more, final);
    AfterConcat(Some(text), [dots], [final]);
    assert [dots] + [final] == [dots, final];
  }

  /** From 30 pieces on: the reader reports what the first 30 pieces come to, which
      is where the arguments joined by spaces begin, and an ellipsis. */
  lemma LongCommandTruncated(argv: seq<string>)
    requires ChunkCount(argv) >= MAXARG
    ensures |AllMsgs(argv)| >= MAXARG
    ensures
      var head := AllMsgs(argv)[..MAXARG];
      && After(None, head).Some?
      && After(None, head).value <= Spaced(argv)
      && Reported(None, Sent(argv)) ==
           [After(None, head).value + (if head[MAXARG - 1].state == Entry then " " else "") + ELLIPSIS]
      && After(None, Sent(argv)) == None
  {
    AllMsgsCount(argv);
    HeadIsPrefix(argv);
    var head := AllMsgs(argv)[..MAXARG];
    var last := head[MAXARG - 1].state;
    assert head[MAXARG - 1] in AllMsgs(argv);
    EllipsisCollected(After(None, head).value, last);
    AfterConcat(None, head, [Msg(last, ELLIPSIS), Msg(Final, [])]);
  }

  lemma {:induction false} TextGrows(text: string, msgs: seq<Msg>)
    requires forall m :: m in msgs ==> m.state != Final
    ensures After(Some(text), msgs).Some? && text <= After(Some(text), msgs).value
  {
    if msgs != [] {
      var n := |msgs| - 1;
      TextGrows(text, msgs[..n]);
      assert msgs[n] in msgs;
    }
  }

  // ----- messages about the executed file in between

  function ArgsOnly(msgs: seq<Msg>): seq<Msg> {
    if msgs == [] then []
    else ArgsOnly(msgs[..|msgs| - 1]) + if msgs[|msgs| - 1].state == Exec then [] else [msgs[|msgs| - 1]]
  }

  lemma {:induction false} ExecMessagesPass(text: string, msgs: seq<Msg>)
    requires forall m :: m in msgs ==> m.state != Final
    ensures After(Some(text), msgs) == After(Some(text), ArgsOnly(msgs)) && After(Some(text), msgs).Some?
    ensures Reported(Some(text), msgs) == [] && Reported(Some(text), ArgsOnly(msgs)) == []
  {
    if msgs != [] {
      var n := |msgs| - 1;
      ExecMessagesPass(text, msgs[..n]);
      assert msgs[n] in msgs;
      if msgs[n].state != Exec {
        OneMore(Some(text), ArgsOnly(msgs[..n]), msgs[n]);
      } else {
        assert ArgsOnly(msgs) == ArgsOnly(msgs[..n]);
      }
    }
  }

  /** Once an argument has opened the record, messages about the executed file do not
      touch the command line, wherever they come before it ends. */
  lemma ExecMessagesLeaveArguments(first: Msg, middle: seq<Msg>)
    requires first.state == Entry && forall m :: m in middle ==> m.state != Final
    ensures
      var mixed, plain := [first] + middle + [Msg(Final, [])], [first] + ArgsOnly(middle) + [Msg(Final, [])];
      Reported(None, mixed) == Reported(None, plain) && After(None, mixed) == After(None, plain) == None
  {
    AfterOne(None, first);
    AfterConcat(None, [first], middle);
    AfterConcat(None, [first], ArgsOnly(middle));
    ExecMessagesPass(first.text, middle);
    OneMore(None, [first] + middle, Msg(Final, []));
    OneMore(None, [first] + ArgsOnly(middle), Msg(Final, []));
  }

  // ----- many tasks at once

  class ExecReader {
    var table: map<nat, string>

    constructor ()
      ensures table == map[]
    {
      table := map[];
    }

    /** handle_exec_event: the task's record reacts, every other one is left alone. */
    method HandleExecEvent(tid: nat, m: Msg) returns (out: Option<string>)
      modifies this
      ensures out == React(RecordOf(old(table), tid), m).1
      ensures RecordOf(table, tid) == React(RecordOf(old(table), tid), m).0
      ensures forall t :: t != tid ==> RecordOf(table, t) == RecordOf(old(table), t)
    {
      out := None;
      if tid in table {
        match m.state {
          case Final =>
            out := Some(table[tid]);
            table := table - {tid};
          case Entry => table := table[tid := table[tid] + " " + m.text];
          case Append => table := table[tid := table[tid] + m.text];
          case Exec =>
        }
      } else {
        table := table[tid := m.text];
      }
    }

    /** A stream of messages of many tasks. Each task gets what its own messages
        alone would have given it, however they are interleaved. */
    method HandleAll(stream: seq<(nat, Msg)>) returns (reports: seq<(nat, string)>)
      modifies this
      ensures forall t: nat :: RecordOf(table, t) == After(RecordOf(old(table), t), OfTask(stream, t))
      ensures forall t: nat :: OfTask(reports, t) == Reported(RecordOf(old(table), t), OfTask(stream, t))
    {
      reports := [];
      var i := 0;
      while i < |stream|
        invariant 0 <= i <= |stream|
        invariant forall t: nat :: Followed(old(table), table, reports, stream[..i], t)
      {
        ghost var was, said := table, reports;
        var tid := stream[i].0;
        var out := HandleExecEvent(tid, stream[i].1);
        if out.Some? {
          reports := reports + [(tid, out.value)];
        }
        ghost var seen := stream[..i + 1];
        assert seen == stream[..i] + [stream[i]];
        forall t: nat ensures Followed(old(table), table, reports, seen, t) {
          assert Followed(old(table), was, said, stream[..i], t);
          FollowedStep(old(table), was, said, stream[..i], stream[i], table, out, t);
        }
        i := i + 1;
      }
      assert stream[..|stream|] == stream;
      forall t: nat
        ensures RecordOf(table, t) == After(RecordOf(old(table), t), OfTask(stream, t))
        ensures OfTask(reports, t) == Reported(RecordOf(old(table), t), OfTask(stream, t))
      {
        assert Followed(old(table), table, reports, stream, t);
      }
    }
  }

  function RecordOf(table: map<nat, string>, tid: nat): Collected {
    if tid in table then Some(table[tid]) else None
  }

  /** A task's record and reports are those its own messages give. */
  ghost predicate Followed(start: map<nat, string>, table: map<nat, string>, reports: seq<(nat, string)>,
                           stream: seq<(nat, Msg)>, t: nat)
  {
    && RecordOf(table, t) == After(RecordOf(start, t), OfTask(stream, t))
    && OfTask(reports, t) == Reported(RecordOf(start, t), OfTask(stream, t))
  }

  lemma FollowedStep(start: map<nat, string>, table: map<nat, string>, reports: seq<(nat, string)>,
                     stream: seq<(nat, Msg)>, item: (nat, Msg), table': map<nat, string>, out: Option<string>, t: nat)
    requires Followed(start, table, reports, stream, t)
    requires out == React(RecordOf(table, item.0), item.1).1
    requires RecordOf(table', t) == if t == item.0 then React(RecordOf(table, t), item.1).0 else RecordOf(table, t)
    ensures Followed(start, table', if out.Some? then reports + [(item.0, out.value)] else reports, stream + [item], t)
  {
    OfTaskSnoc(stream, item, t);
    if out.Some? {
      OfTaskSnoc(reports, (item.0, out.value), t);
    }
    if t == item.0 {
      OneMore(RecordOf(start, t), OfTask(stream, t), item.1);
    } else {
      assert OfTask(stream + [item], t) == OfTask(stream, t);
    }
  }

  lemma OneMore(c: Collected, msgs: seq<Msg>, m: Msg)
    ensures After(c, msgs + [m]) == React(After(c, msgs), m).0
    ensures Reported(c, msgs + [m]) ==
      Reported(c, msgs) + if React(After(c, msgs), m).1.Some? then [React(After(c, msgs), m).1.value] else []
  {
    assert (msgs + [m])[..|msgs|] == msgs;
  }

  lemma OfTaskSnoc<T>(stream: seq<(nat, T)>, item: (nat, T), tid: nat)
    ensures OfTask(stream + [item], tid) == OfTask(stream, tid) + if item.0 == tid then [item.1] else []
  {
    assert (stream + [item])[..|stream|] == stream;
  }

  /** The items of one task, in order. */
  function OfTask<T>(stream: seq<(nat, T)>, tid: nat): seq<T> {
    if stream == [] then []
    else
      var n := |stream| - 1;
      OfTask(stream[..n], tid) + if stream[n].0 == tid then [stream[n].1] else []
  }
}
