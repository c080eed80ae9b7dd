/**
 The stall table as an object, and the waiting loop of a stalled task.
 */
module StallTable {
  import opened Common
  import opened Dynsec
  import opened StallConfig
  import opened StallProtocol

  const STALL_BUCKETS: nat := 4096

  const RESPONSE_ALLOW: int := 0
  const RESPONSE_EPERM: int := 1
  const RESPONSE_CONTINUE: int := 0x10000

  datatype Rc = Success | NoEntry | Invalid | Range

  function AnswerOf(response: int): Option<Answer> {
    if response == RESPONSE_ALLOW then Some(Allow)
    else if response == RESPONSE_EPERM then Some(Deny)
    else if response == RESPONSE_CONTINUE then Some(Continue)
    else None
  }

  // ----- what an answer does to the inode cache

  /** clear: empty the whole cache first. Then the flags go to the update of the
      inode that the answered open was about. */
  datatype InodeEffect = InodeEffect(clear: bool, flags: bv32)

  function InodeEffectOf(answer: Answer, inodeFlags: bv32): InodeEffect {
    var f := match answer
      case Allow => inodeFlags
      case Deny => CACHE_DISABLE
      case Continue => 0;
    var clear := f & CACHE_CLEAR != 0;
    var g := f & !CACHE_CLEAR;
    InodeEffect(clear, if g != 0 && g & (CACHE_DISABLE | CACHE_ENABLE) == 0 then CACHE_DISABLE else g)
  }

  /** An answer enables the inode exactly when it allows and asks for it. */
  lemma EnablesExactly(answer: Answer, inodeFlags: bv32)
    ensures InodeEffectOf(answer, inodeFlags).flags & CACHE_ENABLE != 0 <==>
      answer == Allow && inodeFlags & CACHE_ENABLE != 0
    ensures InodeEffectOf(answer, inodeFlags).clear <==> answer == Allow && inodeFlags & CACHE_CLEAR != 0
  {
  }

  // ----- lists of entries

  function Locate(list: seq<Entry>, key: Key): (i: nat)
    ensures i <= |list|
    ensures i < |list| ==> list[i].key == key
    ensures forall j :: 0 <= j < i ==> list[j].key != key
  {
    if list == [] || list[0].key == key then 0 else 1 + Locate(list[1..], key)
  }

  function Lookup(list: seq<Entry>, key: Key): Option<Entry> {
    var i := Locate(list, key);
    if i < |list| then Some(list[i]) else None
  }

  ghost predicate Distinct(list: seq<Entry>) {
    forall i, j :: 0 <= i < j < |list| ==> list[i].key != list[j].key
  }

  lemma LocateAt(list: seq<Entry>, i: nat)
    requires i < |list| && Distinct(list)
    ensures Locate(list, list[i].key) == i
  {
    var j := Locate(list, list[i].key);
    assert j >= |list| || list[j].key == list[i].key;
  }

  /** Lists with the same keys in the same places are searched alike. */
  lemma LocateSameKeys(a: seq<Entry>, b: seq<Entry>, key: Key)
    requires |a| == |b| && forall i :: 0 <= i < |a| ==> a[i].key == b[i].key
    ensures Locate(a, key) == Locate(b, key)
  {
  }

  lemma LookupWithout(list: seq<Entry>, p: nat, key: Key)
    requires p < |list| && Distinct(list)
    ensures
      var rest := list[..p] + list[p + 1..];
      && Distinct(rest)
      && Lookup(rest, key) == if key == list[p].key then None else Lookup(list, key)
  {
    var rest := list[..p] + list[p + 1..];
    assert forall j :: 0 <= j < |rest| ==> rest[j] == list[if j < p then j else j + 1];
    var i := Locate(list, key);
    if i < |list| && i != p {
      var j := if i < p then i else i - 1;
      assert rest[j] == list[i];
      LocateAt(rest, j);
    }
  }

  class StallTable {
    const hash: Key -> nat
    var enabled: bool
    var bkts: seq<seq<Entry>>

    ghost predicate Valid()
      reads this
    {
      && |bkts| == STALL_BUCKETS
      && forall i :: 0 <= i < |bkts| ==> Distinct(bkts[i])
    }

    function Index(key: Key): (i: nat)
      ensures i < STALL_BUCKETS
    {
      hash(key) % STALL_BUCKETS
    }

    /** The entry a response with this key would reach. */
    ghost function Stalled(key: Key): Option<Entry>
      requires Valid()
      reads this
    {
      Lookup(bkts[Index(key)], key)
    }

    constructor (hash: Key -> nat)
      ensures Valid() && !enabled && this.hash == hash
      ensures forall k :: Stalled(k) == None
    {
      this.hash := hash;
      enabled := false;
      bkts := seq(STALL_BUCKETS, _ => []);
    }

    /** Enters a stalled event; its key is new, since request ids are. */
    method Insert(key: Key, inode: nat, config: Config) returns (rc: Rc)
      requires Valid() && Stalled(key) == None
      modifies this`bkts
      ensures Valid()
      ensures rc == (if enabled then Success else Invalid)
      ensures !enabled ==> bkts == old(bkts)
      ensures enabled ==>
        Stalled(key) == Some(Entry(key, Mode.Stalled, if config.deny then Deny else Allow, 0, inode))
      ensures forall k :: k != key ==> Stalled(k) == old(Stalled(k))
    {
      if !enabled {
        return Invalid;
      }
      var i := Index(key);
      var entry := Entry(key, Mode.Stalled, if config.deny then Deny else Allow, 0, inode);
      var list := bkts[i];
      forall k ensures Lookup([entry] + list, k) == if k == key then Some(entry) else Lookup(list, k) {
        assert ([entry] + list)[1..] == list;
      }
      forall j | 0 <= j < |list| ensures list[j].key != key {
        LocateAt(list, j);
      }
      bkts := bkts[i := [entry] + list];
      rc := Success;
    }

    /** Answers one stalled event. Returns the inode the event was about, 0 if
        there is nothing to update, and what to do to the inode cache. */
    method Resume(key: Key, response: int, inodeFlags: bv32, timeout: nat, config: Config)
      returns (rc: Rc, inode: nat, effect: InodeEffect)
      requires Valid()
      modifies this`bkts
      ensures Valid()
      ensures rc == (if !enabled then Invalid
                     else if key.eventType >= EVENT_TYPE_MAX then Range
                     else if response !in {0, 1, 0x10000} then Invalid
                     else if old(Stalled(key)) == None then NoEntry
                     else Success)
      ensures rc != Success ==> bkts == old(bkts) && inode == 0
      ensures rc == Success ==>
        var x, answer := old(Stalled(key)).value, AnswerOf(response).value;
        && Stalled(key) ==
             Some(x.(mode := Resumed, answer := answer, timeout := AnswerTimeout(config, answer, timeout)))
        && inode == x.inode
        && response == (match Stalled(key).value.answer case Allow => 0 case Deny => 1 case Continue => 0x10000)
        && Stalled(key).value.timeout ==
             (if response != 0x10000 then 0
              else if timeout == 0 then AtMost(config.continueTimeout, 1800000)
              else AtMost(timeout, 1800000))
      ensures rc in {Success, NoEntry} ==> effect == InodeEffectOf(AnswerOf(response).value, inodeFlags)
      ensures forall k :: k != key ==> Stalled(k) == old(Stalled(k))
    {
      inode, effect := 0, InodeEffect(false, 0);
      if !enabled {
        return Invalid, inode, effect;
      }
      if key.eventType >= EVENT_TYPE_MAX {
        return Range, inode, effect;
      }
      var answer: Answer;
      var override := timeout;
      if response == RESPONSE_ALLOW {
        answer, override := Allow, 0;
      } else if response == RESPONSE_EPERM {
        answer, override := Deny, 0;
      } else if response == RESPONSE_CONTINUE {
        answer := Continue;
        if override == 0 {
          override := config.continueTimeout;
        }
        if override > MAX_EXTENDED_TIMEOUT_MS {
          override := MAX_EXTENDED_TIMEOUT_MS;
        }
      } else {
        return Invalid, inode, effect;
      }
      var i := Index(key);
      var list := bkts[i];
      var p := Locate(list, key);
      effect := InodeEffectOf(answer, inodeFlags);
      if p == |list| {
        return NoEntry, 0, effect;
      }
      var entry := list[p].(mode := Resumed, answer := answer, timeout := override);
      forall k ensures Locate(list[p := entry], k) == Locate(list, k) {
        LocateSameKeys(list[p := entry], list, k);
      }
      bkts := bkts[i := list[p := entry]];
      inode := entry.inode;
      rc := Success;
    }

    /** A waiter that is done takes its entry out. */
    method RemoveEntry(key: Key) returns (rc: Rc)
      requires Valid() && Stalled(key) != None
      modifies this`bkts
      ensures Valid() && rc == Success
      ensures forall k :: Stalled(k) == if k == key then None else old(Stalled(k))
    {
      var i := Index(key);
      var list := bkts[i];
      var p := Locate(list, key);
      forall k ensures Lookup(list[..p] + list[p + 1..], k) == if k == key then None else Lookup(list, k) {
        LookupWithout(list, p, k);
      }
      LookupWithout(list, p, key);
      bkts := bkts[i := list[..p] + list[p + 1..]];
      rc := Success;
    }

    static function Released(x: Entry): Entry {
      x.(mode := Mode.Disabled, answer := Allow)
    }

    static function ReleasedOption(x: Option<Entry>): Option<Entry> {
      if x == None then None else Some(Released(x.value))
    }

    static function ReleasedAll(list: seq<Entry>): seq<Entry> {
      seq(|list|, j requires 0 <= j < |list| => Released(list[j]))
    }

    /** Disabling the table lets every stalled task go, bucket by bucket. */
    method Disable()
      requires Valid()
      modifies this
      ensures Valid() && !enabled
      ensures forall k :: Stalled(k) == ReleasedOption(old(Stalled(k)))
      ensures forall k :: old(Stalled(k)).Some? ==>
        Stalled(k) == Some(old(Stalled(k)).value.(mode := Mode.Disabled, answer := Allow))
    {
      enabled := false;
      var i := 0;
      while i < STALL_BUCKETS
        invariant 0 <= i <= STALL_BUCKETS && |bkts| == STALL_BUCKETS && !enabled
        invariant forall d :: 0 <= d < i ==> bkts[d] == ReleasedAll(old(bkts)[d])
        invariant forall d :: i <= d < STALL_BUCKETS ==> bkts[d] == old(bkts)[d]
      {
        bkts := bkts[i := ReleasedAll(bkts[i])];
        i := i + 1;
      }
      forall k ensures Lookup(ReleasedAll(old(bkts)[Index(k)]), k) == ReleasedOption(old(Stalled(k))) {
        var list := old(bkts)[Index(k)];
        LocateSameKeys(ReleasedAll(list), list, k);
      }
    }
  }

  // ----- the waiting loop

  /** How one wait ends. */
  datatype Wakeup = Interrupted | TimedOut | Answered(answer: Answer, timeout: nat)

  /** One turn of the retry loop: whether stalling is still on at its top, how the
      wait ends, and the continuation timeout configured then. */
  datatype Turn = Turn(stalling: bool, wakeup: Wakeup, continueTimeout: nat)

  datatype Outcome = Outcome(answer: Answer, removed: bool)

  /** The end of a stall: the first turn that is not a continuation decides, and
      so does the 256th continuation. With no more turns the wait times out. */
  function OutcomeOf(default: Answer, turns: seq<Turn>, count: nat): Outcome
    decreases |turns|
  {
    if turns == [] then Outcome(default, true)
    else if !turns[0].stalling then Outcome(Allow, false)
    else
      match turns[0].wakeup
      case Interrupted => Outcome(default, true)
      case TimedOut => Outcome(default, true)
      case Answered(answer, _) =>
        if answer == Continue && count + 1 < MAX_CONTINUE_RESPONSES
        then OutcomeOf(default, turns[1..], count + 1)
        else Outcome(answer, true)
  }

  predicate Continues(turn: Turn) {
    turn.stalling && turn.wakeup.Answered? && turn.wakeup.answer == Continue
  }

  /** How many turns in a row, from the first, are continuations. */
  function Continued(turns: seq<Turn>): (i: nat)
    ensures i <= |turns| && (i < |turns| ==> !Continues(turns[i]))
    ensures forall j :: 0 <= j < i ==> Continues(turns[j])
  {
    if turns == [] || !Continues(turns[0]) then 0 else 1 + Continued(turns[1..])
  }

  /** What the first turn that is not a continuation says: its answer, or the default
      when the wait ends without one. */
  predicate EndsDenied(default: Answer, turns: seq<Turn>) {
    var i := Continued(turns);
    if i < |turns| && turns[i].wakeup.Answered? then turns[i].wakeup.answer == Deny else default == Deny
  }

  /** The n-th wait: as long as the timeout at first, and then as long as the
      continuation before it asked for, or as is configured when it named no time. */
  function WaitLength(turns: seq<Turn>, stallTimeout: nat, n: nat): nat
    requires n <= |turns|
  {
    if n == 0 then stallTimeout
    else if turns[n - 1].wakeup.Answered? && turns[n - 1].wakeup.timeout != 0 then turns[n - 1].wakeup.timeout
    else turns[n - 1].continueTimeout
  }

  function WaitTotal(turns: seq<Turn>, stallTimeout: nat, n: nat): nat
    requires n <= |turns| + 1
  {
    if n == 0 then 0 else WaitTotal(turns, stallTimeout, n - 1) + WaitLength(turns, stallTimeout, n - 1)
  }

  predicate TurnBounded(turn: Turn) {
    && turn.continueTimeout <= MAX_EXTENDED_TIMEOUT_MS
    && (turn.wakeup.Answered? ==> turn.wakeup.timeout <= MAX_EXTENDED_TIMEOUT_MS)
  }

  predicate TimeoutsBounded(turns: seq<Turn>) {
    forall i :: 0 <= i < |turns| ==> TurnBounded(turns[i])
  }

  predicate Denies(turn: Turn) {
    turn.stalling && turn.wakeup.Answered? && turn.wakeup.answer == Deny
  }

  /** A denial comes from the default or from an answer that denies, and an
      unbroken series of continuations does not turn into one. */
  lemma {:induction false} DenialHasCause(default: Answer, turns: seq<Turn>, count: nat)
    requires OutcomeOf(default, turns, count).answer == Deny
    ensures default == Deny || exists i :: 0 <= i < |turns| && Denies(turns[i])
    decreases |turns|
  {
    if turns != [] && turns[0].stalling && turns[0].wakeup.Answered? && turns[0].wakeup.answer == Continue {
      DenialHasCause(default, turns[1..], count + 1);
      if default != Deny {
        var i :| 0 <= i < |turns[1..]| && Denies(turns[1..][i]);
        assert turns[i + 1] == turns[1..][i];
      }
    }
  }

  /** The end of a stall in closed form: 256 continuations end it without a denial, a
      turn with stalling off ends it without taking the entry out, and otherwise the
      first turn that is no continuation decides. */
  lemma {:induction false} OutcomeExactly(default: Answer, turns: seq<Turn>, count: nat)
    requires count < MAX_CONTINUE_RESPONSES
    ensures
      var r, i := OutcomeOf(default, turns, count), Continued(turns);
      if count + i >= 256 then r == Outcome(Continue, true)
      else if i < |turns| && !turns[i].stalling then r == Outcome(Allow, false)
      else r.removed && (r.answer == Deny <==> EndsDenied(default, turns))
    decreases |turns|
  {
    if turns != [] && Continues(turns[0]) && count + 1 < MAX_CONTINUE_RESPONSES {
      OutcomeExactly(default, turns[1..], count + 1);
      var i := Continued(turns);
      assert i < |turns| ==> turns[i] == turns[1..][i - 1];
    }
  }

  /** stallTimeout is the timeout configured when the task starts to wait. */
  method DoStallInterruptible(default: Answer, turns: seq<Turn>, stallTimeout: nat)
    returns (denied: bool, removed: bool, waits: nat, requested: nat)
    requires stallTimeout <= MAX_WAIT_TIMEOUT_MS && TimeoutsBounded(turns)
    ensures OutcomeOf(default, turns, 0).removed == removed
    ensures denied <==> OutcomeOf(default, turns, 0).answer == Deny
    ensures
      var i := Continued(turns);
      if i >= 256 then !denied && removed && waits == 256
      else if i < |turns| && !turns[i].stalling then !denied && !removed && waits == i
      else (denied <==> EndsDenied(default, turns)) && removed && waits == i + 1
    ensures waits <= |turns| + 1 && requested == WaitTotal(turns, stallTimeout, waits)
    ensures waits <= MAX_CONTINUE_RESPONSES
    ensures requested <= WaitBudget(waits)
  {
    var timeout: nat := stallTimeout;
    var continueCount := 0;
    var rest := turns;
    var localResponse := default;
    OutcomeExactly(default, turns, 0);
    waits, requested := 0, 0;
    while true
      invariant TimeoutsBounded(rest)
      invariant continueCount <= Continued(turns) && rest == turns[continueCount..]
      invariant timeout == WaitLength(turns, stallTimeout, continueCount)
      invariant requested == WaitTotal(turns, stallTimeout, continueCount)
      invariant OutcomeOf(default, turns, 0) == OutcomeOf(default, rest, continueCount)
      invariant waits == continueCount < MAX_CONTINUE_RESPONSES
      invariant requested <= WaitBudget(waits)
      invariant timeout <= (if continueCount == 0 then MAX_WAIT_TIMEOUT_MS else MAX_EXTENDED_TIMEOUT_MS)
      decreases MAX_CONTINUE_RESPONSES - continueCount
    {
      if rest != [] && !rest[0].stalling {
        return false, false, waits, requested;
      }
      localResponse := default;
      waits, requested := waits + 1, requested + timeout;
      if rest != [] && rest[0].wakeup.Answered? {
        localResponse := rest[0].wakeup.answer;
        if localResponse == Continue {
          timeout := if rest[0].wakeup.timeout != 0 then rest[0].wakeup.timeout else rest[0].continueTimeout;
          continueCount := continueCount + 1;
          if continueCount < MAX_CONTINUE_RESPONSES {
            rest := rest[1..];
            assert rest == turns[continueCount..];
            continue;
          }
        }
      }
      break;
    }
    denied := localResponse == Deny;
    removed := true;
  }
}
