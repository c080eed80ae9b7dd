/** The configuration of the stall protocol and what an ioctl makes of it. */
module StallConfig {

  const MIN_WAIT_TIMEOUT_MS: nat := 1000
  const MAX_WAIT_TIMEOUT_MS: nat := 15000
  const DEFAULT_WAIT_TIMEOUT_MS: nat := 5000
  const MAX_EXTENDED_TIMEOUT_MS: nat := 1800000

  datatype Config = Config(bypass: bool, stallMode: bool, timeout: nat, continueTimeout: nat, deny: bool)

  const DEFAULT_CONFIG: Config := Config(false, true, DEFAULT_WAIT_TIMEOUT_MS, MAX_WAIT_TIMEOUT_MS, false)

  /** A request: one optional value for each flag of the ioctl header. */
  datatype Setting<T> = Keep | Set(value: T)

  datatype Request = Request(
    stallMode: Setting<bool>, timeout: Setting<nat>, continueTimeout: Setting<nat>, deny: Setting<bool>)

  function Clamp(ms: nat): nat {
    var t := if ms < MAX_WAIT_TIMEOUT_MS then ms else MAX_WAIT_TIMEOUT_MS;
    if t < MIN_WAIT_TIMEOUT_MS then MIN_WAIT_TIMEOUT_MS else t
  }

  /** handle_stall_ioc: the timeout first, then the continuation timeout against
      the timeout just set. */
  function Configure(c: Config, r: Request): Config {
    var timeout := if r.timeout.Set? then Clamp(r.timeout.value) else c.timeout;
    c.(stallMode := if r.stallMode.Set? then r.stallMode.value else c.stallMode,
       timeout := timeout,
       continueTimeout :=
         if r.continueTimeout.Keep? then c.continueTimeout
         else AtMost(if r.continueTimeout.value > timeout then r.continueTimeout.value else timeout,
                     MAX_EXTENDED_TIMEOUT_MS),
       deny := if r.deny.Set? then r.deny.value else c.deny)
  }

  function AtMost(n: nat, bound: nat): nat {
    if n > bound then bound else n
  }

  predicate InRange(c: Config) {
    && MIN_WAIT_TIMEOUT_MS <= c.timeout <= MAX_WAIT_TIMEOUT_MS
    && MIN_WAIT_TIMEOUT_MS <= c.continueTimeout <= MAX_EXTENDED_TIMEOUT_MS
  }

  function ConfigureAll(c: Config, rs: seq<Request>): Config {
    if rs == [] then c else Configure(ConfigureAll(c, rs[..|rs| - 1]), rs[|rs| - 1])
  }

  /** Whatever a client asks for, in any order and number, the timeouts stay in
      their ranges. */
  lemma {:induction false} TimeoutsStayInRange(rs: seq<Request>)
    ensures InRange(ConfigureAll(DEFAULT_CONFIG, rs))
  {
    if rs != [] {
      TimeoutsStayInRange(rs[..|rs| - 1]);
    }
  }

  /** The last request that sets the timeout, -1 if there is none. */
  function LastAsked(rs: seq<Request>): (i: int)
    ensures -1 <= i < |rs| && (i >= 0 ==> rs[i].timeout.Set?)
    ensures forall j :: i < j < |rs| ==> rs[j].timeout.Keep?
  {
    if rs == [] then -1
    else if rs[|rs| - 1].timeout.Set? then |rs| - 1
    else LastAsked(rs[..|rs| - 1])
  }

  /** The timeout after a series of requests: the last one asked for if it is from one
      to 15 seconds, the nearer of these two if it is not, five seconds if none was. */
  function LastTimeout(rs: seq<Request>): nat {
    var i := LastAsked(rs);
    if i < 0 then 5000
    else if rs[i].timeout.value < 1000 then 1000
    else if rs[i].timeout.value > 15000 then 15000
    else rs[i].timeout.value
  }

  /** The last request that sets the continuation timeout, -1 if there is none. */
  function LastContinue(rs: seq<Request>): (i: int)
    ensures -1 <= i < |rs| && (i >= 0 ==> rs[i].continueTimeout.Set?)
    ensures forall j :: i < j < |rs| ==> rs[j].continueTimeout.Keep?
  {
    if rs == [] then -1
    else if rs[|rs| - 1].continueTimeout.Set? then |rs| - 1
    else LastContinue(rs[..|rs| - 1])
  }

  lemma {:induction false} LastTimeoutIs(rs: seq<Request>)
    ensures ConfigureAll(DEFAULT_CONFIG, rs).timeout == LastTimeout(rs)
    ensures MIN_WAIT_TIMEOUT_MS <= LastTimeout(rs) <= MAX_WAIT_TIMEOUT_MS
  {
    if rs != [] {
      LastTimeoutIs(rs[..|rs| - 1]);
    }
  }

  /** The continuation timeout after a series: what the last request for it came to
      beside the timeout of that time. */
  lemma {:induction false} LastContinueIs(rs: seq<Request>)
    ensures
      var i := LastContinue(rs);
      ConfigureAll(DEFAULT_CONFIG, rs).continueTimeout ==
        if i < 0 then MAX_WAIT_TIMEOUT_MS
        else
          var asked, timeout := rs[i].continueTimeout.value, LastTimeout(rs[..i + 1]);
          if asked > 1800000 then 1800000 else if asked > timeout then asked else timeout
  {
    if rs != [] {
      var before := rs[..|rs| - 1];
      LastTimeoutIs(rs);
      if rs[|rs| - 1].continueTimeout.Set? {
        assert rs[..|rs|] == rs;
      } else {
        LastContinueIs(before);
        var i := LastContinue(rs);
        assert i >= 0 ==> rs[..i + 1] == before[..i + 1];
      }
    }
  }

  /** The continuation timeout is meant to be no shorter than the timeout. After any
      series of requests it is not, if and only if none set it, or the last one that
      did asked for at least the timeout there is now, or found at least that timeout
      in force. */
  lemma ContinuationNotShorterExactly(rs: seq<Request>)
    ensures
      var c, i := ConfigureAll(DEFAULT_CONFIG, rs), LastContinue(rs);
      c.timeout <= c.continueTimeout <==>
        || i < 0
        || LastTimeout(rs) <= rs[i].continueTimeout.value
        || LastTimeout(rs) <= LastTimeout(rs[..i + 1])
  {
    LastTimeoutIs(rs);
    LastContinueIs(rs);
  }

  /** Switching stalling, and what a timeout means, is as last asked. */
  lemma {:induction false} SwitchesAsLastAsked(rs: seq<Request>, i: nat)
    requires i < |rs|
    ensures rs[i].stallMode.Set? && (forall j :: i < j < |rs| ==> rs[j].stallMode.Keep?) ==>
      ConfigureAll(DEFAULT_CONFIG, rs).stallMode == rs[i].stallMode.value
    ensures rs[i].deny.Set? && (forall j :: i < j < |rs| ==> rs[j].deny.Keep?) ==>
      ConfigureAll(DEFAULT_CONFIG, rs).deny == rs[i].deny.value
  {
    if i < |rs| - 1 {
      SwitchesAsLastAsked(rs[..|rs| - 1], i);
    }
  }

  /** It can be left shorter: a long timeout set after a short continuation. */
  lemma ContinuationCanBeShorter()
    ensures
      var rs := [Request(Keep, Set(1000), Set(1000), Keep), Request(Keep, Set(15000), Keep, Keep)];
      var c := ConfigureAll(DEFAULT_CONFIG, rs);
      c.continueTimeout < c.timeout
  {
    var r0, r1 := Request(Keep, Set(1000), Set(1000), Keep), Request(Keep, Set(15000), Keep, Keep);
    assert [r0, r1][..1] == [r0] && [r0][..0] == [];
    assert ConfigureAll(DEFAULT_CONFIG, [r0]) == Configure(DEFAULT_CONFIG, r0);
  }
}
