/**
 What the flag words of a response, of a label request and of an event come to, bit
 by bit, without the plan that the code makes of them.
 */
module TaskWords {
  import opened Common
  import opened Dynsec
  import opened TaskLabels

  predicate Carries(word: bv32, bit: bv32) {
    word & bit != 0
  }

  /** A label with each of the four label bits exactly as the word has it, and no other. */
  predicate TakesBits(taskLabel: bv32, word: bv32) {
    && (Carries(taskLabel, CACHE_ENABLE) <==> Carries(word, CACHE_ENABLE))
    && (Carries(taskLabel, CACHE_IGNORE) <==> Carries(word, CACHE_IGNORE))
    && (Carries(taskLabel, CACHE_INHERIT) <==> Carries(word, CACHE_INHERIT))
    && (Carries(taskLabel, CACHE_INHERIT_RECURSE) <==> Carries(word, CACHE_INHERIT_RECURSE))
    && !Carries(taskLabel, 0xFFFF_CEFE)
  }

  predicate NoLabelBits(word: bv32) {
    && !Carries(word, CACHE_ENABLE) && !Carries(word, CACHE_IGNORE)
    && !Carries(word, CACHE_INHERIT) && !Carries(word, CACHE_INHERIT_RECURSE)
  }

  lemma MaskKeepsEnable(word: bv32)
    ensures Carries(word & LABEL_BITS, CACHE_ENABLE) <==> Carries(word, CACHE_ENABLE)
  {
  }

  lemma MaskKeepsIgnore(word: bv32)
    ensures Carries(word & LABEL_BITS, CACHE_IGNORE) <==> Carries(word, CACHE_IGNORE)
  {
  }

  lemma MaskKeepsInherit(word: bv32)
    ensures Carries(word & LABEL_BITS, CACHE_INHERIT) <==> Carries(word, CACHE_INHERIT)
  {
  }

  lemma MaskKeepsRecurse(word: bv32)
    ensures Carries(word & LABEL_BITS, CACHE_INHERIT_RECURSE) <==> Carries(word, CACHE_INHERIT_RECURSE)
  {
  }

  lemma MaskKeepsNothingElse(word: bv32)
    ensures !Carries(word & LABEL_BITS, 0xFFFF_CEFE)
  {
  }

  lemma NothingMasked(word: bv32)
    ensures word & LABEL_BITS == 0 <==> NoLabelBits(word)
  {
  }

  lemma MaskedBits(word: bv32)
    ensures TakesBits(word & LABEL_BITS, word)
    ensures word & LABEL_BITS == 0 <==> NoLabelBits(word)
  {
    MaskKeepsEnable(word);
    MaskKeepsIgnore(word);
    MaskKeepsInherit(word);
    MaskKeepsRecurse(word);
    MaskKeepsNothingElse(word);
    NothingMasked(word);
  }

  predicate Clears(word: bv32) {
    Carries(word, CACHE_CLEAR) || Carries(word, CACHE_DISABLE)
  }

  lemma EitherClears(word: bv32)
    ensures word & (CACHE_CLEAR | CACHE_DISABLE) != 0 <==> Clears(word)
    ensures word & (CACHE_DISABLE | CACHE_CLEAR) != 0 <==> Clears(word)
  {
  }

  // ----- a label request

  /** A request for a label is refused exactly when it neither clears nor enables; one
      that clears or disables leaves no label; any other sets the label bits it has. */
  lemma IoctlExactly(flags: bv32)
    ensures
      var l := IoctlLabel(flags);
      if Clears(flags) then l == Some(0)
      else if Carries(flags, CACHE_ENABLE) then l.Some? && TakesBits(l.value, flags)
      else l == None
  {
    EitherClears(flags);
    MaskedBits(flags);
  }

  // ----- a response with label flags

  /** Which label words a response may carry: a clearing one has no other bit; any other
      has no label bit at all, or enables and recurses only if it is inherited. */
  predicate LabelAccepted(word: bv32) {
    if Clears(word) then !Carries(word, 0xFFFF_FFCF)
    else
      || NoLabelBits(word)
      || (Carries(word, CACHE_ENABLE) && (Carries(word, CACHE_INHERIT_RECURSE) ==> Carries(word, CACHE_INHERIT)))
  }

  lemma GoodLabelExactly(word: bv32)
    ensures GoodLabel(word & LABEL_BITS) <==>
      NoLabelBits(word)
      || (Carries(word, CACHE_ENABLE) && (Carries(word, CACHE_INHERIT_RECURSE) ==> Carries(word, CACHE_INHERIT)))
  {
    MaskedBits(word);
  }

  /**
   A response with label flags. It is accepted exactly for the words above. One that
   clears takes the label and leaves the rest of the entry; one without a label bit
   changes nothing; any other sets the label bits it has and drops all event options.
   */
  lemma LabelResponseExactly(x: Entry, r: Response)
    requires WellFormed(x) && r.eventType < TASK_DUMP && r.labelFlags != 0
    ensures PlanOf(r).Change? <==> LabelAccepted(r.labelFlags)
    ensures !PlanOf(r).Change? ==> PlanOf(r) == Refused
    ensures PlanOf(r).Change? ==>
      var y := Answered(x, PlanOf(r), r.eventType);
      if Clears(r.labelFlags) then y == x.(taskLabel := 0)
      else if NoLabelBits(r.labelFlags) then y == x
      else TakesBits(y.taskLabel, r.labelFlags) && y == x.(taskLabel := y.taskLabel, caches := NO_CACHES)
  {
    var word := r.labelFlags;
    EitherClears(word);
    MaskedBits(word);
    GoodLabelExactly(word);
  }

  // ----- a response with event options

  /** The word has one of the four options and not two. */
  predicate NamesOne(word: bv32) {
    var a, b := Carries(word, CACHE_ENABLE), Carries(word, CACHE_ENABLE_EXCL);
    var c, d := Carries(word, CACHE_ENABLE_STRICT), Carries(word, CACHE_CLEAR_ON_EVENT);
    (a && !b && !c && !d) || (!a && b && !c && !d) || (!a && !b && c && !d) || (!a && !b && !c && d)
  }

  lemma SingleExactly(word: bv32)
    ensures SingleOption(word & !CACHE_CLEAR & OPTION_BITS) <==> NamesOne(word)
  {
  }

  lemma DisableBeside(word: bv32)
    ensures word & !CACHE_CLEAR & CACHE_DISABLE != 0 <==> Carries(word, CACHE_DISABLE)
  {
  }

  /**
   A response without label flags. It is accepted exactly when it disables, clears or
   names one option. Clearing drops the options of all event types, disabling that of
   its own. Unless it disables it takes the label; the option it names is not stored.
   */
  lemma OptionResponseExactly(x: Entry, r: Response)
    requires WellFormed(x) && r.eventType < TASK_DUMP && r.labelFlags == 0 && r.cacheFlags != 0
    ensures
      var word := r.cacheFlags;
      PlanOf(r).Change? <==> Carries(word, CACHE_DISABLE) || Carries(word, CACHE_CLEAR) || NamesOne(word)
    ensures !PlanOf(r).Change? ==> PlanOf(r) == Refused
    ensures PlanOf(r).Change? ==>
      var word, y := r.cacheFlags, Answered(x, PlanOf(r), r.eventType);
      y == x.(taskLabel := if Carries(word, CACHE_DISABLE) then x.taskLabel else 0,
              caches := if Carries(word, CACHE_CLEAR) then NO_CACHES
                        else if Carries(word, CACHE_DISABLE) then x.caches[r.eventType := 0]
                        else x.caches)
  {
    DisableBeside(r.cacheFlags);
    SingleExactly(r.cacheFlags);
  }

  // ----- an event

  /** The event without its stall, marked as ignored or as cached and as changed, and
      otherwise the same. */
  predicate Lifts(e: Track, lifted: Track, ignore: bool) {
    && (ignore ==> lifted.reportFlags == (e.reportFlags & !REPORT_STALL) | REPORT_IGNORE)
    && (!ignore ==> lifted.reportFlags == (e.reportFlags & !REPORT_STALL) | REPORT_CACHED)
    && lifted.trackFlags == e.trackFlags | TRACK_FLAGS_CHANGED
    && lifted.eventType == e.eventType && lifted.reqId == e.reqId
  }

  lemma UnstallLifts(e: Track, ignore: bool)
    ensures Lifts(e, Unstall(e, ignore), ignore)
  {
  }

  /** The last event that was to stall is none, or of a type with an enabling option. */
  predicate StallWasCached(x: Entry)
    requires WellFormed(x)
  {
    x.lastStall.eventType >= TASK_DUMP ||
    var word := x.caches[x.lastStall.eventType];
    Carries(word, CACHE_ENABLE) || Carries(word, CACHE_ENABLE_EXCL) || Carries(word, CACHE_ENABLE_STRICT)
  }

  lemma EnabledExactly(word: bv32)
    ensures OptionEnabled(word) <==>
      Carries(word, CACHE_ENABLE) || Carries(word, CACHE_ENABLE_EXCL) || Carries(word, CACHE_ENABLE_STRICT)
  {
  }

  /** An option, without its ignore bit, lets the event through: always, while no other
      stall has come between, or while events of one type follow each other. */
  predicate Lets(option: bv32, e: Track, x: Entry)
    requires WellFormed(x)
  {
    || option == CACHE_ENABLE
    || (option == CACHE_ENABLE_EXCL && StallWasCached(x))
    || (option == CACHE_ENABLE_STRICT && x.last.eventType == e.eventType)
  }

  predicate OptionLets(e: Track, x: Entry)
    requires WellFormed(x) && e.eventType < TASK_DUMP
  {
    Lets(x.caches[e.eventType] & !CACHE_IGNORE, e, x)
  }

  lemma LetsExactly(option: bv32, e: Track, x: Entry)
    requires WellFormed(x)
    ensures MaskApplies(option, e, x) <==> Lets(option, e, x)
  {
    if x.lastStall.eventType < TASK_DUMP {
      EnabledExactly(x.caches[x.lastStall.eventType]);
    }
  }

  /** The options behind the event: none if its option clears them, its own gone if it
      was to hold only for a while and did not, the others as they are. */
  predicate OptionsBehind(option: bv32, e: Track, x: Entry, caches: seq<bv32>)
    requires WellFormed(x) && e.eventType < TASK_DUMP
  {
    && (option == CACHE_CLEAR_ON_EVENT ==> caches == NO_CACHES)
    && (option == CACHE_ENABLE_EXCL && !Lets(option, e, x) ==> caches == x.caches[e.eventType := 0])
    && (option == CACHE_ENABLE_STRICT && !Lets(option, e, x) ==> caches == x.caches[e.eventType := 0])
    && (option != CACHE_CLEAR_ON_EVENT && (Lets(option, e, x) || !Passing(option)) ==> caches == x.caches)
  }

  /** An option that holds only for a while. */
  predicate Passing(option: bv32) {
    option == CACHE_ENABLE_EXCL || option == CACHE_ENABLE_STRICT
  }

  lemma OptionsBehindExactly(option: bv32, e: Track, x: Entry)
    requires WellFormed(x) && e.eventType < TASK_DUMP
    ensures OptionsBehind(option, e, x, OptionsUnder(option, e, x))
  {
    LetsExactly(option, e, x);
  }

  /** Is an event that is let through to be ignored: the label says so, if it is what
      lets it through, and else the option. */
  predicate Ignores(e: Track, x: Entry)
    requires WellFormed(x) && e.eventType < TASK_DUMP
  {
    if Carries(x.taskLabel, CACHE_ENABLE) then Carries(x.taskLabel, CACHE_IGNORE)
    else Carries(x.caches[e.eventType], CACHE_IGNORE)
  }

  lemma LetByLabel(e: Track, x: Entry)
    requires WellFormed(x) && e.eventType < TASK_DUMP && Carries(x.taskLabel, CACHE_ENABLE)
    ensures ReportedAs(e, x) == Unstall(e, Ignores(e, x)) && CachesAfter(e, x) == x.caches
  {
  }

  lemma LetByOption(e: Track, x: Entry)
    requires WellFormed(x) && e.eventType < TASK_DUMP && !Carries(x.taskLabel, CACHE_ENABLE)
    ensures ReportedAs(e, x) == if OptionApplies(e, x) then Unstall(e, Ignores(e, x)) else e
    ensures CachesAfter(e, x) == OptionsUnder(OptionMask(e, x), e, x)
  {
  }

  predicate LetThrough(e: Track, x: Entry)
    requires WellFormed(x) && e.eventType < TASK_DUMP
  {
    Reportable(e) && (Carries(x.taskLabel, CACHE_ENABLE) || OptionLets(e, x))
  }

  lemma ReportedExactly(e: Track, x: Entry)
    requires WellFormed(x) && e.eventType < TASK_DUMP && Reportable(e)
    ensures ReportedAs(e, x) == if LetThrough(e, x) then Unstall(e, Ignores(e, x)) else e
  {
    if Carries(x.taskLabel, CACHE_ENABLE) {
      LetByLabel(e, x);
    } else {
      LetByOption(e, x);
      LetsExactly(OptionMask(e, x), e, x);
    }
  }

  lemma UpdateExactly(e: Track, x: Entry)
    requires WellFormed(x) && e.eventType < TASK_DUMP
    ensures
      var r := UpdateEntry(e, x);
      && r.0 == (if Reportable(e) then ReportedAs(e, x) else e)
      && r.1 == Entry(r.0, if Reportable(e) && Stalls(e) then r.0 else x.lastStall, x.taskLabel,
                      if Reportable(e) then CachesAfter(e, x) else x.caches)
  {
  }

  /**
   An event of a cached task. It is let through exactly when it is reportable and the
   label enables or the option of its type lets it; its stall is then lifted and it is
   marked as ignored if the label, or else the option, says so, and as cached if not.
   Otherwise it is reported as it is. The entry remembers the event as reported, and
   also as the last stall if it was to stall; the label stays.
   */
  lemma EventExactly(e: Track, x: Entry)
    requires WellFormed(x) && e.eventType < TASK_DUMP
    ensures
      var r := UpdateEntry(e, x);
      && (if LetThrough(e, x) then Lifts(e, r.0, Ignores(e, x)) else r.0 == e)
      && r.1.last == r.0 && r.1.taskLabel == x.taskLabel
      && r.1.lastStall == if Reportable(e) && Stalls(e) then r.0 else x.lastStall
  {
    UpdateExactly(e, x);
    if Reportable(e) {
      ReportedExactly(e, x);
    }
    UnstallLifts(e, Ignores(e, x));
  }

  /** The options of the task change only by a reportable event under a label that does
      not enable, and then by the option of its type. */
  lemma OptionsExactly(e: Track, x: Entry)
    requires WellFormed(x) && e.eventType < TASK_DUMP
    ensures
      var caches := UpdateEntry(e, x).1.caches;
      if Reportable(e) && !Carries(x.taskLabel, CACHE_ENABLE)
      then OptionsBehind(x.caches[e.eventType] & !CACHE_IGNORE, e, x, caches)
      else caches == x.caches
  {
    UpdateExactly(e, x);
    if Carries(x.taskLabel, CACHE_ENABLE) {
      LetByLabel(e, x);
    } else {
      LetByOption(e, x);
      OptionsBehindExactly(OptionMask(e, x), e, x);
    }
  }

  // ----- what a new task takes over

  /** The label of a new task: none if the parent's is not inheritable; else the same,
      and inheritable again exactly for a thread or if it recurses. */
  predicate TakesOver(taskLabel: bv32, parent: bv32, isThread: bool) {
    if !Carries(parent, CACHE_INHERIT) then taskLabel == 0
    else
      && taskLabel & !CACHE_INHERIT == parent & !CACHE_INHERIT
      && (Carries(taskLabel, CACHE_INHERIT) <==> isThread || Carries(parent, CACHE_INHERIT_RECURSE))
  }

  lemma TakesWhole(parent: bv32, isThread: bool)
    requires Carries(parent, CACHE_INHERIT) && (isThread || Carries(parent, CACHE_INHERIT_RECURSE))
    ensures TakesOver(parent, parent, isThread)
  {
  }

  lemma TakesPart(parent: bv32)
    requires Carries(parent, CACHE_INHERIT) && !Carries(parent, CACHE_INHERIT_RECURSE)
    ensures TakesOver(parent & !CACHE_INHERIT, parent, false)
  {
  }

  /** Whichever way a task enters the cache, it takes its parent's label over like that. */
  lemma InheritsExactly(parent: bv32, isThread: bool)
    ensures TakesOver(InheritedLabel(parent, isThread), parent, isThread)
    ensures TakesOver(FirstLabel(true, parent, isThread), parent, isThread)
    ensures FirstLabel(false, parent, isThread) == 0
    ensures
      var forked := ForkEntry(true, parent, isThread);
      if Carries(parent, CACHE_INHERIT)
      then forked.Some? && TakesOver(forked.value.taskLabel, parent, isThread)
           && forked.value == LabelledEntry(forked.value.taskLabel)
      else forked.None?
    ensures ForkEntry(false, parent, isThread) == None
  {
    if Carries(parent, CACHE_INHERIT) {
      if isThread || Carries(parent, CACHE_INHERIT_RECURSE) {
        TakesWhole(parent, isThread);
      } else {
        TakesPart(parent);
      }
    }
  }

  /**
   The first event of a task that is not cached. The task takes over what its parent,
   if it has one, hands down; the event is lifted exactly if that label enables, and
   marked by its ignore bit; the entry remembers the event as reported, and as the last
   stall only if it still stalls.
   */
  lemma FirstEventExactly(hasParent: bool, parent: bv32, isThread: bool, e: Track)
    ensures
      var r := FirstSight(hasParent, parent, isThread, e);
      && (if hasParent then TakesOver(r.1.taskLabel, parent, isThread) else r.1.taskLabel == 0)
      && (if Carries(r.1.taskLabel, CACHE_ENABLE) then Lifts(e, r.0, Carries(r.1.taskLabel, CACHE_IGNORE))
          else r.0 == e)
      && r.1.last == r.0 && r.1.caches == NO_CACHES
      && r.1.lastStall == if Stalls(r.0) then r.0 else NO_EVENT
  {
    InheritsExactly(parent, isThread);
    var taskLabel := FirstLabel(hasParent, parent, isThread);
    LiftedLifts(e, taskLabel);
  }

  lemma LiftedLifts(e: Track, taskLabel: bv32)
    ensures Lifts(e, Lifted(e, taskLabel), Carries(taskLabel, CACHE_IGNORE))
  {
  }
}
