/**
 The flag handling of the task cache as it is written: the switch over event
 options, the translation of a parent's label at a fork and at a first event, and
 the reading of a response. Each is proved to compute what TaskLabels says.
 */
module TaskFlags {
  import opened Common
  import opened Dynsec
  import opened TaskLabels

  // ----- an event meets an entry

  /** The switch: whether the event's option lets it through, and the options left. */
  method JudgeOption(e: Track, x: Entry, mask: bv32) returns (applies: bool, caches: seq<bv32>)
    requires WellFormed(x) && e.eventType < TASK_DUMP
    ensures applies == MaskApplies(mask, e, x) && caches == OptionsUnder(mask, e, x)
  {
    applies, caches := false, x.caches;
    if mask == CACHE_ENABLE {
      applies := true;
    } else if mask == CACHE_ENABLE_EXCL {
      // Only while the last stalling event was one that need not have stalled.
      if x.lastStall.eventType >= TASK_DUMP || OptionEnabled(x.caches[x.lastStall.eventType]) {
        applies := true;
      } else {
        caches := caches[e.eventType := 0];
      }
    } else if mask == CACHE_ENABLE_STRICT {
      if x.last.eventType == e.eventType {
        applies := true;
      } else {
        caches := caches[e.eventType := 0];
      }
    } else if mask == CACHE_CLEAR_ON_EVENT {
      caches := NO_CACHES;
    }
  }

  /** The options of the task first, then those of the event's type. */
  method MatchOptions(e: Track, x: Entry) returns (event: Track, caches: seq<bv32>)
    requires WellFormed(x) && e.eventType < TASK_DUMP
    ensures event == ReportedAs(e, x) && caches == CachesAfter(e, x)
  {
    event, caches := e, x.caches;
    if x.taskLabel & CACHE_ENABLE != 0 {
      event := Unstall(event, x.taskLabel & CACHE_IGNORE != 0);
      return;
    }
    var isIgnore := x.caches[event.eventType] & CACHE_IGNORE != 0;
    var applies;
    applies, caches := JudgeOption(event, x, OptionMask(event, x));
    if applies {
      event := Unstall(event, isIgnore);
    }
  }

  /** __update_entry_data, on values: the event as it is reported, and the entry. */
  method UpdateEntryData(e: Track, x: Entry) returns (event: Track, entry: Entry)
    requires WellFormed(x) && e.eventType < TASK_DUMP
    ensures (event, entry) == UpdateEntry(e, x)
  {
    event, entry := e, x;
    if event.trackFlags & TRACK_REPORTABLE == 0 {
      entry := entry.(last := event);
      return;
    }
    var isStall, caches := Stalls(event), [];
    event, caches := MatchOptions(event, entry);
    entry := entry.(caches := caches, last := event);
    if isStall {
      entry := entry.(lastStall := event);
    }
  }

  // ----- a parent's label is taken over

  lemma ForkEnters(hasParent: bool, parentLabel: bv32, isThread: bool)
    requires !hasParent ==> parentLabel == 0
    ensures ForkEntry(hasParent, parentLabel, isThread).None? <==> parentLabel & CACHE_INHERIT == 0
  {
    assert (0 as bv32) & CACHE_INHERIT == 0;
  }

  /** The block of task_cache_insert_new_task. */
  method TranslateAtFork(hasParent: bool, parentLabel: bv32, isThread: bool) returns (enter: bool, taskLabel: bv32)
    ensures ForkEntry(hasParent, parentLabel, isThread) == if enter then Some(LabelledEntry(taskLabel)) else None
  {
    taskLabel := parentLabel;
    if hasParent && taskLabel & CACHE_INHERIT != 0 {
      // Threads keep the label of the main thread.
      if !isThread && taskLabel & CACHE_INHERIT_RECURSE == 0 {
        taskLabel := taskLabel & !CACHE_INHERIT;
      }
      enter := true;
    } else {
      enter := false;
    }
  }

  /** Lifts the stall of an event, as the code for a first event spells it out. */
  method LiftStall(e: Track, taskLabel: bv32) returns (event: Track)
    ensures event == Lifted(e, taskLabel)
  {
    event := e;
    if taskLabel & CACHE_IGNORE != 0 {
      event := event.(reportFlags := (event.reportFlags & !REPORT_STALL) | REPORT_IGNORE);
      event := event.(trackFlags := event.trackFlags | TRACK_FLAGS_CHANGED);
    } else {
      event := event.(reportFlags := (event.reportFlags & !REPORT_STALL) | REPORT_CACHED);
      event := event.(trackFlags := event.trackFlags | TRACK_FLAGS_CHANGED);
    }
  }

  lemma NoLabelLiftsNothing(e: Track)
    ensures FirstReport(e, 0) == e
  {
    assert (0 as bv32) & CACHE_ENABLE == 0;
  }

  method ReportUnder(e: Track, taskLabel: bv32) returns (event: Track)
    ensures event == FirstReport(e, taskLabel)
  {
    event := e;
    if taskLabel & CACHE_ENABLE != 0 {
      event := LiftStall(event, taskLabel);
    }
  }

  method LabelAtEvent(hasParent: bool, parentLabel: bv32, isThread: bool) returns (inherits: bool, taskLabel: bv32)
    ensures taskLabel == FirstLabel(hasParent, parentLabel, isThread)
    ensures !inherits ==> taskLabel == 0
  {
    taskLabel := parentLabel;
    inherits := hasParent && taskLabel & CACHE_INHERIT != 0;
    if inherits {
      if !isThread && taskLabel & CACHE_INHERIT_RECURSE == 0 {
        taskLabel := taskLabel & !CACHE_INHERIT;
      }
    } else {
      taskLabel := 0;
    }
  }

  /** The block of task_cache_set_last_event for a task that is not cached. */
  method TranslateAtEvent(hasParent: bool, parentLabel: bv32, isThread: bool, e: Track)
    returns (event: Track, taskLabel: bv32)
    ensures taskLabel == FirstLabel(hasParent, parentLabel, isThread)
    ensures event == FirstReport(e, taskLabel)
  {
    var inherits;
    inherits, taskLabel := LabelAtEvent(hasParent, parentLabel, isThread);
    event := e;
    if inherits {
      event := ReportUnder(event, taskLabel);
    } else {
      NoLabelLiftsNothing(event);
    }
  }

  // ----- a response is read

  method CheckLabel(taskLabel: bv32) returns (ok: bool)
    ensures ok == GoodLabel(taskLabel)
  {
    if taskLabel != 0 {
      if taskLabel & CACHE_ENABLE == 0 {
        return false;
      }
      if taskLabel & CACHE_INHERIT_RECURSE != 0 && taskLabel & CACHE_INHERIT == 0 {
        return false;
      }
    }
    ok := true;
  }

  /** The label part of a response. */
  method ReadLabelFlags(flags: bv32) returns (ok: bool, clearTask: bool, taskLabel: bv32)
    ensures LabelPlan(flags) == if ok then Change(false, clearTask, taskLabel, 0) else Refused
  {
    taskLabel, clearTask := flags, false;
    if taskLabel & (CACHE_CLEAR | CACHE_DISABLE) != 0 {
      clearTask := true;
      taskLabel := taskLabel & !(CACHE_CLEAR | CACHE_DISABLE);
      ok := taskLabel == 0;
    } else {
      taskLabel := taskLabel & LABEL_BITS;
      ok := CheckLabel(taskLabel);
    }
  }

  /** How many of the option bits are set. */
  function OptionWeight(mask: bv32): nat {
    (if mask & CACHE_ENABLE != 0 then 1 else 0) + (if mask & CACHE_ENABLE_EXCL != 0 then 1 else 0)
    + (if mask & CACHE_ENABLE_STRICT != 0 then 1 else 0) + (if mask & CACHE_CLEAR_ON_EVENT != 0 then 1 else 0)
  }

  lemma WeightOneIsSingle(mask: bv32)
    requires mask & OPTION_BITS == mask
    ensures OptionWeight(mask) == 1 <==> SingleOption(mask)
  {
  }

  lemma MaskedWithoutIgnore(rest: bv32)
    ensures rest & !CACHE_IGNORE & OPTION_BITS == rest & OPTION_BITS
    ensures (rest & OPTION_BITS) & OPTION_BITS == rest & OPTION_BITS
  {
  }

  lemma WithoutClear(flags: bv32)
    ensures flags & CACHE_CLEAR == 0 ==> flags & !CACHE_CLEAR == flags
  {
  }

  /** The event option part, once the clearing bit has been taken out. */
  method ReadOption(rest: bv32, clearEvents: bool) returns (ok: bool, cacheFlags: bv32)
    requires rest & CACHE_DISABLE == 0
    ensures ok <==> SingleOption(rest & OPTION_BITS) || clearEvents
    ensures cacheFlags ==
      if !SingleOption(rest & OPTION_BITS) then 0
      else if rest & CACHE_IGNORE != 0 then (rest & OPTION_BITS) | CACHE_IGNORE
      else rest & OPTION_BITS
  {
    cacheFlags, ok := rest, true;
    var hasIgnore := cacheFlags & CACHE_IGNORE != 0;
    if hasIgnore {
      cacheFlags := cacheFlags & !CACHE_IGNORE;
    }
    cacheFlags := cacheFlags & OPTION_BITS;
    MaskedWithoutIgnore(rest);
    WeightOneIsSingle(cacheFlags);
    if OptionWeight(cacheFlags) == 1 {
      if hasIgnore {
        cacheFlags := cacheFlags | CACHE_IGNORE;
      }
    } else {
      cacheFlags, ok := 0, clearEvents;
    }
  }

  method ReadCacheFlags(flags: bv32) returns (ok: bool, clearEvents: bool, clearTask: bool, cacheFlags: bv32)
    ensures OptionPlan(flags) == if ok then Change(clearEvents, clearTask, 0, cacheFlags) else Refused
  {
    cacheFlags, clearEvents, clearTask, ok := flags, false, false, true;
    WithoutClear(flags);
    if cacheFlags & CACHE_CLEAR != 0 {
      clearEvents := true;
      cacheFlags := cacheFlags & !CACHE_CLEAR;
    }
    if cacheFlags & CACHE_DISABLE != 0 {
      cacheFlags := CACHE_DISABLE;
    } else {
      ok, cacheFlags := ReadOption(cacheFlags, clearEvents);
      clearTask := true;
    }
  }

  /** The locked section of task_cache_handle_response, on values. */
  method ApplyFlags(x: Entry, clearEvents: bool, clearTask: bool, taskLabel: bv32, cacheFlags: bv32, eventType: nat)
    returns (entry: Entry)
    requires WellFormed(x) && eventType < TASK_DUMP
    ensures entry == Answered(x, Change(clearEvents, clearTask, taskLabel, cacheFlags), eventType)
  {
    entry := x;
    if clearEvents || taskLabel != 0 {
      entry := entry.(caches := NO_CACHES);
    }
    if clearTask || taskLabel != 0 {
      entry := entry.(taskLabel := taskLabel);
    } else if cacheFlags != 0 {
      if cacheFlags & CACHE_DISABLE != 0 {
        entry := entry.(caches := entry.caches[eventType := 0]);
      } else {
        entry := entry.(caches := entry.caches[eventType := cacheFlags]);
      }
    }
  }
}
