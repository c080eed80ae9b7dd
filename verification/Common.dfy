/** Small things that several parts of the model share. */
module Common {

  datatype Option<T> = None | Some(value: T)

  lemma Regroup<T>(a: seq<T>, b: seq<T>, c: seq<T>)
    ensures a + b + c == a + (b + c)
  {
  }
}

/** Numbers that kernel module and client agree on. */
module Dynsec {

  // Cache and label options.
  const CACHE_ENABLE: bv32 := 0x0001
  const CACHE_ENABLE_EXCL: bv32 := 0x0002
  const CACHE_ENABLE_STRICT: bv32 := 0x0004
  const CACHE_DISABLE: bv32 := 0x0010
  const CACHE_CLEAR: bv32 := 0x0020
  const CACHE_CLEAR_ON_EVENT: bv32 := 0x0040
  const CACHE_IGNORE: bv32 := 0x0100
  const CACHE_INHERIT: bv32 := 0x1000
  const CACHE_INHERIT_RECURSE: bv32 := 0x2000

  /** Event types below this one are cached per type; the next free number. */
  const TASK_DUMP: nat := 16
  const EVENT_TYPE_MAX: nat := 20
}
