/** The agent's process-wide state and its two entry points. The three
    statics of the library (the rule list and the two offset cells) are the
    fields of one object; `Agent_OnLoad` fills them once, and every
    thread-start event only reads them. */
module Agent {
  import opened Native
  import opened Text
  import opened RuleCompiler
  import opened VmStructs
  import opened Enforcement

  /** The value of an offset cell that has not been discovered. */
  const SENTINEL: i32 := -1

  class GlobalState {
    /** `THREADS_PRIO`. */
    var threadsPrio: seq<ThreadPrio>
    /** `OSTHREAD_FIELD_OFFSET` and `OS_THREAD_ID_FIELD_OFFSET`. The cells are
        `AtomicI64`, but only ever hold the sentinel or a widened `i32`. */
    var osthreadFieldOffset: i32
    var osThreadIdFieldOffset: i32

    /** The state at library load: no rules, both offsets unknown. */
    constructor ()
      ensures threadsPrio == []
      ensures osthreadFieldOffset == SENTINEL && osThreadIdFieldOffset == SENTINEL
    {
      threadsPrio := [];
      osthreadFieldOffset := SENTINEL;
      osThreadIdFieldOffset := SENTINEL;
    }

    /** `extend` of the shared list with the locally compiled rules. */
    method ExtendRules(compiled: seq<ThreadPrio>)
      modifies this`threadsPrio
      ensures threadsPrio == old(threadsPrio) + compiled
    {
      threadsPrio := threadsPrio + compiled;
    }

    /** The walk over `gHotSpotVMStructs`. The table must hold an end marker
        somewhere (`end` names one); without it the walk would run off the
        table. Each slot ends up holding what `Discovered` says: the offset of
        the last record for its pair before the first end marker, or what it
        held before if there is none. */
    method WalkVmStructs(syms: VmSymbols, mem: Memory, ghost end: nat)
      requires ReadEntry(syms, mem, end).Terminator?
      modifies this`osthreadFieldOffset, this`osThreadIdFieldOffset
      ensures osthreadFieldOffset as int ==
        Discovered(Table(syms, mem, end), OSTHREAD_TARGET, old(osthreadFieldOffset) as int)
      ensures osThreadIdFieldOffset as int ==
        Discovered(Table(syms, mem, end), THREAD_ID_TARGET, old(osThreadIdFieldOffset) as int)
    {
      ghost var table := Table(syms, mem, end);
      ghost var init1, init2 := osthreadFieldOffset as int, osThreadIdFieldOffset as int;
      var curEntryAddr := syms.structs;
      ghost var k: nat := 0;
      while true
        invariant k <= end
        invariant curEntryAddr == EntryAddress(syms, k)
        invariant forall i :: 0 <= i < k ==> table[i].Record?
        invariant osthreadFieldOffset as int == LastOffset(table[..k], OSTHREAD_TARGET, init1)
        invariant osThreadIdFieldOffset as int == LastOffset(table[..k], THREAD_ID_TARGET, init2)
        decreases end - k
      {
        var entryTypePtr := mem.word(curEntryAddr + syms.typeOffset);
        var fieldNamePtr := mem.word(curEntryAddr + syms.fieldOffset);
        if entryTypePtr == NULL || fieldNamePtr == NULL {
          assert table[k] == ReadEntry(syms, mem, k) == Terminator;
          FirstStopAt(table, k);
          break;
        }
        var entryType := mem.cString(entryTypePtr);
        var fieldName := mem.cString(fieldNamePtr);
        assert table[k] == Record(entryType, fieldName, mem.int32(curEntryAddr + syms.offsetOffset));
        LastOffsetStep(table, k, OSTHREAD_TARGET, init1);
        LastOffsetStep(table, k, THREAD_ID_TARGET, init2);
        if entryType == "JavaThread" && fieldName == "_osthread" {
          osthreadFieldOffset := mem.int32(curEntryAddr + syms.offsetOffset);
        } else if entryType == "OSThread" && fieldName == "_thread_id" {
          osThreadIdFieldOffset := mem.int32(curEntryAddr + syms.offsetOffset);
        }
        NextEntryAddress(syms, k);
        curEntryAddr := curEntryAddr + syms.stride;
        k := k + 1;
      }
    }

    /** `Agent_OnLoad`: compile the rules and append them to the shared list,
        then, when `libjvm.so` opened (`libjvm` is `Some` with the symbol
        values), walk its layout table. When the library is missing the
        offsets stay as they were. */
    method OnLoad(options: string, parseGroup: string -> Group, compiles: string -> bool, levelOk: u8 -> bool,
                  libjvm: Option<VmSymbols>, mem: Memory, ghost end: nat)
      requires libjvm.Some? ==> ReadEntry(libjvm.value, mem, end).Terminator?
      modifies this
      ensures threadsPrio == old(threadsPrio) + CompileGroups(Groups(options, parseGroup), compiles, levelOk)
      ensures libjvm.None? ==>
        osthreadFieldOffset == old(osthreadFieldOffset) && osThreadIdFieldOffset == old(osThreadIdFieldOffset)
      ensures libjvm.Some? ==>
        osthreadFieldOffset as int ==
          Discovered(Table(libjvm.value, mem, end), OSTHREAD_TARGET, old(osthreadFieldOffset) as int) &&
        osThreadIdFieldOffset as int ==
          Discovered(Table(libjvm.value, mem, end), THREAD_ID_TARGET, old(osThreadIdFieldOffset) as int)
    {
      var compiled := CompileRules(options, parseGroup, compiles, levelOk);
      ExtendRules(compiled);
      if libjvm.Some? {
        WalkVmStructs(libjvm.value, mem, end);
      }
    }

    /** `on_thread_start` for a thread called `name` whose `eetop` field holds
        `eetop`: pick the last matching rule, give up while an offset is
        unknown, otherwise resolve the thread id and ask for the class. */
    method OnThreadStart(name: string, eetop: int, mem: Memory, isMatch: (string, string) -> bool)
      returns (o: Outcome)
      ensures o == Decide(threadsPrio, osthreadFieldOffset as int, osThreadIdFieldOffset as int, name, eetop, mem, isMatch)
    {
      var threadPrioClass: Option<PrioClass> := None;
      for i := 0 to |threadsPrio|
        invariant threadPrioClass == LastMatch(threadsPrio[..i], name, isMatch)
      {
        assert threadsPrio[..i + 1][..i] == threadsPrio[..i];
        if isMatch(threadsPrio[i].threadName, name) {
          threadPrioClass := Some(threadsPrio[i].prioClass);
        }
      }
      assert threadsPrio[..|threadsPrio|] == threadsPrio;
      if threadPrioClass.None? {
        return NoMatchingRule;
      }
      if osthreadFieldOffset < 0 {
        return OffsetsUnknown;
      }
      if osThreadIdFieldOffset < 0 {
        return OffsetsUnknown;
      }
      var osThreadAddr := mem.word(eetop + osthreadFieldOffset as int);
      var osThreadId := mem.int32(osThreadAddr + osThreadIdFieldOffset as int);
      return SetPriority(osThreadId, threadPrioClass.value);
    }
  }
}
