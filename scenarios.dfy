/** End-to-end runs of the agent on a small concrete layout table: the
    library is loaded with one options string, then one thread starts. */
module Scenarios {
  import opened Native
  import opened Text
  import opened RuleCompiler
  import opened VmStructs
  import opened Enforcement
  import opened Agent

  /** A layout table at 0x1000 with 32-byte records (type name at +0, field
      name at +8, offset at +16): `JavaThread::_osthread` at 0x220,
      `OSThread::_thread_id` at 0x58, then the end marker. A thread whose
      `eetop` is 0x7000 has its `OSThread` at 0x9000 and the
      operating-system id 4242. */
  const SYMS := VmSymbols(0x1000, 32, 0, 8, 16)

  /** The memory cells of the test table and of one thread's structures. */
  predicate TestMemory(mem: Memory)
  {
    && mem.word(0x1000) == 0x2000 && mem.word(0x1008) == 0x2100 && mem.int32(0x1010) == 0x220
    && mem.word(0x1020) == 0x2200 && mem.word(0x1028) == 0x2300 && mem.int32(0x1030) == 0x58
    && mem.word(0x1040) == NULL
    && mem.cString(0x2000) == "JavaThread" && mem.cString(0x2100) == "_osthread"
    && mem.cString(0x2200) == "OSThread" && mem.cString(0x2300) == "_thread_id"
    && mem.word(0x7220) == 0x9000 && mem.int32(0x9058) == 4242
  }

  /** The test table ends at record 2 and yields both offsets. */
  lemma TestTableOffsets(mem: Memory)
    requires TestMemory(mem)
    ensures ReadEntry(SYMS, mem, 2).Terminator?
    ensures Discovered(Table(SYMS, mem, 2), OSTHREAD_TARGET, -1) == 0x220
    ensures Discovered(Table(SYMS, mem, 2), THREAD_ID_TARGET, -1) == 0x58
  {
    var table := Table(SYMS, mem, 2);
    assert table[0] == Record("JavaThread", "_osthread", 0x220);
    assert table[1] == Record("OSThread", "_thread_id", 0x58);
    assert table[2] == Terminator;
    FirstStopAt(table, 2);
    var live := Live(table);
    assert live == table[..2];
    LastOffsetStep(table[..2], 1, OSTHREAD_TARGET, -1);
    LastOffsetStep(table[..2], 0, OSTHREAD_TARGET, -1);
    LastOffsetStep(table[..2], 1, THREAD_ID_TARGET, -1);
    assert table[..2][..1][..0] == [];
  }

  /** Options without `;` form a single group. */
  lemma OneGroup(options: string, parseGroup: string -> Group, compiles: string -> bool, levelOk: u8 -> bool)
    requires ';' !in options
    ensures CompileGroups(Groups(options, parseGroup), compiles, levelOk) ==
      Accepted(CompileGroup(parseGroup(options), compiles, levelOk))
  {
    SplitNoSeparator(options, ';');
    assert Groups(options, parseGroup) == [parseGroup(options)];
    CompileSingle(parseGroup(options), compiles, levelOk);
  }

  const IDLE_RULE := ThreadPrio("Worker-.*", Idle)

  lemma IdleWorkerRules(options: string, parseGroup: string -> Group, compiles: string -> bool, levelOk: u8 -> bool)
    requires ';' !in options
    requires parseGroup(options) == map["thread_name" := "Worker-.*", "prio" := "idle"]
    requires compiles("Worker-.*")
    ensures CompileGroups(Groups(options, parseGroup), compiles, levelOk) == [IDLE_RULE]
  {
    OneGroup(options, parseGroup, compiles, levelOk);
    var g := parseGroup(options);
    assert THREAD_NAME_KEY in g && g[THREAD_NAME_KEY] == "Worker-.*";
    assert PRIO_KEY in g && g[PRIO_KEY] == IDLE;
    assert CompileGroup(g, compiles, levelOk) == Some(IDLE_RULE);
  }

  /** One group that the group parser reads as `thread_name=Worker-.*` and
      `prio=idle`, and a thread `Worker-3`: the idle class is asked for the
      thread's operating-system id. */
  method IdleWorker(options: string, parseGroup: string -> Group, compiles: string -> bool, levelOk: u8 -> bool,
                    isMatch: (string, string) -> bool, mem: Memory) returns (o: Outcome)
    requires TestMemory(mem)
    requires ';' !in options
    requires parseGroup(options) == map["thread_name" := "Worker-.*", "prio" := "idle"]
    requires compiles("Worker-.*") && isMatch("Worker-.*", "Worker-3")
    ensures o == SetPriority(4242, Idle)
  {
    IdleWorkerRules(options, parseGroup, compiles, levelOk);
    TestTableOffsets(mem);
    var agent := new GlobalState();
    agent.OnLoad(options, parseGroup, compiles, levelOk, Some(SYMS), mem, 2);
    assert agent.threadsPrio == [IDLE_RULE];
    assert agent.osthreadFieldOffset == 0x220 && agent.osThreadIdFieldOffset == 0x58;
    o := agent.OnThreadStart("Worker-3", 0x7000, mem, isMatch);
    assert LastMatch([IDLE_RULE], "Worker-3", isMatch) == Some(Idle);
  }


  lemma BestEffortRules(options: string, parseGroup: string -> Group, compiles: string -> bool, levelOk: u8 -> bool)
    requires ';' !in options
    requires parseGroup(options) == map["thread_name" := "Worker-.*", "prio" := "best_effort(4)"]
    ensures forall k :: 0 <= k < |CompileGroups(Groups(options, parseGroup), compiles, levelOk)| ==>
      CompileGroups(Groups(options, parseGroup), compiles, levelOk)[k].threadName == "Worker-.*"
  {
    OneGroup(options, parseGroup, compiles, levelOk);
    var g := parseGroup(options);
    assert g[THREAD_NAME_KEY] == "Worker-.*";
  }

  /** One group reading `thread_name=Worker-.*` and `prio=best_effort(4)`,
      and a thread whose name does not match: no call. */
  method UnmatchedThread(options: string, parseGroup: string -> Group, compiles: string -> bool, levelOk: u8 -> bool,
                         isMatch: (string, string) -> bool, mem: Memory) returns (o: Outcome)
    requires TestMemory(mem)
    requires ';' !in options
    requires parseGroup(options) == map["thread_name" := "Worker-.*", "prio" := "best_effort(4)"]
    requires !isMatch("Worker-.*", "main")
    ensures o == NoMatchingRule
  {
    BestEffortRules(options, parseGroup, compiles, levelOk);
    TestTableOffsets(mem);
    var agent := new GlobalState();
    agent.OnLoad(options, parseGroup, compiles, levelOk, Some(SYMS), mem, 2);
    o := agent.OnThreadStart("main", 0x7000, mem, isMatch);
    LastMatchNone(agent.threadsPrio, "main", isMatch);
  }

  /** `libjvm.so` is missing: whatever the rules and the thread, no call. */
  method MissingLibjvm(options: string, parseGroup: string -> Group, compiles: string -> bool, levelOk: u8 -> bool,
                       name: string, eetop: int, mem: Memory, isMatch: (string, string) -> bool) returns (o: Outcome)
    ensures !o.SetPriority?
  {
    var agent := new GlobalState();
    agent.OnLoad(options, parseGroup, compiles, levelOk, None, mem, 0);
    o := agent.OnThreadStart(name, eetop, mem, isMatch);
  }


  lemma UnknownPrioRules(options: string, parseGroup: string -> Group, compiles: string -> bool, levelOk: u8 -> bool)
    requires ';' !in options
    requires parseGroup(options) == map["thread_name" := ".*", "prio" := "fast"]
    ensures CompileGroups(Groups(options, parseGroup), compiles, levelOk) == []
  {
    OneGroup(options, parseGroup, compiles, levelOk);
    var g := parseGroup(options);
    assert PRIO_KEY in g && g[PRIO_KEY] == "fast";
    UnknownPrioRefused("fast", levelOk);
  }

  /** One group reading `thread_name=.*` and `prio=fast`: the group is
      dropped, so no thread gets a class from it. */
  method UnknownPrio(options: string, parseGroup: string -> Group, compiles: string -> bool, levelOk: u8 -> bool,
                     name: string, isMatch: (string, string) -> bool, mem: Memory) returns (o: Outcome)
    requires TestMemory(mem)
    requires ';' !in options
    requires parseGroup(options) == map["thread_name" := ".*", "prio" := "fast"]
    ensures o == NoMatchingRule
  {
    UnknownPrioRules(options, parseGroup, compiles, levelOk);
    TestTableOffsets(mem);
    var agent := new GlobalState();
    agent.OnLoad(options, parseGroup, compiles, levelOk, Some(SYMS), mem, 2);
    o := agent.OnThreadStart(name, 0x7000, mem, isMatch);
  }
}
