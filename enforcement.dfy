/** The decision `on_thread_start` makes for a newly started thread: the
    class of the last rule whose pattern matches the thread name, and the
    operating-system thread id read through the two discovered offsets. */
module Enforcement {
  import opened Native
  import opened RuleCompiler

  /** What one thread-start event ends in: no rule matched; a rule matched
      but an offset is still the sentinel; or a call that sets the thread's
      I/O priority class. */
  datatype Outcome =
    | NoMatchingRule
    | OffsetsUnknown
    | SetPriority(osThreadId: i32, prioClass: PrioClass)

  /** Rule `i` matches and no later rule does. `isMatch(pattern, name)`
      stands for `Regex::is_match`. */
  predicate IsLastMatch(rules: seq<ThreadPrio>, i: int, name: string, isMatch: (string, string) -> bool)
  {
    0 <= i < |rules| && isMatch(rules[i].threadName, name) &&
    forall j :: i < j < |rules| ==> !isMatch(rules[j].threadName, name)
  }

  /** The class chosen by scanning the rules in order, each match replacing
      the previous choice. */
  function LastMatch(rules: seq<ThreadPrio>, name: string, isMatch: (string, string) -> bool): Option<PrioClass>
  {
    if |rules| == 0 then None
    else if isMatch(rules[|rules| - 1].threadName, name) then Some(rules[|rules| - 1].prioClass)
    else LastMatch(rules[..|rules| - 1], name, isMatch)
  }

  /** No class is chosen exactly when no rule matches. */
  lemma {:induction false} LastMatchNone(rules: seq<ThreadPrio>, name: string, isMatch: (string, string) -> bool)
    ensures LastMatch(rules, name, isMatch).None? <==> forall i :: 0 <= i < |rules| ==> !isMatch(rules[i].threadName, name)
    decreases |rules|
  {
    if |rules| > 0 {
      var front := rules[..|rules| - 1];
      LastMatchNone(front, name, isMatch);
      assert forall i :: 0 <= i < |front| ==> front[i] == rules[i];
    }
  }

  /** Otherwise the class is that of the last matching rule, not the first. */
  lemma {:induction false} LastMatchIsLast(rules: seq<ThreadPrio>, i: int, name: string, isMatch: (string, string) -> bool)
    requires IsLastMatch(rules, i, name, isMatch)
    ensures LastMatch(rules, name, isMatch) == Some(rules[i].prioClass)
    decreases |rules|
  {
    if i < |rules| - 1 {
      var front := rules[..|rules| - 1];
      assert forall j :: 0 <= j < |front| ==> front[j] == rules[j];
      LastMatchIsLast(front, i, name, isMatch);
    }
  }

  /** The two-step resolution of the operating-system thread id: the
      `OSThread` pointer stored at `eetop + osthreadOffset`, then the `i32`
      stored at that pointer plus `threadIdOffset`. */
  function ResolveOsThreadId(mem: Memory, eetop: int, osthreadOffset: int, threadIdOffset: int): i32
  {
    mem.int32(mem.word(eetop + osthreadOffset) + threadIdOffset)
  }

  /** The whole decision for one thread. */
  function Decide(rules: seq<ThreadPrio>, osthreadOffset: int, threadIdOffset: int,
                  name: string, eetop: int, mem: Memory, isMatch: (string, string) -> bool): Outcome
  {
    match LastMatch(rules, name, isMatch)
    case None => NoMatchingRule
    case Some(c) =>
      if osthreadOffset < 0 || threadIdOffset < 0 then OffsetsUnknown
      else SetPriority(ResolveOsThreadId(mem, eetop, osthreadOffset, threadIdOffset), c)
  }

  /** The three outcomes, each with the condition that leads to it. */
  lemma DecideOutcomes(rules: seq<ThreadPrio>, osthreadOffset: int, threadIdOffset: int,
                       name: string, eetop: int, mem: Memory, isMatch: (string, string) -> bool)
    ensures var o := Decide(rules, osthreadOffset, threadIdOffset, name, eetop, mem, isMatch);
      && (o == NoMatchingRule <==> forall i :: 0 <= i < |rules| ==> !isMatch(rules[i].threadName, name))
      && (o == OffsetsUnknown <==>
            (exists i :: 0 <= i < |rules| && isMatch(rules[i].threadName, name)) &&
            (osthreadOffset < 0 || threadIdOffset < 0))
      && (forall i :: IsLastMatch(rules, i, name, isMatch) && osthreadOffset >= 0 && threadIdOffset >= 0 ==>
            o == SetPriority(mem.int32(mem.word(eetop + osthreadOffset) + threadIdOffset), rules[i].prioClass))
  {
    LastMatchNone(rules, name, isMatch);
    forall i | IsLastMatch(rules, i, name, isMatch)
      ensures LastMatch(rules, name, isMatch) == Some(rules[i].prioClass)
    {
      LastMatchIsLast(rules, i, name, isMatch);
    }
  }

  /** While an offset is the sentinel, the decision reads no foreign memory
      (any two memories give the same result) and makes no call. */
  lemma SentinelReadsNoMemory(rules: seq<ThreadPrio>, osthreadOffset: int, threadIdOffset: int,
                              name: string, eetop: int, mem1: Memory, mem2: Memory, isMatch: (string, string) -> bool)
    requires osthreadOffset < 0 || threadIdOffset < 0
    ensures Decide(rules, osthreadOffset, threadIdOffset, name, eetop, mem1, isMatch) ==
            Decide(rules, osthreadOffset, threadIdOffset, name, eetop, mem2, isMatch)
    ensures !Decide(rules, osthreadOffset, threadIdOffset, name, eetop, mem1, isMatch).SetPriority?
  {
  }

  /** With both offsets known, exactly two cells are read: the pointer at
      `eetop + osthreadOffset` and the `i32` it leads to. */
  lemma ResolutionReadsTwoCells(rules: seq<ThreadPrio>, osthreadOffset: int, threadIdOffset: int,
                                name: string, eetop: int, mem1: Memory, mem2: Memory, isMatch: (string, string) -> bool)
    requires mem1.word(eetop + osthreadOffset) == mem2.word(eetop + osthreadOffset)
    requires mem1.int32(mem1.word(eetop + osthreadOffset) + threadIdOffset) ==
             mem2.int32(mem1.word(eetop + osthreadOffset) + threadIdOffset)
    ensures Decide(rules, osthreadOffset, threadIdOffset, name, eetop, mem1, isMatch) ==
            Decide(rules, osthreadOffset, threadIdOffset, name, eetop, mem2, isMatch)
  {
  }
}
