/** The rule compiler of `Agent_OnLoad`: the options string is split on `;`,
    every group is parsed into key/value arguments, and a group becomes a
    rule only when its `thread_name` pattern compiles and its `prio` names a
    priority class. Every other group is dropped on its own. */
module RuleCompiler {
  import opened Native
  import opened Text

  /** The I/O priority classes a rule can ask for. */
  datatype PrioClass = Idle | BestEffort(level: u8)

  /** A compiled rule: a thread-name pattern (known to compile) and a class. */
  datatype ThreadPrio = ThreadPrio(threadName: string, prioClass: PrioClass)

  /** The custom arguments of one option group, keyed by name. */
  type Group = map<string, string>

  const THREAD_NAME_KEY := "thread_name"
  const PRIO_KEY := "prio"
  const IDLE := "idle"
  const BEST_EFFORT_PREFIX := "best_effort("

  /** Reads the `prio` argument. `levelOk` stands for
      `BePriorityLevel::from_level` accepting a level. */
  function ParsePrio(prio: string, levelOk: u8 -> bool): (c: Option<PrioClass>)
    ensures c == Some(Idle) <==> prio == IDLE
    ensures c.Some? && c.value.BestEffort? ==> levelOk(c.value.level)
  {
    if prio == IDLE then Some(Idle)
    else match StripPrefix(TrimEnd(prio, ')'), BEST_EFFORT_PREFIX)
      case None => None
      case Some(level) =>
        match ParseU8(level)
        case None => None
        case Some(n) => if levelOk(n) then Some(BestEffort(n)) else None
  }

  /** A spelling of a class as an operator would write it: `idle`, or
      `best_effort(` with the decimal level and any number of closing
      parentheses (none, one, or more). */
  function Spell(c: PrioClass, closers: nat): string
  {
    match c
    case Idle => IDLE
    case BestEffort(n) => BEST_EFFORT_PREFIX + Decimal(n as nat) + Repeat(')', closers)
  }

  /** Every spelling of an acceptable class is read back as that class:
      `best_effort(3`, `best_effort(3)` and `best_effort(3)))` all give
      `BestEffort(3)`. */
  lemma ParsePrioSpell(c: PrioClass, closers: nat, levelOk: u8 -> bool)
    requires c.BestEffort? ==> levelOk(c.level)
    ensures ParsePrio(Spell(c, closers), levelOk) == Some(c)
  {
    if c.BestEffort? {
      var digits := Decimal(c.level as nat);
      DecimalDigits(c.level as nat);
      var body := BEST_EFFORT_PREFIX + digits;
      assert body[|body| - 1] == digits[|digits| - 1];
      TrimEndRepeat(body, ')', closers);
      assert Spell(c, closers) == body + Repeat(')', closers);
      assert body[|BEST_EFFORT_PREFIX|..] == digits;
      ParseU8Decimal(c.level);
      assert |Spell(c, closers)| > |IDLE|;
    }
  }

  /** A level that `from_level` refuses drops the group, however spelled. */
  lemma LevelRefused(n: u8, closers: nat, levelOk: u8 -> bool)
    requires !levelOk(n)
    ensures ParsePrio(Spell(BestEffort(n), closers), levelOk) == None
  {
    var digits := Decimal(n as nat);
    DecimalDigits(n as nat);
    var body := BEST_EFFORT_PREFIX + digits;
    assert body[|body| - 1] == digits[|digits| - 1];
    TrimEndRepeat(body, ')', closers);
    assert Spell(BestEffort(n), closers) == body + Repeat(')', closers);
    assert body[|BEST_EFFORT_PREFIX|..] == digits;
    ParseU8Decimal(n);
    assert |Spell(BestEffort(n), closers)| > |IDLE|;
  }

  /** Conversely, a best-effort class comes only from `best_effort(`, a
      level text that parses as that level, and closing parentheses. */
  lemma ParsePrioBestEffortSound(prio: string, levelOk: u8 -> bool, n: u8)
    requires ParsePrio(prio, levelOk) == Some(BestEffort(n))
    ensures levelOk(n)
    ensures exists level: string, k: nat ::
      prio == BEST_EFFORT_PREFIX + level + Repeat(')', k) && ParseU8(level) == Some(n)
  {
    var t := TrimEnd(prio, ')');
    TrimEndSplits(prio, ')');
    var level := t[|BEST_EFFORT_PREFIX|..];
    assert t == BEST_EFFORT_PREFIX + level;
    assert prio == BEST_EFFORT_PREFIX + level + Repeat(')', |prio| - |t|);
  }

  /** Text that is neither `idle` nor starts with `best_effort(` (for
      instance `fast`) names no class. */
  lemma UnknownPrioRefused(prio: string, levelOk: u8 -> bool)
    requires prio != IDLE && !(BEST_EFFORT_PREFIX <= prio)
    ensures ParsePrio(prio, levelOk) == None
  {
  }

  /** One group: `compiles` stands for `Regex::new` succeeding. */
  function CompileGroup(g: Group, compiles: string -> bool, levelOk: u8 -> bool): (r: Option<ThreadPrio>)
    ensures r.Some? ==> THREAD_NAME_KEY in g && PRIO_KEY in g
    ensures r.Some? ==> r.value.threadName == g[THREAD_NAME_KEY] && compiles(r.value.threadName)
    ensures r.Some? ==> ParsePrio(g[PRIO_KEY], levelOk) == Some(r.value.prioClass)
  {
    if THREAD_NAME_KEY !in g || !compiles(g[THREAD_NAME_KEY]) then None
    else if PRIO_KEY !in g then None
    else match ParsePrio(g[PRIO_KEY], levelOk)
      case None => None
      case Some(c) => Some(ThreadPrio(g[THREAD_NAME_KEY], c))
  }

  /** The group an operator writes for a rule. */
  function RuleGroup(rule: ThreadPrio, closers: nat): Group
  {
    map[THREAD_NAME_KEY := rule.threadName, PRIO_KEY := Spell(rule.prioClass, closers)]
  }

  /** Any rule whose pattern compiles and whose level is acceptable is
      compiled back from its group, whatever other arguments the group has. */
  lemma CompileRuleGroup(rule: ThreadPrio, closers: nat, extra: Group, compiles: string -> bool, levelOk: u8 -> bool)
    requires compiles(rule.threadName)
    requires rule.prioClass.BestEffort? ==> levelOk(rule.prioClass.level)
    ensures CompileGroup(extra + RuleGroup(rule, closers), compiles, levelOk) == Some(rule)
  {
    ParsePrioSpell(rule.prioClass, closers, levelOk);
  }

  /** Only `thread_name` and `prio` decide what a group compiles to. */
  lemma CompileGroupReadsTwoKeys(g1: Group, g2: Group, compiles: string -> bool, levelOk: u8 -> bool)
    requires THREAD_NAME_KEY in g1 <==> THREAD_NAME_KEY in g2
    requires PRIO_KEY in g1 <==> PRIO_KEY in g2
    requires THREAD_NAME_KEY in g1 ==> g1[THREAD_NAME_KEY] == g2[THREAD_NAME_KEY]
    requires PRIO_KEY in g1 ==> g1[PRIO_KEY] == g2[PRIO_KEY]
    ensures CompileGroup(g1, compiles, levelOk) == CompileGroup(g2, compiles, levelOk)
  {
  }

  function Accepted(r: Option<ThreadPrio>): seq<ThreadPrio>
  {
    if r.Some? then [r.value] else []
  }

  /** The rules compiled from a sequence of groups, in the groups' order. */
  function CompileGroups(gs: seq<Group>, compiles: string -> bool, levelOk: u8 -> bool): (rs: seq<ThreadPrio>)
    ensures |rs| <= |gs|
    ensures forall k :: 0 <= k < |rs| ==> compiles(rs[k].threadName)
  {
    if |gs| == 0 then []
    else CompileGroups(gs[..|gs| - 1], compiles, levelOk) + Accepted(CompileGroup(gs[|gs| - 1], compiles, levelOk))
  }

  /** Compiling consecutive runs of groups is compiling each run. */
  lemma {:induction false} CompileGroupsAppend(a: seq<Group>, b: seq<Group>, compiles: string -> bool, levelOk: u8 -> bool)
    ensures CompileGroups(a + b, compiles, levelOk) == CompileGroups(a, compiles, levelOk) + CompileGroups(b, compiles, levelOk)
    decreases |b|
  {
    if |b| == 0 {
      assert a + b == a;
    } else {
      var b' := b[..|b| - 1];
      assert (a + b)[..|a + b| - 1] == a + b';
      CompileGroupsAppend(a, b', compiles, levelOk);
    }
  }

  /** A dropped group leaves the rules of all the other groups as they are. */
  lemma DroppedGroupSkipped(a: seq<Group>, g: Group, b: seq<Group>, compiles: string -> bool, levelOk: u8 -> bool)
    requires CompileGroup(g, compiles, levelOk) == None
    ensures CompileGroups(a + [g] + b, compiles, levelOk) == CompileGroups(a + b, compiles, levelOk)
  {
    CompileGroupsAppend(a + [g], b, compiles, levelOk);
    CompileGroupsAppend(a, [g], compiles, levelOk);
    CompileGroupsAppend(a, b, compiles, levelOk);
    CompileSingle(g, compiles, levelOk);
  }

  lemma CompileSingle(g: Group, compiles: string -> bool, levelOk: u8 -> bool)
    ensures CompileGroups([g], compiles, levelOk) == Accepted(CompileGroup(g, compiles, levelOk))
  {
    assert [g][..0] == [];
  }

  /** An accepted group contributes its rule exactly at its own place. */
  lemma AcceptedGroupKept(a: seq<Group>, g: Group, b: seq<Group>, compiles: string -> bool, levelOk: u8 -> bool)
    requires CompileGroup(g, compiles, levelOk).Some?
    ensures CompileGroups(a + [g] + b, compiles, levelOk) ==
      CompileGroups(a, compiles, levelOk) + [CompileGroup(g, compiles, levelOk).value] + CompileGroups(b, compiles, levelOk)
  {
    CompileGroupsAppend(a + [g], b, compiles, levelOk);
    CompileGroupsAppend(a, [g], compiles, levelOk);
    CompileSingle(g, compiles, levelOk);
  }

  /** The compiled rules are exactly the rules of the accepted groups. */
  lemma {:induction false} CompileGroupsMembers(gs: seq<Group>, rule: ThreadPrio, compiles: string -> bool, levelOk: u8 -> bool)
    ensures rule in CompileGroups(gs, compiles, levelOk) <==>
      exists i :: 0 <= i < |gs| && CompileGroup(gs[i], compiles, levelOk) == Some(rule)
    decreases |gs|
  {
    if |gs| > 0 {
      var front := gs[..|gs| - 1];
      CompileGroupsMembers(front, rule, compiles, levelOk);
      if rule in CompileGroups(gs, compiles, levelOk) {
        if rule in CompileGroups(front, compiles, levelOk) {
          var i :| 0 <= i < |front| && CompileGroup(front[i], compiles, levelOk) == Some(rule);
          assert gs[i] == front[i];
        } else {
          assert CompileGroup(gs[|gs| - 1], compiles, levelOk) == Some(rule);
        }
      } else {
        forall i | 0 <= i < |gs|
          ensures CompileGroup(gs[i], compiles, levelOk) != Some(rule)
        {
          if i < |front| { assert gs[i] == front[i]; }
        }
      }
    }
  }

  /** The groups of an options string: `options.split(';')`, each piece
      parsed by `parseGroup` (standing for `Options::parse`). */
  function Groups(options: string, parseGroup: string -> Group): (gs: seq<Group>)
    ensures |gs| == |Split(options, ';')|
    ensures forall i :: 0 <= i < |gs| ==> gs[i] == parseGroup(Split(options, ';')[i])
  {
    var pieces := Split(options, ';');
    seq(|pieces|, i requires 0 <= i < |pieces| => parseGroup(pieces[i]))
  }

  /** The loop of `Agent_OnLoad` that builds the local list of rules. */
  method CompileRules(options: string, parseGroup: string -> Group, compiles: string -> bool, levelOk: u8 -> bool)
    returns (threadsPrio: seq<ThreadPrio>)
    ensures threadsPrio == CompileGroups(Groups(options, parseGroup), compiles, levelOk)
  {
    var pieces := Split(options, ';');
    ghost var groups := Groups(options, parseGroup);
    threadsPrio := [];
    for i := 0 to |pieces|
      invariant threadsPrio == CompileGroups(groups[..i], compiles, levelOk)
    {
      assert groups[..i + 1][..i] == groups[..i];
      var threadOptions := parseGroup(pieces[i]);
      if THREAD_NAME_KEY !in threadOptions { continue; }
      var threadName := threadOptions[THREAD_NAME_KEY];
      if !compiles(threadName) { continue; }
      if PRIO_KEY !in threadOptions { continue; }
      var prio := threadOptions[PRIO_KEY];
      var prioClass := ParsePrio(prio, levelOk);
      if prioClass.None? { continue; }
      threadsPrio := threadsPrio + [ThreadPrio(threadName, prioClass.value)];
    }
    assert groups[..|pieces|] == groups;
  }
}
