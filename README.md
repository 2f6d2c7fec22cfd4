# java-ionice: a Dafny model of the agent's core

java-ionice is a JVMTI agent. It gives each newly started Java thread an
operating-system I/O scheduling class, chosen by matching the thread's name
against regular expressions taken from the agent's options string. This project
models the three sequential algorithms inside `src/lib.rs` and proves what they
do:

1. **The rule compiler** in `Agent_OnLoad`. It splits the options string on
   `;`, reads `thread_name` and `prio` from each group, and keeps a group as a
   `ThreadPrio` rule only when the pattern compiles and `prio` is `idle` or
   `best_effort(<level>)` with an accepted level. The surviving rules are
   appended, in order, to the process-wide rule list (module `RuleCompiler`,
   with the Rust string operations it uses in `Text`).
2. **The `gHotSpotVMStructs` layout-table walk**. It scans fixed-stride
   records from the table's address and stops at the first record with a null
   type-name or field-name pointer. It stores the offset of every
   `JavaThread::_osthread` record and every `OSThread::_thread_id` record into
   the offset cell for that pair. Both cells start at the sentinel `-1`
   (modules `VmStructs` and `Agent`).
3. **The per-thread decision** in `on_thread_start`. It picks the class of
   the last rule that matches the thread name. It does nothing if no rule
   matches. It returns before touching memory while either offset is
   negative. Otherwise it reads the OS thread id as
   `int32[word[eetop + off1] + off2]` and asks for the class
   (modules `Enforcement` and `Agent`).

The library's three statics (`THREADS_PRIO`, `OSTHREAD_FIELD_OFFSET`,
`OS_THREAD_ID_FIELD_OFFSET`) are the fields of the class
`Agent.GlobalState`. `OnLoad` and `WalkVmStructs` update those fields in
place, and `OnThreadStart` only reads them. The `Scenarios` module runs the
whole agent on a small concrete layout table.

Collaborators the model cannot see become parameters:
- `Regex::new` succeeding is `compiles: string -> bool`.
- `Regex::is_match` is `isMatch: (pattern, name) -> bool`.
- `BePriorityLevel::from_level` accepting a level is `levelOk: u8 -> bool`.
- `Options::parse` is `parseGroup: string -> map<string, string>`.
- Foreign memory is a `Memory` value of three total read functions: a
  pointer-sized word, an `i32`, and the C string at an address.
- The symbols found in `libjvm.so` are `libjvm: Option<VmSymbols>`, with
  `None` when the library did not open.
- The thread's `eetop` field is an input.

The priority call is the outcome `SetPriority(osThreadId, class)`.

`level.parse()` is modelled as Rust's `u8` parser:
- an optional leading `+`;
- then one or more ASCII digits;
- a value of at most 255.

This assumes `from_level` takes a `u8`, which is ioprio's signature and is not
visible in `src/lib.rs`.

Where the design description and the code differ, the model follows the code:
- **Repeated matches.** The design says each offset changes at most once,
  from the sentinel to a non-negative value. The code stores on every
  matching record (the last occurrence wins) and stores any `i32`, including
  a negative one. A negative stored offset then disables enforcement, like
  the sentinel does (`LastMatchWins`, `DecideOutcomes`).
- **The `best_effort(` syntax is more permissive.** The design accepts only
  `best_effort(<level>)`. The code strips every trailing `)`, so
  `best_effort(3`, `best_effort(3)` and `best_effort(3)))` are all accepted,
  and so are `best_effort(+3)` and `best_effort(003)`. An out-of-range level
  is whatever `from_level` refuses.
- **Separators in the example options.** An example in the design writes
  `thread_name=Worker-.*;prio=idle`. The code splits that text on `;` into two
  groups, each missing one of the two keys, so both would be dropped. The
  scenarios therefore use a single group (no `;`) that carries both keys.

## Model

| member | source | states |
|---|---|---|
| `Text.Split` | src/lib.rs:64 | `split(';')` yields at least one piece, and no piece contains the separator |
| `Text.JoinSplit` | src/lib.rs:64 | joining the pieces with `;` gives back the options string |
| `Text.SplitJoin` | src/lib.rs:64 | splitting a join of separator-free pieces gives back exactly those pieces |
| `Text.TrimEnd` | src/lib.rs:81 | `trim_end_matches(')')` returns a prefix that does not end in `)`; everything removed was `)` |
| `Text.TrimEndSplits` | src/lib.rs:81 | the original is the trimmed text followed by a run of `)` |
| `Text.TrimEndRepeat` | src/lib.rs:81 | any number of trailing `)` after a text not ending in `)` is removed, and nothing else |
| `Text.StripPrefix` | src/lib.rs:81 | `strip_prefix` succeeds exactly when the prefix is present, and then prefix + rest is the input |
| `Text.ParseU8` | src/lib.rs:83 | a parsed level comes from a non-empty text of digits, optionally with a leading `+` |
| `Text.ParseU8Decimal` | src/lib.rs:83 | the decimal spelling of every `u8` parses back to it |
| `Text.ParseU8PlusSign` | src/lib.rs:83 | a leading `+` before the digits is accepted |
| `Text.ParseU8Refused` | src/lib.rs:83 | empty text, a `-` sign, or a value above 255 does not parse |
| `RuleCompiler.ParsePrio` | src/lib.rs:76-98 | the class is `Idle` exactly when `prio` is `idle`; a best-effort level is always one `from_level` accepts |
| `RuleCompiler.ParsePrioSpell` | src/lib.rs:78-86 | `idle` and `best_effort(n` followed by any number of `)` (none, one or several) are read back as their class |
| `RuleCompiler.LevelRefused` | src/lib.rs:84-88 | a level `from_level` refuses drops the group, however it is parenthesised |
| `RuleCompiler.ParsePrioBestEffortSound` | src/lib.rs:80-86 | a best-effort class arises only from `best_effort(` + a level text that parses to it + trailing `)`s, and its level is accepted |
| `RuleCompiler.UnknownPrioRefused` | src/lib.rs:81-93 | text that is neither `idle` nor starts with `best_effort(` (e.g. `fast`) gives no class |
| `RuleCompiler.CompileGroup` | src/lib.rs:65-101 | a group becomes a rule only if both keys are present, the pattern compiles, and `prio` parses; the rule carries that pattern and class |
| `RuleCompiler.CompileRuleGroup` | src/lib.rs:66-101 | every rule with a compiling pattern and an acceptable class is compiled back from its group, whatever other arguments it has |
| `RuleCompiler.CompileGroupReadsTwoKeys` | src/lib.rs:66-98 | only the `thread_name` and `prio` arguments decide a group's result |
| `RuleCompiler.CompileGroups` | src/lib.rs:63-102 | at most one rule per group, and every compiled rule's pattern compiles |
| `RuleCompiler.CompileGroupsAppend` | src/lib.rs:63-102 | the rules of consecutive groups are the rules of each run, in order |
| `RuleCompiler.DroppedGroupSkipped` | src/lib.rs:63-102 | a dropped group (bad pattern, missing key, bad prio) leaves the rules from all other groups unchanged |
| `RuleCompiler.CompileSingle` | src/lib.rs:99-101 | one group contributes its rule, or nothing |
| `RuleCompiler.AcceptedGroupKept` | src/lib.rs:99-101 | an accepted group's rule appears exactly at its group's position |
| `RuleCompiler.CompileGroupsMembers` | src/lib.rs:63-102 | a rule is compiled if and only if some group compiles to it |
| `RuleCompiler.Groups` | src/lib.rs:64-65 | one parsed group per `;`-separated piece, in order |
| `RuleCompiler.CompileRules` | src/lib.rs:63-102 | the loop builds exactly the rules of the accepted groups, in their original order |
| `VmStructs.ReadEntry` | src/lib.rs:125-139 | a record is the end marker exactly when its type-name or field-name pointer is null |
| `VmStructs.Table` | src/lib.rs:123-152 | record `k` is read at `structs + k * stride` |
| `VmStructs.FirstStop` | src/lib.rs:131-133 | the walk's stopping index: the first end marker, with only real records before it |
| `VmStructs.FirstStopAt` | src/lib.rs:131-133 | an end marker preceded only by real records is where the walk stops |
| `VmStructs.LastOffsetStep` | src/lib.rs:136-150 | one more record overwrites the slot exactly when it names the slot's pair |
| `VmStructs.NextEntryAddress` | src/lib.rs:152 | advancing by the stride reaches the next record |
| `VmStructs.NoMatchKeepsSlot` | src/lib.rs:136-150 | with no record for its pair, a slot keeps its value (the sentinel `-1`) |
| `VmStructs.LastMatchWins` | src/lib.rs:141-148 | with repeated records for a pair, the slot holds the last record's offset |
| `VmStructs.SlotChangedOnlyByMatch` | src/lib.rs:136-150 | a slot differs from its initial value only if a record with its exact pair occurs before the end marker |
| `VmStructs.StopsAtTerminator` | src/lib.rs:131-133 | no record at or after the first end marker affects either slot |
| `VmStructs.LiveCons` | src/lib.rs:131-152 | a real first record is visited, then the walk continues with the rest |
| `VmStructs.OtherRecordIgnored` | src/lib.rs:150 | a record for another pair (including the other target) changes nothing in a slot |
| `VmStructs.TableBoundIrrelevant` | src/lib.rs:124-133 | the discovered offsets do not depend on which end marker bounds the table |
| `Enforcement.LastMatchNone` | src/lib.rs:172-184 | no class is chosen exactly when no rule matches the thread name |
| `Enforcement.LastMatchIsLast` | src/lib.rs:175-179 | the chosen class is that of the last matching rule in list order, not the first |
| `Enforcement.DecideOutcomes` | src/lib.rs:184-209 | the outcomes are: no rule matches / some rule matches but an offset is negative / the last match's class is set for `int32[word[eetop + off1] + off2]` |
| `Enforcement.SentinelReadsNoMemory` | src/lib.rs:191-198 | with a negative offset, the decision is the same for every memory and makes no call |
| `Enforcement.ResolutionReadsTwoCells` | src/lib.rs:200-205 | the resolved id depends only on the word at `eetop + off1` and the `i32` at that word `+ off2` |
| `Agent.GlobalState.constructor` | src/lib.rs:28-33 | an empty rule list and both offsets at the sentinel `-1` |
| `Agent.GlobalState.ExtendRules` | src/lib.rs:103-104 | the shared list becomes the old list followed by the new rules |
| `Agent.GlobalState.WalkVmStructs` | src/lib.rs:123-153 | each offset cell ends as its pair's last offset before the first end marker, or its old value |
| `Agent.GlobalState.OnLoad` | src/lib.rs:57-156 | the rule list is extended by the compiled rules; the offsets are discovered if `libjvm.so` opened, and are otherwise untouched |
| `Agent.GlobalState.OnThreadStart` | src/lib.rs:164-209 | the outcome is the decision for the current rules and offsets: last match, sentinel gate, two-step resolution |
| `Scenarios.TestTableOffsets` | src/lib.rs:123-153 | a three-record table with both pairs yields offsets 0x220 and 0x58 |
| `Scenarios.OneGroup` | src/lib.rs:64-65 | options without `;` form a single group |
| `Scenarios.IdleWorkerRules` | src/lib.rs:63-104 | a group with `thread_name=Worker-.*` and `prio=idle` compiles to one Idle rule |
| `Scenarios.IdleWorker` | src/lib.rs:57-211 | after loading, thread `Worker-3` gets `SetPriority(4242, Idle)` |
| `Scenarios.BestEffortRules` | src/lib.rs:63-104 | a `best_effort(4)` group compiles only to rules with its pattern |
| `Scenarios.UnmatchedThread` | src/lib.rs:172-184 | a thread matching no rule gets no call |
| `Scenarios.MissingLibjvm` | src/lib.rs:112-198 | when `libjvm.so` is missing, no thread ever gets a call |
| `Scenarios.UnknownPrioRules` | src/lib.rs:76-97 | a `prio=fast` group compiles to no rule |
| `Scenarios.UnknownPrio` | src/lib.rs:63-184 | with only a `prio=fast` group, no thread gets a class |

## Left out

- JVMTI plumbing is not modelled: `Agent::new`, registering `on_thread_start`, `agent.update()`, `static_context().thread_start`, and the JNI calls that fetch `eetop` (src/lib.rs:158-161, 186-189, 218). `eetop` is an input.
- Opening `libjvm.so` and loading its five symbols (src/lib.rs:112-116) are not modelled; the caller supplies the symbol values. If a symbol is missing, `.expect` at src/lib.rs:116 panics. The model has no such path: `Some(symbols)` stands for a library with every symbol present.
- `Options::parse` and `stringify` belong to the jvmti crate and are not visible. Group parsing is the `parseGroup` parameter, and the options string is taken as already decoded.
- The regex crate is not visible. Compiling and matching are the `compiles` and `isMatch` parameters.
- The ioprio crate is not visible. `from_level` is the `levelOk` parameter, whose 0..7 range is not visible either. `set_priority` is the `SetPriority` outcome: its success or failure, and its `Target::Process` choice (src/lib.rs:208-215), are not modelled.
- Concurrency is left out: `RwLock`, `Arc` and the atomic cells are plain fields of one object. The `Err` arms of the poisoned `write()` and `read()` (src/lib.rs:105, 181) are not modelled, because a lock cannot be poisoned in a sequential model.
- Raw pointer reads are total reads of an abstract `Memory`. A read is never undefined, and `to_string_lossy` decoding is not modelled; names are strings.
- Overflow in the address arithmetic is not modelled: addresses are unbounded integers. This covers the `usize` sums in the walk and the `i64`/`isize` sums in `on_thread_start`, which would panic in a debug build and wrap in a release build.
- `Agent.GlobalState.WalkVmStructs`: it requires a caller-named record `end` to be an end marker. The source relies on one existing, and without it the loop would run past the table.
- Logging (`println!`) is not modelled.
