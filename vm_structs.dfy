/** The layout table `gHotSpotVMStructs` exported by `libjvm.so`: an array of
    fixed-stride records, each holding a type-name pointer, a field-name
    pointer and an `i32` field offset, ended by the first record with a null
    name pointer. This module decodes the table from memory and says which
    offset the walk in `Agent_OnLoad` discovers for a (type, field) pair. */
module VmStructs {
  import opened Native

  /** The values of the five exported symbols: the table address, the
      record stride, and where in a record the three columns sit. */
  datatype VmSymbols = VmSymbols(structs: nat, stride: nat, typeOffset: nat, fieldOffset: nat, offsetOffset: nat)

  /** One record as the walk sees it: the end marker, or the two names and
      the offset stored beside them. */
  datatype Entry = Terminator | Record(typeName: string, fieldName: string, offset: i32)

  /** A (type, field) pair whose offset is looked for. */
  datatype Target = Target(typeName: string, fieldName: string)

  /** `JavaThread::_osthread`: where a thread's `OSThread` pointer lives. */
  const OSTHREAD_TARGET := Target("JavaThread", "_osthread")
  /** `OSThread::_thread_id`: where the operating-system thread id lives. */
  const THREAD_ID_TARGET := Target("OSThread", "_thread_id")

  /** The address of the record with index `k`. */
  function EntryAddress(syms: VmSymbols, k: nat): int
  {
    syms.structs + k * syms.stride
  }

  /** Record `k` read from memory: a null type-name or field-name pointer
      makes it the end marker. */
  function ReadEntry(syms: VmSymbols, mem: Memory, k: nat): (e: Entry)
    ensures e.Terminator? <==>
      mem.word(EntryAddress(syms, k) + syms.typeOffset) == NULL ||
      mem.word(EntryAddress(syms, k) + syms.fieldOffset) == NULL
  {
    var addr := EntryAddress(syms, k);
    var typePtr := mem.word(addr + syms.typeOffset);
    var fieldPtr := mem.word(addr + syms.fieldOffset);
    if typePtr == NULL || fieldPtr == NULL then Terminator
    else Record(mem.cString(typePtr), mem.cString(fieldPtr), mem.int32(addr + syms.offsetOffset))
  }

  /** Records 0 through `end`. */
  function Table(syms: VmSymbols, mem: Memory, end: nat): (t: seq<Entry>)
    ensures |t| == end + 1
    ensures forall k :: 0 <= k <= end ==> t[k] == ReadEntry(syms, mem, k)
  {
    seq(end + 1, k requires 0 <= k <= end => ReadEntry(syms, mem, k))
  }

  /** The index of the first end marker, or the length if there is none. */
  function FirstStop(es: seq<Entry>): (n: nat)
    ensures n <= |es|
    ensures n < |es| ==> es[n].Terminator?
    ensures forall i :: 0 <= i < n ==> es[i].Record?
  {
    if |es| == 0 || es[0].Terminator? then 0 else 1 + FirstStop(es[1..])
  }

  lemma {:induction false} FirstStopAt(es: seq<Entry>, k: nat)
    requires k < |es| && es[k].Terminator?
    requires forall i :: 0 <= i < k ==> es[i].Record?
    ensures FirstStop(es) == k
    decreases k
  {
    if k > 0 {
      FirstStopAt(es[1..], k - 1);
    }
  }

  /** The records the walk visits: everything before the first end marker. */
  function Live(es: seq<Entry>): seq<Entry>
  {
    es[..FirstStop(es)]
  }

  predicate Matches(e: Entry, t: Target)
  {
    e.Record? && e.typeName == t.typeName && e.fieldName == t.fieldName
  }

  /** The slot value after offering the records `es` in order to a slot
      holding `init`: every record that matches `t` overwrites it. */
  function LastOffset(es: seq<Entry>, t: Target, init: int): int
  {
    if |es| == 0 then init
    else if Matches(es[|es| - 1], t) then es[|es| - 1].offset as int
    else LastOffset(es[..|es| - 1], t, init)
  }

  /** Offering one more record. */
  lemma LastOffsetStep(es: seq<Entry>, k: nat, t: Target, init: int)
    requires k < |es|
    ensures LastOffset(es[..k + 1], t, init) ==
      if Matches(es[k], t) then es[k].offset as int else LastOffset(es[..k], t, init)
  {
    assert es[..k + 1][..k] == es[..k];
  }

  lemma NextEntryAddress(syms: VmSymbols, k: nat)
    ensures EntryAddress(syms, k + 1) == EntryAddress(syms, k) + syms.stride
  {
    assert (k + 1) * syms.stride == k * syms.stride + syms.stride;
  }

  /** The offset the walk leaves in a slot that held `init`. */
  function Discovered(es: seq<Entry>, t: Target, init: int): int
  {
    LastOffset(Live(es), t, init)
  }

  /** A slot that no record matches keeps its value. */
  lemma {:induction false} NoMatchKeepsSlot(es: seq<Entry>, t: Target, init: int)
    requires forall i :: 0 <= i < |es| ==> !Matches(es[i], t)
    ensures LastOffset(es, t, init) == init
    decreases |es|
  {
    if |es| > 0 {
      var front := es[..|es| - 1];
      assert forall i :: 0 <= i < |front| ==> front[i] == es[i];
      NoMatchKeepsSlot(front, t, init);
    }
  }

  /** Otherwise the slot holds the offset of the LAST matching record: a
      repeated pair overwrites the earlier occurrence. */
  lemma {:induction false} LastMatchWins(es: seq<Entry>, t: Target, init: int, i: nat)
    requires i < |es| && Matches(es[i], t)
    requires forall j :: i < j < |es| ==> !Matches(es[j], t)
    ensures LastOffset(es, t, init) == es[i].offset as int
    decreases |es|
  {
    if i < |es| - 1 {
      var front := es[..|es| - 1];
      assert forall j :: i < j < |front| ==> front[j] == es[j];
      LastMatchWins(front, t, init, i);
    }
  }

  /** A slot changes only through a record naming exactly its pair. */
  lemma SlotChangedOnlyByMatch(es: seq<Entry>, t: Target, init: int)
    requires Discovered(es, t, init) != init
    ensures exists i :: 0 <= i < FirstStop(es) && Matches(es[i], t)
  {
    var live := Live(es);
    if forall i :: 0 <= i < |live| ==> !Matches(live[i], t) {
      NoMatchKeepsSlot(live, t, init);
    }
    var i :| 0 <= i < |live| && Matches(live[i], t);
    assert live[i] == es[i];
  }

  /** Nothing at or after an end marker reaches either slot. */
  lemma {:induction false} StopsAtTerminator(front: seq<Entry>, back: seq<Entry>, t: Target, init: int)
    ensures Live(front + [Terminator] + back) == Live(front)
    ensures Discovered(front + [Terminator] + back, t, init) == Discovered(front, t, init)
    decreases |front|
  {
    var es := front + [Terminator] + back;
    if |front| > 0 && front[0].Record? {
      assert es[1..] == front[1..] + [Terminator] + back;
      StopsAtTerminator(front[1..], back, t, init);
      LiveCons(es);
      LiveCons(front);
    } else if |front| > 0 {
      assert es[0] == front[0];
    }
  }

  lemma LiveCons(es: seq<Entry>)
    requires |es| > 0 && es[0].Record?
    ensures Live(es) == [es[0]] + Live(es[1..])
  {
  }

  lemma {:induction false} LastOffsetPrepend(r: Entry, es: seq<Entry>, t: Target, init: int)
    ensures LastOffset([r] + es, t, init) == LastOffset(es, t, if Matches(r, t) then r.offset as int else init)
    decreases |es|
  {
    if |es| == 0 {
      assert ([r] + es)[..0] == [];
    } else {
      assert ([r] + es)[..|es|] == [r] + es[..|es| - 1];
      LastOffsetPrepend(r, es[..|es| - 1], t, init);
    }
  }

  /** A record for some other pair changes nothing: removing it from the
      table before the end marker leaves the slot as it is. */
  lemma {:induction false} OtherRecordIgnored(front: seq<Entry>, r: Entry, back: seq<Entry>, t: Target, init: int)
    requires forall i :: 0 <= i < |front| ==> front[i].Record?
    requires r.Record? && !Matches(r, t)
    ensures Discovered(front + [r] + back, t, init) == Discovered(front + back, t, init)
    decreases |front|
  {
    var es := front + [r] + back;
    if |front| == 0 {
      assert es == [r] + back;
      assert front + back == back;
      LiveCons(es);
      assert es[1..] == back;
      LastOffsetPrepend(r, Live(back), t, init);
    } else {
      var es' := front + back;
      assert es[1..] == front[1..] + [r] + back;
      assert es'[1..] == front[1..] + back;
      LiveCons(es);
      LiveCons(es');
      OtherRecordIgnored(front[1..], r, back, t, init);
      var before := if Matches(front[0], t) then front[0].offset as int else init;
      OtherRecordIgnored(front[1..], r, back, t, before);
      LastOffsetPrepend(front[0], Live(es[1..]), t, init);
      LastOffsetPrepend(front[0], Live(es'[1..]), t, init);
    }
  }

  /** Whichever end marker a caller names as the table's bound, the walk
      discovers the same offsets: only the first one matters. */
  lemma TableBoundIrrelevant(syms: VmSymbols, mem: Memory, end1: nat, end2: nat, t: Target, init: int)
    requires ReadEntry(syms, mem, end1).Terminator? && ReadEntry(syms, mem, end2).Terminator?
    requires end1 <= end2
    ensures Discovered(Table(syms, mem, end1), t, init) == Discovered(Table(syms, mem, end2), t, init)
  {
    var t1 := Table(syms, mem, end1);
    var t2 := Table(syms, mem, end2);
    assert t2 == t1[..end1] + [Terminator] + t2[end1 + 1..];
    assert t1 == t1[..end1] + [Terminator] + [];
    StopsAtTerminator(t1[..end1], t2[end1 + 1..], t, init);
    StopsAtTerminator(t1[..end1], [], t, init);
  }
}
