/** Whole runs of the paging interface, seen as a flat word-addressed memory. */
module MemoryRuns {
  import opened MemoryConstants
  import opened PagePaths
  import opened PhysicalMemory
  import opened PageFaults
  import opened VirtualMemory

  /** One completed call, with what it returned. */
  datatype Event =
    | Read(address: nat, value: Word)
    | Write(address: nat, value: Word)
    | Rejected(address: nat)

  type Memory = map<nat, Page>

  ghost predicate Step(c: Config, m: Memory, e: Event, m': Memory) {
    match e
    case Read(a, v) => a < c.VirtualMemorySize() && Reads(c, m, a, v, m')
    case Write(a, v) => a < c.VirtualMemorySize() && Writes(c, m, a, v, m')
    case Rejected(a) => a >= c.VirtualMemorySize() && m' == m
  }

  /** mems[i] is the memory before events[i] and mems[i + 1] the memory after it. */
  ghost predicate IsRun(c: Config, events: seq<Event>, mems: seq<Memory>) {
    && |mems| == |events| + 1
    && forall i :: 0 <= i < |events| ==> Step(c, mems[i], events[i], mems[i + 1])
  }

  /** The word at an address has been given a value. */
  ghost predicate Holds(c: Config, m: Memory, a: nat, v: Word) {
    WordIs(m, FetchPageAddress(c, a), FetchOffset(c, a), v)
  }

  predicate WritesTo(e: Event, a: nat) {
    e.Write? && e.address == a
  }

  /** The value of the last write to an address, if there is one. */
  function LastWrite(events: seq<Event>, a: nat): (w: seq<Word>)
    ensures |w| <= 1
  {
    if events == [] then []
    else if WritesTo(events[|events| - 1], a) then [events[|events| - 1].value]
    else LastWrite(events[..|events| - 1], a)
  }

  /** Distinct addresses are distinct words. */
  lemma DistinctWords(c: Config, a: nat, b: nat)
    requires FetchPageAddress(c, a) == FetchPageAddress(c, b) && FetchOffset(c, a) == FetchOffset(c, b)
    ensures a == b
  {
    DivModJoin(a, c.PageSize());
    DivModJoin(b, c.PageSize());
  }

  /** A call changes no word but the one it writes; faults, evictions and restores inside it are invisible. */
  lemma StepKeepsOtherWords(c: Config, m: Memory, e: Event, m': Memory, a: nat, v: Word)
    requires Step(c, m, e, m') && Holds(c, m, a, v) && !WritesTo(e, a)
    ensures Holds(c, m', a, v)
  {
    if e.Write? {
      var b := e.address;
      if FetchPageAddress(c, a) == FetchPageAddress(c, b) && FetchOffset(c, a) == FetchOffset(c, b) {
        DistinctWords(c, a, b);
      }
    }
  }

  /** After a call that succeeds, the word at its address has the value read or written. */
  lemma StepFixesWord(c: Config, m: Memory, e: Event, m': Memory)
    requires Step(c, m, e, m') && !e.Rejected?
    ensures Holds(c, m', e.address, e.value)
  {
  }

  /** A value, once there, stays until the address is written: whether it was written or was found there when
      the page was first touched. */
  lemma {:induction false} ValueStays(c: Config, events: seq<Event>, mems: seq<Memory>, i: nat, j: nat, a: nat, v: Word)
    requires IsRun(c, events, mems) && i <= j <= |events|
    requires Holds(c, mems[i], a, v) && forall k :: i <= k < j ==> !WritesTo(events[k], a)
    ensures Holds(c, mems[j], a, v)
  {
    if i < j {
      ValueStays(c, events, mems, i, j - 1, a, v);
      StepKeepsOtherWords(c, mems[j - 1], events[j - 1], mems[j], a, v);
    }
  }

  lemma {:induction false} LastWriteHolds(c: Config, events: seq<Event>, mems: seq<Memory>, j: nat, a: nat)
    requires IsRun(c, events, mems) && j <= |events| && LastWrite(events[..j], a) != []
    ensures Holds(c, mems[j], a, LastWrite(events[..j], a)[0])
  {
    var e := events[j - 1];
    assert events[..j][..j - 1] == events[..j - 1];
    if WritesTo(e, a) {
      StepFixesWord(c, mems[j - 1], e, mems[j]);
    } else {
      LastWriteHolds(c, events, mems, j - 1, a);
      StepKeepsOtherWords(c, mems[j - 1], e, mems[j], a, LastWrite(events[..j - 1], a)[0]);
    }
  }

  /** Refinement of a flat memory: over any run, a read returns the last value written to its address. */
  lemma ReadsReturnLastWrite(c: Config, events: seq<Event>, mems: seq<Memory>, j: nat)
    requires IsRun(c, events, mems) && j < |events| && events[j].Read?
    requires LastWrite(events[..j], events[j].address) != []
    ensures events[j].value == LastWrite(events[..j], events[j].address)[0]
  {
    var a := events[j].address;
    LastWriteHolds(c, events, mems, j, a);
    StepKeepsOtherWords(c, mems[j], events[j], mems[j + 1], a, LastWrite(events[..j], a)[0]);
  }

  /** Without a write in between, a word that was read or written reads the same again. */
  lemma ReadsRepeat(c: Config, events: seq<Event>, mems: seq<Memory>, i: nat, j: nat)
    requires IsRun(c, events, mems) && i < j < |events| && !events[i].Rejected? && events[j].Read?
    requires events[i].address == events[j].address
    requires forall k :: i < k < j ==> !WritesTo(events[k], events[j].address)
    ensures events[j].value == events[i].value
  {
    var a := events[j].address;
    StepFixesWord(c, mems[i], events[i], mems[i + 1]);
    ValueStays(c, events, mems, i + 1, j, a, events[i].value);
    StepKeepsOtherWords(c, mems[j], events[j], mems[j + 1], a, events[i].value);
  }

  /** The pages of the calls that were not rejected. */
  function Touched(c: Config, events: seq<Event>): set<nat> {
    set e | e in events && !e.Rejected? :: FetchPageAddress(c, e.address)
  }

  /** A run gives contents to the pages it touches and to no other, and takes contents from none. */
  lemma {:induction false} ContentsWhereTouched(c: Config, events: seq<Event>, mems: seq<Memory>, j: nat)
    requires IsRun(c, events, mems) && j <= |events|
    ensures mems[j].Keys == mems[0].Keys + Touched(c, events[..j])
  {
    if j > 0 {
      var e := events[j - 1];
      ContentsWhereTouched(c, events, mems, j - 1);
      assert Step(c, mems[j - 1], e, mems[j]);
      assert events[..j] == events[..j - 1] + [e];
      TouchedExtends(c, events[..j - 1], e);
    }
  }

  lemma TouchedExtends(c: Config, events: seq<Event>, e: Event)
    ensures Touched(c, events + [e]) ==
            Touched(c, events) + if e.Rejected? then {} else {FetchPageAddress(c, e.address)}
  {
    assert forall x :: x in events + [e] <==> x in events || x == e;
  }

  // ---------- Any client ----------

  datatype Call = DoRead(address: nat) | DoWrite(address: nat, value: Word)

  predicate Answers(c: Config, call: Call, e: Event) {
    && e.address == call.address
    && (e.Rejected? <==> call.address >= c.VirtualMemorySize())
    && (!e.Rejected? ==> (call.DoRead? <==> e.Read?))
    && (e.Write? ==> call.DoWrite? && e.value == call.value)
  }

  method Perform(p: Pager, call: Call) returns (e: Event)
    requires p.Valid()
    modifies p, p.pm
    ensures p.Valid() && Answers(p.pm.cfg, call, e) && Step(p.pm.cfg, old(p.Memory()), e, p.Memory())
  {
    match call {
      case DoRead(a) =>
        var status, value, _ := p.VMread(a, 0);
        e := if status == 1 then Read(a, value) else Rejected(a);
      case DoWrite(a, v) =>
        var status, _ := p.VMwrite(a, v);
        e := if status == 1 then Write(a, v) else Rejected(a);
    }
  }

  lemma RunExtends(c: Config, events: seq<Event>, mems: seq<Memory>, e: Event, m: Memory)
    requires IsRun(c, events, mems) && Step(c, mems[|events|], e, m)
    ensures IsRun(c, events + [e], mems + [m])
  {
    var events', mems' := events + [e], mems + [m];
    forall i | 0 <= i < |events'| ensures Step(c, mems'[i], events'[i], mems'[i + 1]) {
      assert i < |events| ==> mems'[i] == mems[i] && mems'[i + 1] == mems[i + 1] && events'[i] == events[i];
    }
  }

  /** Whatever calls a client makes, the answers it gets form a run; afterwards the pages it touched, and those that
      had contents before, are each mapped in RAM or kept in the swap file, one of the two, and no other page is in
      either. */
  method Session(p: Pager, calls: seq<Call>) returns (events: seq<Event>, ghost mems: seq<Memory>)
    requires p.Valid()
    modifies p, p.pm
    ensures p.Valid()
    ensures |events| == |calls| && forall i :: 0 <= i < |calls| ==> Answers(p.pm.cfg, calls[i], events[i])
    ensures IsRun(p.pm.cfg, events, mems) && mems[0] == old(p.Memory()) && mems[|calls|] == p.Memory()
    ensures forall j :: 0 <= j < |events| && events[j].Read? && LastWrite(events[..j], events[j].address) != [] ==>
              events[j].value == LastWrite(events[..j], events[j].address)[0]
    ensures forall q :: q in p.Pages() || q in p.pm.swapFile <==>
              q in old(p.Memory()) || q in Touched(p.pm.cfg, events)
    ensures forall q :: !(q in p.Pages() && q in p.pm.swapFile)
  {
    ghost var c := p.pm.cfg;
    events, mems := [], [p.Memory()];
    for i := 0 to |calls|
      invariant p.Valid() && |events| == i && IsRun(c, events, mems)
      invariant mems[0] == old(p.Memory()) && mems[i] == p.Memory()
      invariant forall k :: 0 <= k < i ==> Answers(c, calls[k], events[k])
    {
      var e := Perform(p, calls[i]);
      RunExtends(c, events, mems, e, p.Memory());
      events, mems := events + [e], mems + [p.Memory()];
    }
    forall j | 0 <= j < |events| && events[j].Read? && LastWrite(events[..j], events[j].address) != []
      ensures events[j].value == LastWrite(events[..j], events[j].address)[0]
    {
      ReadsReturnLastWrite(c, events, mems, j);
    }
    ContentsWhereTouched(c, events, mems, |events|);
    assert events[..|events|] == events;
    forall q: nat ensures q in p.Memory() <==> q in p.Pages() || q in p.pm.swapFile
                  ensures !(q in p.Pages() && q in p.pm.swapFile)
    {
      ResidentOrSwapped(c, p.Now(), q);
    }
  }
}
