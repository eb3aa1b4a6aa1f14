/** Demand paging over RAM and a swap file: page tables, page faults, eviction, and the read/write interface. */
module VirtualMemory {
  import Bags
  import opened MemoryConstants
  import opened PagePaths
  import opened PageTable
  import opened PageScan
  import opened PhysicalMemory
  import opened AbstractMemory
  import opened PageFaults
  import opened PageFaultRuns

  class Pager {
    const pm: Backing
    ghost var tree: Tree
    ghost var used: int

    ghost predicate Valid()
      reads this, pm
    {
      pm.Valid() && Consistent(pm.cfg, Now(), -1)
    }

    ghost function Now(): Snapshot
      reads this, pm
      requires pm.Valid()
    {
      Snapshot(pm.View(), tree, used, pm.swapFile)
    }

    /** The pages mapped in RAM, as the page tables translate them. */
    ghost function Pages(): map<nat, int>
      reads pm
      requires pm.Valid()
    {
      PageMap(pm.cfg, pm.View())
    }

    ghost function Memory(): map<nat, Page>
      reads pm
      requires pm.Valid()
    {
      Mem(pm.cfg, pm.View(), pm.swapFile)
    }

    constructor (c: Config)
      requires c.Supported()
      ensures Valid() && fresh(pm) && pm.cfg == c
      ensures Memory() == map[] && tree == RootOnly()
    {
      pm := new Backing(c);
      tree := RootOnly();
      used := 1;
      new;
      ClearedTable(c, pm.View());
    }

    /** PMread at an address known to be a given word of a given frame. */
    method ReadWord(physicalAddress: nat, ghost frame: nat, ghost row: nat) returns (value: Word)
      requires pm.Valid() && frame < pm.cfg.NumFrames() && row < pm.cfg.PageSize()
      requires physicalAddress == Address(pm.cfg, frame, row)
      modifies pm`ram
      ensures pm.Valid() && pm.View() == old(pm.View()) && value == pm.View()[frame][row]
    {
      AddressSplits(pm.cfg, frame, row);
      value := pm.PMread(physicalAddress);
    }

    /** PMwrite at an address known to be a given word of a given frame. */
    method WriteWord(physicalAddress: nat, ghost frame: nat, ghost row: nat, value: Word)
      requires pm.Valid() && frame < pm.cfg.NumFrames() && row < pm.cfg.PageSize()
      requires physicalAddress == Address(pm.cfg, frame, row)
      modifies pm`ram
      ensures pm.Valid() && pm.View() == Poke(old(pm.View()), frame, row, value)
    {
      AddressSplits(pm.cfg, frame, row);
      pm.PMwrite(physicalAddress, value);
    }

    /** Frame f hangs off the row at the given address; the root hangs nowhere. */
    ghost predicate LinkedAt(f: int, address: int)
      reads this, pm
      requires f in tree
    {
      f != 0 ==> tree[f].path != [] && tree[f].parent >= 0 && address == LinkAddress(pm.cfg, tree, f)
    }

    method ClearTable(frameIndex: nat)
      requires pm.Valid() && frameIndex < pm.cfg.NumFrames()
      modifies pm`ram
      ensures pm.Valid() && pm.View() == old(pm.View())[frameIndex := ZeroPage(pm.cfg)]
    {
      ghost var ram := pm.View();
      var i := 0;
      while i < pm.cfg.PageSize()
        invariant 0 <= i <= pm.cfg.PageSize() && pm.Valid()
        invariant forall f :: 0 <= f < |ram| && f != frameIndex ==> pm.View()[f] == ram[f]
        invariant forall k :: 0 <= k < i ==> pm.View()[frameIndex][k] == 0
      {
        WriteWord(Address(pm.cfg, frameIndex, i), frameIndex, i, 0);
        i := i + 1;
      }
      assert pm.View()[frameIndex] == ZeroPage(pm.cfg);
    }

    /** One page against the farthest so far. */
    method ComputeAndUpdateMaxCycDist(page: nat, maxCycDist0: int, addressInParent: int, currFrame: int,
                                      currLeafPage: nat, evictedAddress0: int, evictedFrame0: int, pageToEvict0: int)
      returns (maxCycDist: int, evictedAddress: int, evictedFrame: int, pageToEvict: int)
      requires pm.cfg.Supported()
      ensures var d := CyclicDistance(pm.cfg, page, currLeafPage);
              if d > maxCycDist0
              then maxCycDist == d && evictedFrame == currFrame && pageToEvict == currLeafPage
                   && evictedAddress == addressInParent
              else maxCycDist == maxCycDist0 && evictedFrame == evictedFrame0 && pageToEvict == pageToEvict0
                   && evictedAddress == evictedAddress0
    {
      maxCycDist, evictedAddress := maxCycDist0, evictedAddress0;
      evictedFrame, pageToEvict := evictedFrame0, pageToEvict0;
      var absDelta := Abs(AsInt((page - currLeafPage) % 0x1_0000_0000_0000_0000));
      var cycDist := Bags.Min(pm.cfg.NumPages() - absDelta, absDelta);
      if cycDist > maxCycDist {
        maxCycDist := cycDist;
        evictedFrame := currFrame;
        pageToEvict := currLeafPage;
        evictedAddress := addressInParent;
      }
    }

    /** Depth-first search for the page at the greatest cyclic distance under currFrame. */
    method FindFrameToEvict(page: nat, maxCycDist0: int, pageToEvict0: int, evictedFrame0: int, evictedAddress0: int,
                            addressInParent: int, depth: nat, currFrame: int, currLeafPage: nat)
      returns (maxCycDist: int, pageToEvict: int, evictedFrame: int, evictedAddress: int)
      requires pm.Valid() && IsTree(pm.cfg, pm.View(), tree) && currFrame in tree
      requires |tree[currFrame].path| == depth && PageOf(pm.cfg, tree[currFrame].path) == currLeafPage
      requires LinkedAt(currFrame, addressInParent)
      modifies pm`ram
      ensures pm.Valid() && pm.View() == old(pm.View())
      ensures Farthest(pm.cfg, tree, page, UnderRegion(tree, tree[currFrame].path),
                       Choice(maxCycDist0, pageToEvict0, evictedFrame0, evictedAddress0),
                       Choice(maxCycDist, pageToEvict, evictedFrame, evictedAddress))
      decreases pm.cfg.TablesDepth() - depth
    {
      hide Farthest, UnderRegion, RowsRegion;
      ghost var c, ram, p := pm.cfg, pm.View(), tree[currFrame].path;
      ghost var x0 := Choice(maxCycDist0, pageToEvict0, evictedFrame0, evictedAddress0);
      maxCycDist, pageToEvict := maxCycDist0, pageToEvict0;
      evictedFrame, evictedAddress := evictedFrame0, evictedAddress0;
      if depth == pm.cfg.TablesDepth() {
        maxCycDist, evictedAddress, evictedFrame, pageToEvict :=
          ComputeAndUpdateMaxCycDist(page, maxCycDist, addressInParent, currFrame, currLeafPage,
                                     evictedAddress, evictedFrame, pageToEvict);
        FarthestLeaf(c, ram, tree, page, currFrame, addressInParent, x0,
                     Choice(maxCycDist, pageToEvict, evictedFrame, evictedAddress));
        return;
      }
      NoRowsYet(tree, p);
      ScansStart(c, ram, tree, 0, page, Unused(0, 0), 0, x0);
      var rowIdx := 0;
      while rowIdx < pm.cfg.PageSize()
        invariant 0 <= rowIdx <= pm.cfg.PageSize() && pm.Valid() && pm.View() == ram
        invariant Farthest(c, tree, page, RowsRegion(tree, p, rowIdx), x0,
                           Choice(maxCycDist, pageToEvict, evictedFrame, evictedAddress))
      {
        var physicalAddress := Address(pm.cfg, currFrame, rowIdx);
        var nextFrame := ReadWord(physicalAddress, currFrame, rowIdx);
        ghost var x1 := Choice(maxCycDist, pageToEvict, evictedFrame, evictedAddress);
        if nextFrame != 0 {
          ChildOfRow(c, ram, tree, currFrame, rowIdx);
          maxCycDist, pageToEvict, evictedFrame, evictedAddress :=
            FindFrameToEvict(page, maxCycDist, pageToEvict, evictedFrame, evictedAddress,
                             physicalAddress, depth + 1, nextFrame, ShiftIn(pm.cfg, currLeafPage, rowIdx));
        }
        FarthestNextRow(c, ram, tree, page, currFrame, rowIdx, x0, x1,
                        Choice(maxCycDist, pageToEvict, evictedFrame, evictedAddress));
        rowIdx := rowIdx + 1;
      }
      FarthestOfTable(c, ram, tree, page, currFrame, x0,
                      Choice(maxCycDist, pageToEvict, evictedFrame, evictedAddress));
    }

    /** Depth-first search for the last empty table under currFrame, other than usedEmptyFrame, and for the
        greatest frame linked below it. */
    method GetUnusedOrMaxFrame(unusedFrame0: int, unusedAddress0: int, maxFrame0: int, usedEmptyFrame: int,
                               currDepth: nat, currFrame: int, cameFromPhysicalAddress: int)
      returns (unusedFrame: int, unusedAddress: int, maxFrame: int)
      requires pm.Valid() && IsTree(pm.cfg, pm.View(), tree) && currFrame in tree
      requires |tree[currFrame].path| == currDepth && LinkedAt(currFrame, cameFromPhysicalAddress)
      modifies pm`ram
      ensures pm.Valid() && pm.View() == old(pm.View())
      ensures LastCandidate(pm.cfg, pm.View(), tree, usedEmptyFrame, UnderRegion(tree, tree[currFrame].path),
                            Unused(unusedFrame0, unusedAddress0), Unused(unusedFrame, unusedAddress))
      ensures GreatestFrame(UnderRegion(tree, tree[currFrame].path) - {currFrame}, maxFrame0, maxFrame)
      decreases pm.cfg.TablesDepth() - currDepth
    {
      hide LastCandidate, GreatestFrame, UnderRegion, RowsRegion;
      ghost var c, ram, p := pm.cfg, pm.View(), tree[currFrame].path;
      ghost var u0 := Unused(unusedFrame0, unusedAddress0);
      unusedFrame, unusedAddress, maxFrame := unusedFrame0, unusedAddress0, maxFrame0;
      if currDepth == pm.cfg.TablesDepth() {
        ScanOfLeaf(c, ram, tree, usedEmptyFrame, currFrame, u0, maxFrame);
        return;
      }
      NoRowsYet(tree, p);
      ScansStart(c, ram, tree, usedEmptyFrame, 0, u0, maxFrame0, Choice(0, 0, 0, 0));
      var hasChildren := false;
      var rowIdx := 0;
      while rowIdx < pm.cfg.PageSize()
        invariant 0 <= rowIdx <= pm.cfg.PageSize() && pm.Valid() && pm.View() == ram
        invariant !hasChildren <==> forall r :: 0 <= r < rowIdx ==> ram[currFrame][r] == 0
        invariant LastCandidate(c, ram, tree, usedEmptyFrame, RowsRegion(tree, p, rowIdx), u0,
                                Unused(unusedFrame, unusedAddress))
        invariant GreatestFrame(RowsRegion(tree, p, rowIdx), maxFrame0, maxFrame)
      {
        var physicalAddress := Address(pm.cfg, currFrame, rowIdx);
        var childFrame := ReadWord(physicalAddress, currFrame, rowIdx);
        ghost var u1, m1 := Unused(unusedFrame, unusedAddress), maxFrame;
        if childFrame != 0 {
          ChildOfRow(c, ram, tree, currFrame, rowIdx);
          maxFrame := if maxFrame < childFrame then childFrame else maxFrame;
          hasChildren := true;
          unusedFrame, unusedAddress, maxFrame :=
            GetUnusedOrMaxFrame(unusedFrame, unusedAddress, maxFrame, usedEmptyFrame,
                                currDepth + 1, childFrame, physicalAddress);
        }
        CandidatesNextRow(c, ram, tree, usedEmptyFrame, currFrame, rowIdx, u0, u1,
                          Unused(unusedFrame, unusedAddress));
        GreatestNextRow(c, ram, tree, currFrame, rowIdx, maxFrame0, m1, maxFrame);
        rowIdx := rowIdx + 1;
      }
      ScanOfTable(c, ram, tree, usedEmptyFrame, currFrame, cameFromPhysicalAddress,
                  u0, Unused(unusedFrame, unusedAddress), maxFrame0, maxFrame);
      if !hasChildren && currFrame != usedEmptyFrame {
        unusedAddress := cameFromPhysicalAddress;
        unusedFrame := currFrame;
      }
    }

    /** An empty table, unlinked from its parent, or else the next untouched frame, or else 0. */
    method CreateUnusedOrMaxFrame(formerChosenUnusedFrame: int) returns (frame: Word)
      requires Valid() && IsTable(pm.cfg, tree, formerChosenUnusedFrame)
      modifies this, pm`ram
      ensures pm.Valid()
      ensures frame != 0 ==>
                || TakesTable(pm.cfg, old(Now()), Now(), formerChosenUnusedFrame, frame)
                || TakesFresh(pm.cfg, old(Now()), Now(), formerChosenUnusedFrame, frame)
      ensures frame == 0 ==>
                && Valid() && Now() == old(Now())
                && used == |pm.View()| && NoCandidates(pm.cfg, Now(), formerChosenUnusedFrame)
    {
      ghost var c, s, protected := pm.cfg, Now(), formerChosenUnusedFrame;
      var unusedFrame, physicalAddressInParent, maxFrame :=
        GetUnusedOrMaxFrame(0, 0, 0, formerChosenUnusedFrame, 0, 0, 0);
      if unusedFrame != 0 {
        TakesTableHolds(c, s, protected, unusedFrame, physicalAddressInParent);
        WriteWord(physicalAddressInParent, tree[unusedFrame].parent, LastRow(tree, unusedFrame), 0);
        tree := tree - {unusedFrame};
        return unusedFrame;
      }
      TakesFreshHolds(c, s, protected, physicalAddressInParent, maxFrame);
      if maxFrame < pm.cfg.NumFrames() - 1 {
        used := used + 1;
        return maxFrame + 1;
      }
      return 0;
    }

    /** Swap out the page at the greatest cyclic distance from `page`, and hand over its frame. */
    method EvictFrame(page: nat, depthOfFrame: nat) returns (frame: Word)
      requires Valid() && page < pm.cfg.NumPages() && page !in Pages()
      requires exists f :: IsLeaf(pm.cfg, tree, f)
      modifies this, pm
      ensures frame != 0 && IsLeaf(pm.cfg, old(tree), frame) && Hangs(pm.cfg, old(pm.View()), old(tree), frame)
      ensures IsVictim(pm.cfg, old(Pages()), page, PageOf(pm.cfg, old(tree)[frame].path))
      ensures pm.Valid() && Now() == AfterEviction(pm.cfg, old(Now()), frame, depthOfFrame)
    {
      ghost var c, s := pm.cfg, Now();
      var maxCycDist, pageToEvict, evictedFrame, mappedFromAddress := FindFrameToEvict(page, 0, 0, 0, 0, 0, 0, 0, 0);
      FarthestIsVictim(c, s.ram, s.tree, page, Choice(maxCycDist, pageToEvict, evictedFrame, mappedFromAddress));
      assert pageToEvict !in s.swap;
      hide IsVictim, PageMap, Exclusive, PagesInRange;
      pm.PMevict(evictedFrame, pageToEvict);
      WriteWord(mappedFromAddress, tree[evictedFrame].parent, LastRow(tree, evictedFrame), 0);
      tree := tree - {evictedFrame};
      if depthOfFrame + 1 < pm.cfg.TablesDepth() {
        ClearTable(evictedFrame);
      }
      return evictedFrame;
    }

    method CreateFrame(page: nat, formerChosenUnusedFrame: int, depthOfFrame: nat) returns (frame: Word)
      requires Valid() && IsTable(pm.cfg, tree, formerChosenUnusedFrame) && page < pm.cfg.NumPages() && page !in Pages()
      modifies this, pm
      ensures pm.Valid()
      ensures Creates(pm.cfg, old(Now()), Now(), page, formerChosenUnusedFrame, depthOfFrame, frame)
    {
      ghost var s := Now();
      frame := CreateUnusedOrMaxFrame(formerChosenUnusedFrame);
      if frame == 0 {
        CanEvict(pm.cfg, s, formerChosenUnusedFrame);
        frame := EvictFrame(page, depthOfFrame);
        EvictsHolds(pm.cfg, s, page, depthOfFrame, frame);
      }
    }

    /** The body of findFrame's fault branch: obtain a frame and link it into the row that was 0. */
    method HandleFault(page: nat, currFrame: Word, currDepth: nat, physicalAddress: nat, ghost s0: Snapshot)
      returns (nextFrame: Word, ghost fault: Fault)
      requires pm.Valid() && currDepth < pm.cfg.TablesDepth() && page < pm.cfg.NumPages()
      requires Walking(pm.cfg, s0, Now(), page, currDepth, currFrame)
      requires RowHolds(Now(), currFrame, FetchDepthOffset(pm.cfg, page, currDepth), 0)
      requires physicalAddress == Address(pm.cfg, currFrame, FetchDepthOffset(pm.cfg, page, currDepth))
      modifies this, pm
      ensures pm.Valid() && Walking(pm.cfg, s0, Now(), page, currDepth + 1, nextFrame)
      ensures IsFault(pm.cfg, page, fault) && fault.before == old(Now()) && Now() == AfterFault(pm.cfg, page, fault)
      ensures fault.table == currFrame && fault.depth == currDepth && fault.frame == nextFrame
    {
      hide Walking, Creates;
      ghost var s, r := Now(), FetchDepthOffset(pm.cfg, page, currDepth);
      WalkFaults(pm.cfg, s0, s, page, currDepth, currFrame);
      nextFrame := CreateFrame(page, currFrame, currDepth);
      fault := Fault(s, Now(), currFrame, currDepth, nextFrame);
      WalkOnFault(pm.cfg, s0, s, Now(), page, currDepth, currFrame, nextFrame);
      ghost var linked := Link(Now(), currFrame, r, nextFrame);
      WriteWord(physicalAddress, currFrame, r, nextFrame);
      tree := linked.tree;
      assert Now() == linked;
    }

    /** The frame of a page, mapped in by now if it was not. */
    method FindFrame(pageAddress: nat) returns (frame: Word, ghost faults: seq<Fault>)
      requires Valid() && pageAddress < pm.cfg.NumPages()
      modifies this, pm
      ensures pm.Valid() && BringsIn(pm.cfg, old(Now()), Now(), pageAddress, frame)
      ensures Fetches(pm.cfg, pageAddress, old(Now()), faults, Now())
      ensures Spares(pm.cfg, pageAddress, old(Now()), faults, Now())
      ensures pageAddress in old(Pages()) ==> Now() == old(Now()) && faults == []
    {
      hide Walking, BringsIn, Consistent, Faults, Spares, Fetches, IsFault;
      ghost var c, s0 := pm.cfg, Now();
      var currFrame: Word := 0;
      var currDepth := 0;
      WalkStarts(c, s0, pageAddress);
      faults := [];
      NoFaults(c, pageAddress, s0);
      while currDepth < pm.cfg.TablesDepth()
        invariant 0 <= currDepth <= pm.cfg.TablesDepth() && pm.Valid()
        invariant Walking(c, s0, Now(), pageAddress, currDepth, currFrame)
        invariant Faults(c, pageAddress, s0, faults, Now()) && ReachesTable(faults, currDepth, currFrame)
      {
        WalkInRam(c, s0, Now(), pageAddress, currDepth, currFrame);
        var currOffset := FetchDepthOffset(pm.cfg, pageAddress, currDepth);
        var physicalAddress := Address(pm.cfg, currFrame, currOffset);
        var nextFrame := ReadWord(physicalAddress, currFrame, currOffset);
        if nextFrame == 0 {
          ghost var fault;
          nextFrame, fault := HandleFault(pageAddress, currFrame, currDepth, physicalAddress, s0);
          FaultsExtend(c, pageAddress, s0, faults, fault);
          faults := faults + [fault];
        } else {
          WalkOnRow(c, s0, Now(), pageAddress, currDepth, currFrame, nextFrame);
          RowAfterFault(c, pageAddress, s0, faults, Now(), currDepth, currFrame);
        }
        currFrame := nextFrame;
        currDepth := currDepth + 1;
      }
      ghost var s := Now();
      WalkEnds(c, s0, s, pageAddress, currFrame);
      FetchSpares(c, pageAddress, s0, faults, s, currFrame);
      pm.PMrestore(currFrame, pageAddress);
      assert Now() == Restored(s, pageAddress, currFrame);
      return currFrame, faults;
    }

    /** Forget the page tables. Pages in RAM are lost; pages in the swap file stay. */
    method VMinitialize()
      requires Valid()
      modifies this, pm`ram
      ensures Valid() && tree == RootOnly() && Pages() == map[] && Memory() == pm.swapFile
    {
      var i := 0;
      while i < pm.cfg.NumFrames()
        invariant 0 <= i <= pm.cfg.NumFrames() && pm.Valid()
        invariant forall f :: 0 <= f < i ==> Empty(pm.View()[f])
      {
        ClearTable(i);
        i := i + 1;
      }
      tree := RootOnly();
      used := 1;
      ClearedTable(pm.cfg, pm.View());
    }

    /** 1 and the word at the address, or 0 and no effect if there is no such address. */
    method VMread(virtualAddress: nat, value0: Word) returns (status: int, value: Word, ghost faults: seq<Fault>)
      requires Valid()
      modifies this, pm
      ensures Valid()
      ensures status == if virtualAddress < pm.cfg.VirtualMemorySize() then 1 else 0
      ensures status == 0 ==> value == value0 && Now() == old(Now())
      ensures status == 1 ==> Reads(pm.cfg, old(Memory()), virtualAddress, value, Memory())
      ensures var q := FetchPageAddress(pm.cfg, virtualAddress);
              status == 1 ==>
                && Fetches(pm.cfg, q, old(Now()), faults, Now()) && Spares(pm.cfg, q, old(Now()), faults, Now())
                && (q in old(Pages()) ==> Now() == old(Now()) && faults == [])
    {
      hide BringsIn, Mem, Reads, Fetches, Spares;
      faults := [];
      PageInRange(pm.cfg, virtualAddress);
      if virtualAddress >= pm.cfg.VirtualMemorySize() {
        status, value := 0, value0;
      } else {
        ghost var s0 := Now();
        var frameIndex;
        frameIndex, faults := FindFrame(FetchPageAddress(pm.cfg, virtualAddress));
        BroughtInReads(pm.cfg, s0, Now(), virtualAddress, frameIndex);
        var offset := FetchOffset(pm.cfg, virtualAddress);
        value := ReadWord(Address(pm.cfg, frameIndex, offset), frameIndex, offset);
        status := 1;
      }
    }

    /** 1 after writing the word at the address, or 0 and no effect if there is no such address. */
    method VMwrite(virtualAddress: nat, value: Word) returns (status: int, ghost faults: seq<Fault>)
      requires Valid()
      modifies this, pm
      ensures Valid()
      ensures status == if virtualAddress < pm.cfg.VirtualMemorySize() then 1 else 0
      ensures status == 0 ==> Now() == old(Now())
      ensures status == 1 ==> Writes(pm.cfg, old(Memory()), virtualAddress, value, Memory())
      ensures var q := FetchPageAddress(pm.cfg, virtualAddress);
              status == 1 ==>
                && Spares(pm.cfg, q, old(Now()), faults, Now())
                && FetchesAndStores(pm.cfg, q, old(Now()), faults, virtualAddress, value, Now())
                && (q in old(Pages()) ==> faults == [])
    {
      hide BringsIn, Mem, Writes, Fetches, Spares;
      faults := [];
      PageInRange(pm.cfg, virtualAddress);
      if virtualAddress >= pm.cfg.VirtualMemorySize() {
        status := 0;
      } else {
        ghost var s0 := Now();
        var frameIndex;
        frameIndex, faults := FindFrame(FetchPageAddress(pm.cfg, virtualAddress));
        var offset := FetchOffset(pm.cfg, virtualAddress);
        ghost var s := Now();
        BroughtInWrites(pm.cfg, s0, s, virtualAddress, frameIndex, value);
        WriteWord(Address(pm.cfg, frameIndex, offset), frameIndex, offset, value);
        assert Now() == s.(ram := Poke(s.ram, frameIndex, offset, value));
        StoreSpares(pm.cfg, FetchPageAddress(pm.cfg, virtualAddress), s0, faults, s, Now());
        StoreIs(pm.cfg, s0, faults, s, virtualAddress, value, frameIndex);
        status := 1;
      }
    }
  }
}
