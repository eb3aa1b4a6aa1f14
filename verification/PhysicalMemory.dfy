/** RAM and the swap file. The asserts of the original are the preconditions here. */
module PhysicalMemory {
  import opened MemoryConstants
  import opened PageTable
  import opened PageScan

  type SwapFile = map<nat, Page>

  function ZeroPage(c: Config): (p: Page)
    ensures |p| == c.PageSize() && Empty(p)
  {
    seq(c.PageSize(), i => 0)
  }

  function ZeroFrames(c: Config): (ram: Frames)
    requires c.Supported()
    ensures Shape(c, ram)
  {
    seq(c.NumFrames(), i => ZeroPage(c))
  }

  class Backing {
    const cfg: Config
    var ram: Frames
    var swapFile: SwapFile

    ghost predicate Valid()
      reads this
    {
      cfg.Supported() && (ram == [] || Shape(cfg, ram))
    }

    /** What RAM holds; before its first use it is empty and will be filled with zeroes. */
    ghost function View(): (frames: Frames)
      reads this
      requires Valid()
      ensures Shape(cfg, frames)
    {
      if ram == [] then ZeroFrames(cfg) else ram
    }

    constructor (c: Config)
      requires c.Supported()
      ensures cfg == c && Valid() && View() == ZeroFrames(c) && swapFile == map[]
    {
      cfg := c;
      ram := [];
      swapFile := map[];
    }

    method Initialize()
      requires Valid() && ram == []
      modifies this`ram
      ensures Valid() && ram != [] && View() == old(View())
    {
      ram := ZeroFrames(cfg);
    }

    method PMread(physicalAddress: nat) returns (value: Word)
      requires Valid() && physicalAddress < cfg.RamSize()
      modifies this`ram
      ensures Valid() && View() == old(View())
      ensures var f := Div(physicalAddress, cfg.PageSize());
              f < |View()| && value == View()[f][Mod(physicalAddress, cfg.PageSize())]
    {
      if ram == [] {
        Initialize();
      }
      AddressInFrame(cfg, physicalAddress);
      var frameIndex := Div(physicalAddress, cfg.PageSize());
      var frameOffset := Mod(physicalAddress, cfg.PageSize());
      value := ram[frameIndex][frameOffset];
    }

    method PMwrite(physicalAddress: nat, value: Word)
      requires Valid() && physicalAddress < cfg.RamSize()
      modifies this`ram
      ensures Valid()
      ensures var f := Div(physicalAddress, cfg.PageSize());
              f < |old(View())| && View() == Poke(old(View()), f, Mod(physicalAddress, cfg.PageSize()), value)
    {
      if ram == [] {
        Initialize();
      }
      AddressInFrame(cfg, physicalAddress);
      var frameIndex := Div(physicalAddress, cfg.PageSize());
      var frameOffset := Mod(physicalAddress, cfg.PageSize());
      ram := Poke(ram, frameIndex, frameOffset, value);
    }

    method PMevict(frameIndex: nat, evictedPageIndex: nat)
      requires Valid() && frameIndex < cfg.NumFrames() && evictedPageIndex < cfg.NumPages()
      requires evictedPageIndex !in swapFile
      modifies this
      ensures Valid() && View() == old(View())
      ensures swapFile == old(swapFile)[evictedPageIndex := View()[frameIndex]]
    {
      if ram == [] {
        Initialize();
      }
      swapFile := swapFile[evictedPageIndex := ram[frameIndex]];
    }

    method PMrestore(frameIndex: nat, restoredPageIndex: nat)
      requires Valid() && frameIndex < cfg.NumFrames()
      requires restoredPageIndex in swapFile ==> |swapFile[restoredPageIndex]| == cfg.PageSize()
      modifies this
      ensures Valid()
      ensures View() == if restoredPageIndex in old(swapFile)
                        then old(View())[frameIndex := old(swapFile)[restoredPageIndex]] else old(View())
      ensures swapFile == old(swapFile) - {restoredPageIndex}
    {
      if ram == [] {
        Initialize();
      }
      if restoredPageIndex !in swapFile {
        return;
      }
      ram := ram[frameIndex := swapFile[restoredPageIndex]];
      swapFile := swapFile - {restoredPageIndex};
    }
  }
}
