/** The page faults of one call, in their order: which pages they throw out, and which they do not touch. */
module PageFaultRuns {
  import opened MemoryConstants
  import opened PagePaths
  import opened PageTable
  import opened PageScan
  import opened PhysicalMemory
  import opened AbstractMemory
  import opened PageFaults

  /** A fault at a zero row of `table`, at some depth of the walk: the state before it, the state once a frame was
      obtained, and the frame. */
  datatype Fault = Fault(before: Snapshot, obtained: Snapshot, table: int, depth: nat, frame: Word)

  /** The walk to unmapped page q stands on the table and finds the row zero; the frame comes from the three sources
      in their order. */
  ghost predicate IsFault(c: Config, q: nat, x: Fault) {
    && c.Supported() && x.depth < c.TablesDepth() && q < c.NumPages()
    && Creates(c, x.before, x.obtained, q, x.table, x.depth, x.frame)
    && x.table in x.before.tree && x.before.tree[x.table].path == WalkPath(c, q, x.depth)
    && RowHolds(x.before, x.table, FetchDepthOffset(c, q, x.depth), 0)
    && Shape(c, x.before.ram) && q !in PageMap(c, x.before.ram)
  }

  /** The frame's number is written into the row. */
  ghost function AfterFault(c: Config, q: nat, x: Fault): Snapshot
    requires IsFault(c, q, x)
  {
    CreatedFrame(c, x.before, x.obtained, q, x.table, x.depth, x.frame);
    Link(x.obtained, x.table, FetchDepthOffset(c, q, x.depth), x.frame)
  }

  /** The faults lead from s0 to s, each one level below the one before it. */
  ghost predicate Faults(c: Config, q: nat, s0: Snapshot, faults: seq<Fault>, s: Snapshot) {
    if faults == [] then s == s0
    else
      var n := |faults| - 1;
      var x := faults[n];
      && IsFault(c, q, x) && s == AfterFault(c, q, x)
      && Faults(c, q, s0, faults[..n], x.before) && ReachesTable(faults[..n], x.depth, x.table)
  }

  /** The last fault, if there was one, brought the walk to this table. */
  predicate ReachesTable(faults: seq<Fault>, depth: nat, table: int) {
    faults == [] || (faults[|faults| - 1].depth + 1 == depth && faults[|faults| - 1].frame == table)
  }

  /** The faults of a walk to page q and the restore at its end lead from s0 to s. */
  ghost predicate Fetches(c: Config, q: nat, s0: Snapshot, faults: seq<Fault>, s: Snapshot)
    requires c.Supported()
  {
    exists t, u: nat :: WalkedDown(c, q, s0, faults, t, u) && s == Restored(t, q, u)
  }

  /** The walk is at its end, at frame u. */
  ghost predicate WalkedDown(c: Config, q: nat, s0: Snapshot, faults: seq<Fault>, t: Snapshot, u: nat)
    requires c.Supported()
  {
    && Faults(c, q, s0, faults, t) && ReachesTable(faults, c.TablesDepth(), u) && u < |t.ram|
    && Shape(c, t.ram) && q in PageMap(c, t.ram) && PageMap(c, t.ram)[q] == u
  }

  /** One word of page q, which is mapped, is replaced. */
  ghost predicate Stores(c: Config, s: Snapshot, address: nat, value: Word, s': Snapshot)
    requires Shape(c, s.ram)
  {
    var q, offset := FetchPageAddress(c, address), FetchOffset(c, address);
    && q in PageMap(c, s.ram)
    && var u := PageMap(c, s.ram)[q];
       0 <= u < |s.ram| && s' == s.(ram := Poke(s.ram, u, offset, value))
  }

  /** Fault x throws page p out: every frame is in use, there is no table to take, and p is the victim. */
  ghost predicate ThrowsOut(c: Config, q: nat, x: Fault, p: nat) {
    && Shape(c, x.before.ram) && x.before.used == c.NumFrames() && NoCandidates(c, x.before, x.table)
    && p in PageMap(c, x.before.ram) && IsVictim(c, PageMap(c, x.before.ram), q, p)
  }

  lemma ObtainedPages(c: Config, q: nat, x: Fault)
    requires IsFault(c, q, x)
    ensures Shape(c, x.obtained.ram) && x.before.used <= x.obtained.used <= c.NumFrames()
    ensures var pages, pages' := PageMap(c, x.before.ram), PageMap(c, x.obtained.ram);
            || pages' == pages
            || exists v :: ThrowsOut(c, q, x, v) && pages' == pages - {v}
  {
    hide PageMap, Contents, Exclusive, PageOf, OnlyUnlinks;
    if Evicts(c, x.before, x.obtained, q, x.depth, x.frame) && x.before.used == |x.before.ram|
       && NoCandidates(c, x.before, x.table) {
      assert ThrowsOut(c, q, x, PageOf(c, x.before.tree[x.frame].path));
    }
  }

  lemma LinkedPageMap(c: Config, q: nat, x: Fault)
    requires IsFault(c, q, x)
    ensures var s := AfterFault(c, q, x);
            && Shape(c, x.obtained.ram) && Shape(c, s.ram) && s.used == x.obtained.used
            && (PageMap(c, s.ram) == PageMap(c, x.obtained.ram)
                || PageMap(c, s.ram) == PageMap(c, x.obtained.ram)[q := x.frame])
  {
    hide Contents, Exclusive, PageOf, OnlyUnlinks, Creates, PageMap, PagesInRange, Empty, InRadix;
    var s, f, r := x.obtained, x.table, FetchDepthOffset(c, q, x.depth);
    CreatedFrame(c, x.before, s, q, f, x.depth, x.frame);
    hide FetchDepthOffset;
    if x.depth + 1 < c.TablesDepth() {
      LinkTable(c, s.ram, s.tree, s.used, s.swap, f, r, x.frame);
    } else {
      LinkLeaf(c, s.ram, s.tree, s.used, s.swap, f, r, x.frame, q);
    }
  }

  /** What a fault does to the mapped pages. */
  lemma FaultPages(c: Config, q: nat, x: Fault)
    requires IsFault(c, q, x)
    ensures var s := AfterFault(c, q, x);
            && Shape(c, s.ram) && x.before.used <= s.used <= c.NumFrames()
            && (forall p :: p in PageMap(c, s.ram) && p != q ==> p in PageMap(c, x.before.ram))
            && (forall p :: p in PageMap(c, x.before.ram) && p in PageMap(c, s.ram) ==>
                  PageMap(c, s.ram)[p] == PageMap(c, x.before.ram)[p])
            && (forall p :: p in PageMap(c, x.before.ram) && p !in PageMap(c, s.ram) ==> ThrowsOut(c, q, x, p))
  {
    ObtainedPages(c, q, x);
    LinkedPageMap(c, q, x);
    assert q !in PageMap(c, x.before.ram);
    hide IsFault, AfterFault, PageMap, ThrowsOut;
  }

  /** One of the faults throws page p out. */
  ghost predicate ThrownOut(c: Config, q: nat, faults: seq<Fault>, p: nat) {
    exists k :: 0 <= k < |faults| && ThrowsOut(c, q, faults[k], p)
  }

  /** A page that leaves RAM was thrown out by one of the faults, as its victim, when every frame was in use; a page
      that stays keeps its frame; and no page but q comes in. */
  lemma {:induction false} FaultsSpare(c: Config, q: nat, s0: Snapshot, faults: seq<Fault>, s: Snapshot)
    requires Faults(c, q, s0, faults, s) && Shape(c, s0.ram) && s0.used <= c.NumFrames()
    ensures Shape(c, s.ram) && s0.used <= s.used <= c.NumFrames()
    ensures forall p :: p in PageMap(c, s.ram) && p != q ==> p in PageMap(c, s0.ram)
    ensures forall p :: p in PageMap(c, s0.ram) && p in PageMap(c, s.ram) ==>
              PageMap(c, s.ram)[p] == PageMap(c, s0.ram)[p] || p == q
    ensures forall p :: p in PageMap(c, s0.ram) && p !in PageMap(c, s.ram) ==>
              ThrownOut(c, q, faults, p) && s.used == c.NumFrames()
  {
    hide IsFault, AfterFault, PageMap, ThrowsOut;
    if faults != [] {
      var n := |faults| - 1;
      var x := faults[n];
      FaultsSpare(c, q, s0, faults[..n], x.before);
      FaultPages(c, q, x);
      forall p | p in PageMap(c, s0.ram) && p !in PageMap(c, s.ram)
        ensures ThrownOut(c, q, faults, p) && s.used == c.NumFrames()
      {
        if p in PageMap(c, x.before.ram) {
          assert ThrowsOut(c, q, faults[n], p);
          FullWhenThrown(c, q, x, p);
        } else {
          var k :| 0 <= k < n && ThrowsOut(c, q, faults[..n][k], p);
          assert ThrowsOut(c, q, faults[k], p);
        }
      }
    }
  }

  /** Which pages a call on behalf of page q may throw out: only victims of its faults, and only when every frame is
      in use. Pages that stay keep their frames, and no page but q comes in. */
  ghost predicate Spares(c: Config, q: nat, s0: Snapshot, faults: seq<Fault>, s: Snapshot)
    requires Shape(c, s0.ram) && Shape(c, s.ram)
  {
    var pages, pages' := PageMap(c, s0.ram), PageMap(c, s.ram);
    && (forall p :: p in pages && p !in pages' ==> s.used == c.NumFrames() && ThrownOut(c, q, faults, p))
    && (forall p :: p in pages && p in pages' ==> pages'[p] == pages[p])
    && (forall p :: p in pages' && p != q ==> p in pages)
  }

  /** Page q is fetched and then one word of it is replaced. */
  ghost predicate FetchesAndStores(c: Config, q: nat, s0: Snapshot, faults: seq<Fault>, address: nat, value: Word,
                                   s': Snapshot)
    requires c.Supported()
  {
    exists s :: Fetches(c, q, s0, faults, s) && Shape(c, s.ram) && Stores(c, s, address, value, s')
  }

  lemma StoreIs(c: Config, s0: Snapshot, faults: seq<Fault>, s: Snapshot, address: nat, value: Word, u: int)
    requires c.Supported() && Fetches(c, FetchPageAddress(c, address), s0, faults, s)
    requires BringsIn(c, s0, s, FetchPageAddress(c, address), u)
    ensures 0 <= u < |s.ram| && FetchOffset(c, address) < |s.ram[u]|
    ensures FetchesAndStores(c, FetchPageAddress(c, address), s0, faults, address, value,
                             s.(ram := Poke(s.ram, u, FetchOffset(c, address), value)))
  {
    hide Fetches, BringsIn;
    BroughtIn(c, s0, s, FetchPageAddress(c, address), u);
  }

  /** Only an unmapped page faults. */
  lemma {:induction false} MappedPageNeverFaults(c: Config, q: nat, s0: Snapshot, faults: seq<Fault>, s: Snapshot)
    requires Faults(c, q, s0, faults, s) && Shape(c, s0.ram) && q in PageMap(c, s0.ram)
    ensures faults == []
  {
    hide AfterFault, Creates, PageMap;
    if faults != [] {
      var n := |faults| - 1;
      MappedPageNeverFaults(c, q, s0, faults[..n], faults[n].before);
    }
  }

  /** At the end of the walk. */
  lemma FetchSpares(c: Config, q: nat, s0: Snapshot, faults: seq<Fault>, t: Snapshot, u: nat)
    requires c.Supported() && WalkedDown(c, q, s0, faults, t, u)
    requires var s := Restored(t, q, u);
             BringsIn(c, s0, s, q, u) && Shape(c, s.ram) && PageMap(c, s.ram) == PageMap(c, t.ram)
    ensures var s := Restored(t, q, u);
            && Shape(c, s0.ram) && Spares(c, q, s0, faults, s) && Fetches(c, q, s0, faults, s)
            && (q in PageMap(c, s0.ram) ==> s == s0 && faults == [])
  {
    hide Faults, PageMap, ThrownOut, Exclusive, PagesInRange, Contents, Touches;
    if Misses(c, s0, Restored(t, q, u), q, u) {
      FaultsSpare(c, q, s0, faults, t);
    } else {
      MappedPageNeverFaults(c, q, s0, faults, t);
    }
  }

  lemma NoFaults(c: Config, q: nat, s: Snapshot)
    ensures Faults(c, q, s, [], s)
  {
  }

  lemma FaultsExtend(c: Config, q: nat, s0: Snapshot, faults: seq<Fault>, x: Fault)
    requires Faults(c, q, s0, faults, x.before) && IsFault(c, q, x) && ReachesTable(faults, x.depth, x.table)
    ensures Faults(c, q, s0, faults + [x], AfterFault(c, q, x)) && ReachesTable(faults + [x], x.depth + 1, x.frame)
  {
    hide IsFault, AfterFault;
    assert (faults + [x])[..|faults|] == faults;
  }

  lemma NewTableEmpty(c: Config, q: nat, x: Fault)
    requires IsFault(c, q, x) && x.depth + 1 < c.TablesDepth()
    ensures var s := AfterFault(c, q, x); 0 <= x.frame < |s.ram| && Empty(s.ram[x.frame])
  {
    hide PageMap, Contents, Exclusive, PageOf, OnlyUnlinks, Creates, PagesInRange, FetchDepthOffset;
    CreatedFrame(c, x.before, x.obtained, q, x.table, x.depth, x.frame);
  }

  /** Below a fault every row is zero, so all further levels fault as well. */
  lemma RowAfterFault(c: Config, q: nat, s0: Snapshot, faults: seq<Fault>, s: Snapshot, depth: nat, f: int)
    requires c.Supported() && depth < c.TablesDepth() && Faults(c, q, s0, faults, s) && ReachesTable(faults, depth, f)
    requires !RowHolds(s, f, FetchDepthOffset(c, q, depth), 0)
    requires Shape(c, s.ram)
    ensures faults == []
  {
    hide IsFault, AfterFault, FetchDepthOffset;
    if faults != [] {
      NewTableEmpty(c, q, faults[|faults| - 1]);
    }
  }

  /** Storing a word keeps the mapping, so it throws nothing out. */
  lemma StoreSpares(c: Config, q: nat, s0: Snapshot, faults: seq<Fault>, s: Snapshot, s': Snapshot)
    requires Shape(c, s0.ram) && Shape(c, s.ram) && Spares(c, q, s0, faults, s)
    requires Shape(c, s'.ram) && PageMap(c, s'.ram) == PageMap(c, s.ram) && s'.used == s.used
    ensures Spares(c, q, s0, faults, s')
  {
  }

  /** A page in neither place does not get into the swap file. */
  lemma {:induction false} NotSwapped(c: Config, q: nat, s0: Snapshot, faults: seq<Fault>, s: Snapshot)
    requires Faults(c, q, s0, faults, s) && q !in s0.swap
    ensures q !in s.swap
  {
    hide IsFault, AfterFault;
    if faults != [] {
      var n := |faults| - 1;
      NotSwapped(c, q, s0, faults[..n], faults[n].before);
      FaultSwap(c, q, faults[n]);
    }
  }

  lemma FaultSwap(c: Config, q: nat, x: Fault)
    requires IsFault(c, q, x) && q !in x.before.swap
    ensures q !in AfterFault(c, q, x).swap
  {
    hide PageMap, Contents, Exclusive, PageOf, OnlyUnlinks, FetchDepthOffset;
  }

  /** The words in the frame a fault has linked as the page: zeroes, or what the page thrown out held. */
  lemma LinkedWords(c: Config, q: nat, x: Fault)
    requires IsFault(c, q, x) && x.depth + 1 == c.TablesDepth()
    ensures var s := AfterFault(c, q, x); 0 <= x.frame < |s.ram| && FrameWords(c, q, x, s.ram[x.frame])
  {
    hide PageMap, Contents, Exclusive, PageOf, OnlyUnlinks, FetchDepthOffset;
    CreatedFrame(c, x.before, x.obtained, q, x.table, x.depth, x.frame);
    var s := AfterFault(c, q, x);
    assert s.ram[x.frame] == x.obtained.ram[x.frame];
    if Evicts(c, x.before, x.obtained, q, x.depth, x.frame) && x.before.used == |x.before.ram|
       && NoCandidates(c, x.before, x.table) {
      assert ThrowsOut(c, q, x, PageOf(c, x.before.tree[x.frame].path));
    }
  }

  ghost predicate FrameWords(c: Config, q: nat, x: Fault, words: Page)
    requires Shape(c, x.before.ram)
  {
    || (NothingThrown(c, x) && Empty(words))
    || exists v :: ThrowsOut(c, q, x, v) && HoldsWords(c, x.before, v, words)
  }

  /** There was a table to take or a frame never used. */
  ghost predicate NothingThrown(c: Config, x: Fault)
    requires Shape(c, x.before.ram)
  {
    !NoCandidates(c, x.before, x.table) || x.before.used < c.NumFrames()
  }

  ghost predicate HoldsWords(c: Config, s: Snapshot, v: nat, words: Page)
    requires Shape(c, s.ram)
  {
    v in PageMap(c, s.ram) && 0 <= PageMap(c, s.ram)[v] < |s.ram| && words == s.ram[PageMap(c, s.ram)[v]]
  }

  /** What a page shows that was never touched before: zeroes, unless its frame had to be taken from a page; then the
      words of that page. */
  lemma FirstTouch(c: Config, q: nat, s0: Snapshot, faults: seq<Fault>, s: Snapshot, u: int)
    requires c.Supported() && Fetches(c, q, s0, faults, s) && BringsIn(c, s0, s, q, u)
    requires Shape(c, s0.ram) && q !in Mem(c, s0.ram, s0.swap)
    ensures faults != [] && 0 <= u < |s.ram|
    ensures var x := faults[|faults| - 1];
            IsFault(c, q, x) && x.depth + 1 == c.TablesDepth() && FrameWords(c, q, x, s.ram[u])
  {
    hide IsFault, AfterFault, FrameWords, Exclusive, PagesInRange, Touches;
    var t, w: nat :| WalkedDown(c, q, s0, faults, t, w) && s == Restored(t, q, w);
    NotSwapped(c, q, s0, faults, t);
    assert s.ram == t.ram && u == w;
    LinkedWords(c, q, faults[|faults| - 1]);
  }

  lemma FullWhenThrown(c: Config, q: nat, x: Fault, p: nat)
    requires ThrowsOut(c, q, x, p)
    ensures x.before.used == c.NumFrames()
  {
  }
}
