/** The moves a page fault is made of, each with what it keeps. */
module PageFaults {
  import opened MemoryConstants
  import opened PagePaths
  import opened PageTable
  import opened PageScan
  import opened PhysicalMemory
  import opened AbstractMemory

  /** The victim of an eviction on behalf of `page`: no mapped page is cyclically farther from it, and
      among the equally far it has the smallest number. */
  ghost predicate IsVictim(c: Config, pages: map<nat, int>, page: nat, v: nat)
    requires c.Supported()
  {
    && v in pages
    && forall q :: q in pages ==>
         || CyclicDistance(c, page, q) < CyclicDistance(c, page, v)
         || (CyclicDistance(c, page, q) == CyclicDistance(c, page, v) && v <= q)
  }

  /** What the whole-tree search finds is the victim, at its true place. */
  lemma FarthestIsVictim(c: Config, ram: Frames, tree: Tree, page: nat, x: Choice)
    requires IsTree(c, ram, tree) && PagesInRange(c, tree) && page < c.NumPages() && page !in PageMap(c, ram)
    requires exists f :: IsLeaf(c, tree, f)
    requires Farthest(c, tree, page, UnderRegion(tree, []), Choice(0, 0, 0, 0), x)
    ensures IsLeaf(c, tree, x.frame) && Hangs(c, ram, tree, x.frame) && x.link == LinkAddress(c, tree, x.frame)
    ensures x.page >= 0 && x.page == PageOf(c, tree[x.frame].path) && IsVictim(c, PageMap(c, ram), page, x.page)
    ensures x.page in PageMap(c, ram) && PageMap(c, ram)[x.page] == x.frame
  {
    var pages, e, q, d := PageMap(c, ram), x.frame, x.page, x.distance;
    PageMapListsLeaves(c, ram, tree);
    forall f | IsLeaf(c, tree, f)
      ensures f in UnderRegion(tree, []) && LeafDistance(c, tree, page, f) >= 1
    {
      CyclicDistanceMeaning(c, page, PageOf(c, tree[f].path));
    }
    assert IsLeaf(c, tree, e);
    SizesFactor(c);
    assert e != 0;
    assert Hangs(c, ram, tree, e);
    forall p | p in pages
      ensures CyclicDistance(c, page, p) <= d
      ensures CyclicDistance(c, page, p) == d ==> q <= p
    {
      var f := pages[p];
      assert IsLeaf(c, tree, f) && LeafDistance(c, tree, page, f) == CyclicDistance(c, page, p);
      if f != e && CyclicDistance(c, page, p) == d {
        var i :| DivergesAt(tree[e].path, tree[f].path, i) && tree[e].path[i] < tree[f].path[i];
        BeforeIsPageOrder(c, tree[e].path, tree[f].path, i);
      }
    }
  }

  /** There is one victim. */
  lemma VictimUnique(c: Config, pages: map<nat, int>, page: nat, v: nat, w: nat)
    requires c.Supported() && IsVictim(c, pages, page, v) && IsVictim(c, pages, page, w)
    ensures v == w
  {
  }

  /** RAM after unlinking frame u. */
  function Unlinked(ram: Frames, tree: Tree, u: int): Frames
    requires u in tree && tree[u].path != [] && 0 <= tree[u].parent < |ram|
    requires LastRow(tree, u) < |ram[tree[u].parent]|
  {
    Poke(ram, tree[u].parent, LastRow(tree, u), 0)
  }

  /** Taking an empty table. */
  lemma TakeTable(c: Config, ram: Frames, tree: Tree, used: int, swap: SwapFile, protected: int, u: int)
    requires Occupied(c, ram, tree, used, -1) && Candidate(c, ram, tree, protected, u) && u != 0
    ensures Hangs(c, ram, tree, u)
    ensures var ram' := Unlinked(ram, tree, u);
            && Occupied(c, ram', tree - {u}, used, u) && Empty(ram'[u])
            && PageMap(c, ram') == PageMap(c, ram) && Mem(c, ram', swap) == Mem(c, ram, swap)
  {
    DetachKeepsTree(c, ram, tree, u);
    var ram', tree' := Unlinked(ram, tree, u), tree - {u};
    assert tree[u].parent != u;
    assert forall f :: IsLeaf(c, tree', f) ==> IsLeaf(c, tree, f);
    TableChangeInvisible(c, ram, tree, ram', tree', swap);
  }

  /** Taking the next untouched frame. */
  lemma TakeFresh(c: Config, ram: Frames, tree: Tree, used: int)
    requires Occupied(c, ram, tree, used, -1) && used < |ram|
    ensures Occupied(c, ram, tree, used + 1, used) && Empty(ram[used])
  {
  }

  /** Taking a page's frame, its contents saved. */
  lemma TakePage(c: Config, ram: Frames, tree: Tree, used: int, swap: SwapFile, u: int)
    requires Occupied(c, ram, tree, used, -1) && IsLeaf(c, tree, u) && u != 0
    requires Exclusive(c, PageMap(c, ram), swap)
    ensures Hangs(c, ram, tree, u)
    ensures var ram', v := Unlinked(ram, tree, u), PageOf(c, tree[u].path);
            var swap' := swap[v := ram[u]];
            && Occupied(c, ram', tree - {u}, used, u)
            && v !in swap
            && PageMap(c, ram') == PageMap(c, ram) - {v} && Mem(c, ram', swap') == Mem(c, ram, swap)
            && Exclusive(c, PageMap(c, ram'), swap')
  {
    hide PageMap, Exclusive, Contents, PageOf;
    DetachKeepsTree(c, ram, tree, u);
    var ram', tree' := Unlinked(ram, tree, u), tree - {u};
    assert forall f :: IsLeaf(c, tree', f) ==> IsLeaf(c, tree, f);
    EvictionInvisible(c, ram, tree, ram', swap, u);
  }

  /** Overwriting the frame being moved. */
  lemma OverwriteHole(c: Config, ram: Frames, tree: Tree, used: int, swap: SwapFile, hole: int, page: Page)
    requires Occupied(c, ram, tree, used, hole) && 0 <= hole < used && |page| == c.PageSize()
    ensures var ram' := ram[hole := page];
            && Occupied(c, ram', tree, used, hole)
            && PageMap(c, ram') == PageMap(c, ram) && Mem(c, ram', swap) == Mem(c, ram, swap)
  {
    ContentsDoNotMatter(c, ram, tree, hole, page);
    TableChangeInvisible(c, ram, tree, ram[hole := page], tree, swap);
  }

  /** Linking the frame being moved as a table. */
  lemma LinkTable(c: Config, ram: Frames, tree: Tree, used: int, swap: SwapFile, f: int, r: nat, u: int)
    requires Occupied(c, ram, tree, used, u) && 0 < u < used
    requires IsTable(c, tree, f) && r < c.PageSize() && ram[f][r] == 0
    requires |tree[f].path| + 1 < c.TablesDepth() && Empty(ram[u])
    ensures var ram', tree' := Poke(ram, f, r, u), tree[u := Node(tree[f].path + [r], f)];
            && Occupied(c, ram', tree', used, -1)
            && PageMap(c, ram') == PageMap(c, ram) && Mem(c, ram', swap) == Mem(c, ram, swap)
  {
    AttachKeepsTree(c, ram, tree, f, r, u);
    var ram', tree' := Poke(ram, f, r, u), tree[u := Node(tree[f].path + [r], f)];
    assert forall g :: IsLeaf(c, tree', g) ==> IsLeaf(c, tree, g);
    TableChangeInvisible(c, ram, tree, ram', tree', swap);
  }

  /** Linking the frame being moved as the page that was asked for. */
  lemma LinkLeaf(c: Config, ram: Frames, tree: Tree, used: int, swap: SwapFile, f: int, r: nat, u: int, q: nat)
    requires Occupied(c, ram, tree, used, u) && 0 < u < used
    requires IsTable(c, tree, f) && r < c.PageSize() && ram[f][r] == 0
    requires q < c.NumPages() && tree[f].path + [r] == WalkPath(c, q, c.TablesDepth())
    requires Exclusive(c, PageMap(c, ram), swap) && q !in PageMap(c, ram)
    ensures var ram', tree' := Poke(ram, f, r, u), tree[u := Node(tree[f].path + [r], f)];
            && Occupied(c, ram', tree', used, -1)
            && Linked(c, PageMap(c, ram'), ram', swap, q, u, Mem(c, ram, swap))
            && PageMap(c, ram') == PageMap(c, ram)[q := u]
  {
    AttachKeepsTree(c, ram, tree, f, r, u);
    var node := Node(tree[f].path + [r], f);
    var ram', tree' := Poke(ram, f, r, u), tree[u := node];
    assert PageOf(c, node.path) == q by { RadixRoundTrip(c, q); }
    forall g | IsLeaf(c, tree', g) ensures PageOf(c, tree'[g].path) < c.NumPages() {
      assert g != u ==> IsLeaf(c, tree, g);
    }
    LinkPage(c, ram, tree, ram', swap, q, u, node);
  }

  /** The tree of a RAM that was just cleared: a root without children. */
  function RootOnly(): Tree {
    map[0 := Node([], 0)]
  }

  lemma ClearedTable(c: Config, ram: Frames)
    requires Shape(c, ram) && forall f :: 0 <= f < |ram| ==> Empty(ram[f])
    ensures Occupied(c, ram, RootOnly(), 1, -1) && PageMap(c, ram) == map[]
  {
    SizesFactor(c);
    assert forall f :: !IsLeaf(c, RootOnly(), f);
    PageMapListsLeaves(c, ram, RootOnly());
  }

  // ---------- The three sources of a frame ----------

  /** Everything the pager's state consists of. */
  datatype Snapshot = Snapshot(ram: Frames, tree: Tree, used: int, swap: SwapFile)

  /** The invariant. Frame `hole`, if not -1, is being moved: it is in use but not linked. */
  ghost predicate Consistent(c: Config, s: Snapshot, hole: int) {
    match s
    case Snapshot(ram, tree, used, swap) =>
      Occupied(c, ram, tree, used, hole) && Exclusive(c, PageMap(c, ram), swap)
  }

  /** A frame was obtained and is in nobody's use: the caller's memory is as before, no link was added,
      and no frame other than the one obtained was unlinked. */
  ghost predicate Obtains(c: Config, s: Snapshot, s': Snapshot, frame: int) {
    && Consistent(c, s, -1) && Consistent(c, s', frame)
    && 0 < frame < s'.used
    && s'.tree == s.tree - {frame}
    && Mem(c, s'.ram, s'.swap) == Mem(c, s.ram, s.swap)
    && OnlyUnlinks(s.ram, s'.ram)
  }

  /** Every word is kept or zeroed. */
  ghost predicate OnlyUnlinks(ram: Frames, ram': Frames) {
    && |ram'| == |ram|
    && forall f, r :: 0 <= f < |ram| && 0 <= r < |ram[f]| && r < |ram'[f]| ==>
         ram'[f][r] == ram[f][r] || ram'[f][r] == 0
  }

  ghost predicate NoCandidates(c: Config, s: Snapshot, protected: int)
    requires Shape(c, s.ram)
  {
    forall f :: !Candidate(c, s.ram, s.tree, protected, f)
  }

  /** The first source: the last empty table in depth-first order. */
  ghost predicate TakesTable(c: Config, s: Snapshot, s': Snapshot, protected: int, frame: int) {
    && Obtains(c, s, s', frame) && Empty(s'.ram[frame])
    && Candidate(c, s.ram, s.tree, protected, frame)
    && (forall f :: f != frame && Candidate(c, s.ram, s.tree, protected, f) ==>
          Before(s.tree[f].path, s.tree[frame].path))
    && s'.used == s.used && s'.swap == s.swap && PageMap(c, s'.ram) == PageMap(c, s.ram)
  }

  /** The second source: the first frame never used. */
  ghost predicate TakesFresh(c: Config, s: Snapshot, s': Snapshot, protected: int, frame: int) {
    && Obtains(c, s, s', frame) && Empty(s'.ram[frame])
    && NoCandidates(c, s, protected)
    && frame == s.used && s' == s.(used := s.used + 1)
  }

  /** The third source: the frame of the victim page, which moves to the swap file. The frame is cleared for a
      table, and left as it is for a page. */
  ghost predicate Evicts(c: Config, s: Snapshot, s': Snapshot, page: nat, depth: nat, frame: int) {
    && Obtains(c, s, s', frame) && IsLeaf(c, s.tree, frame)
    && (if depth + 1 < c.TablesDepth() then Empty(s'.ram[frame]) else s'.ram[frame] == s.ram[frame])
    && s'.used == s.used
    && var v := PageOf(c, s.tree[frame].path);
       && IsVictim(c, PageMap(c, s.ram), page, v) && PageMap(c, s.ram)[v] == frame
       && PageMap(c, s'.ram) == PageMap(c, s.ram) - {v}
       && s'.swap == s.swap[v := s.ram[frame]]
  }

  /** A page fault's frame, whichever source gave it. */
  ghost predicate Creates(c: Config, s: Snapshot, s': Snapshot, page: nat, protected: int, depth: nat, frame: int) {
    || TakesTable(c, s, s', protected, frame)
    || TakesFresh(c, s, s', protected, frame)
    || (Evicts(c, s, s', page, depth, frame) && s.used == |s.ram| && NoCandidates(c, s, protected))
  }

  lemma TakesTableHolds(c: Config, s: Snapshot, protected: int, u: int, link: int)
    requires Consistent(c, s, -1) && u != 0 && IsTable(c, s.tree, protected)
    requires LastCandidate(c, s.ram, s.tree, protected, UnderRegion(s.tree, []), Unused(0, 0), Unused(u, link))
    ensures Hangs(c, s.ram, s.tree, u) && link == LinkAddress(c, s.tree, u)
    ensures TakesTable(c, s, Snapshot(Unlinked(s.ram, s.tree, u), s.tree - {u}, s.used, s.swap), protected, u)
  {
    TakeTable(c, s.ram, s.tree, s.used, s.swap, protected, u);
    forall f | Candidate(c, s.ram, s.tree, protected, f) ensures f in UnderRegion(s.tree, []) {
    }
  }

  lemma TakesFreshHolds(c: Config, s: Snapshot, protected: int, link: int, maxFrame: int)
    requires Consistent(c, s, -1) && IsTable(c, s.tree, protected)
    requires LastCandidate(c, s.ram, s.tree, protected, UnderRegion(s.tree, []), Unused(0, 0), Unused(0, link))
    requires GreatestFrame(UnderRegion(s.tree, []) - {0}, 0, maxFrame)
    ensures NoCandidates(c, s, protected) && maxFrame == s.used - 1
    ensures s.used < |s.ram| ==> TakesFresh(c, s, s.(used := s.used + 1), protected, s.used)
  {
    WayIsNotCandidate(c, s.ram, s.tree, protected, 0);
    forall f | f in s.tree ensures f in UnderRegion(s.tree, []) {
    }
    assert s.used > 1 ==> s.used - 1 in UnderRegion(s.tree, []) - {0};
    if s.used < |s.ram| {
      TakeFresh(c, s.ram, s.tree, s.used);
      assert s.tree - {s.used} == s.tree;
    }
  }

  /** The state after evicting the page at frame u; u is cleared if it is to become a table. */
  function AfterEviction(c: Config, s: Snapshot, u: int, depth: nat): Snapshot
    requires c.Supported() && u in s.tree && s.tree[u].path != [] && 0 <= s.tree[u].parent < |s.ram| && 0 <= u < |s.ram|
    requires LastRow(s.tree, u) < |s.ram[s.tree[u].parent]|
  {
    var ram := Unlinked(s.ram, s.tree, u);
    Snapshot(if depth + 1 < c.TablesDepth() then ram[u := ZeroPage(c)] else ram,
             s.tree - {u}, s.used, s.swap[PageOf(c, s.tree[u].path) := s.ram[u]])
  }

  lemma EvictionObtains(c: Config, s: Snapshot, u: int, depth: nat)
    requires Consistent(c, s, -1) && IsLeaf(c, s.tree, u) && u != 0
    ensures Hangs(c, s.ram, s.tree, u)
    ensures var s' := AfterEviction(c, s, u, depth);
            && Obtains(c, s, s', u)
            && PageOf(c, s.tree[u].path) !in s.swap
            && PageMap(c, s'.ram) == PageMap(c, s.ram) - {PageOf(c, s.tree[u].path)}
            && (if depth + 1 < c.TablesDepth() then Empty(s'.ram[u]) else s'.ram[u] == s.ram[u])
  {
    hide PagesInRange, Exclusive, PageMap, Contents, PageOf;
    TakePage(c, s.ram, s.tree, s.used, s.swap, u);
    var ram, swap' := Unlinked(s.ram, s.tree, u), s.swap[PageOf(c, s.tree[u].path) := s.ram[u]];
    OverwriteHole(c, ram, s.tree - {u}, s.used, swap', u, ZeroPage(c));
    assert OnlyUnlinks(s.ram, ram) && OnlyUnlinks(s.ram, ram[u := ZeroPage(c)]);
  }

  lemma EvictsHolds(c: Config, s: Snapshot, page: nat, depth: nat, u: int)
    requires Consistent(c, s, -1) && IsLeaf(c, s.tree, u) && u != 0
    requires IsVictim(c, PageMap(c, s.ram), page, PageOf(c, s.tree[u].path))
    ensures Hangs(c, s.ram, s.tree, u) && Evicts(c, s, AfterEviction(c, s, u, depth), page, depth, u)
  {
    hide Contents, Exclusive, PageOf, IsVictim, OnlyUnlinks;
    EvictionObtains(c, s, u, depth);
    PageMapListsLeaves(c, s.ram, s.tree);
    assert Obtains(c, s, AfterEviction(c, s, u, depth), u);
  }

  /** Walk protection: whatever source the frame came from, no table on the way to the protected one was
      taken, and the protected table is still linked where it was. */
  lemma WayKept(c: Config, s: Snapshot, s': Snapshot, page: nat, protected: int, depth: nat, frame: int, g: int)
    requires Creates(c, s, s', page, protected, depth, frame) && IsTable(c, s.tree, protected)
    requires g in s.tree && s.tree[g].path <= s.tree[protected].path
    ensures g != frame && g in s'.tree && s'.tree[g] == s.tree[g]
    ensures forall r :: 0 <= r < c.PageSize() && s.ram[g][r] == 0 ==> s'.ram[g][r] == 0
  {
    WayIsNotCandidate(c, s.ram, s.tree, protected, g);
    assert 0 <= g < |s.ram| && |s.ram[g]| == c.PageSize() == |s'.ram[g]|;
  }

  /** Eviction is never asked for in vain. */
  lemma CanEvict(c: Config, s: Snapshot, protected: int)
    requires Consistent(c, s, -1) && IsTable(c, s.tree, protected) && s.used == |s.ram| && NoCandidates(c, s, protected)
    ensures exists f :: IsLeaf(c, s.tree, f)
  {
    VictimExists(c, s.ram, s.tree, protected);
  }

  // ---------- The walk ----------

  /** After a page fault at depth `depth` of the walk to page q: if the new frame is a table nothing else has
      changed; if it is the page itself, the page is linked and awaits its contents. */
  ghost predicate Walked(c: Config, s: Snapshot, q: nat, depth: nat, frame: int, m: map<nat, Page>)
    requires c.Supported() && depth <= c.TablesDepth()
  {
    && Occupied(c, s.ram, s.tree, s.used, -1)
    && frame in s.tree && s.tree[frame].path == WalkPath(c, q, depth)
    && (depth < c.TablesDepth() ==>
          Exclusive(c, PageMap(c, s.ram), s.swap) && q !in PageMap(c, s.ram) && Mem(c, s.ram, s.swap) == m)
    && (depth == c.TablesDepth() ==> Linked(c, PageMap(c, s.ram), s.ram, s.swap, q, frame, m))
  }

  /** The state after writing the frame's number into the faulting row. */
  function Link(s: Snapshot, f: int, r: nat, u: Word): Snapshot
    requires 0 <= f < |s.ram| && r < |s.ram[f]| && f in s.tree
  {
    Snapshot(Poke(s.ram, f, r, u), s.tree[u := Node(s.tree[f].path + [r], f)], s.used, s.swap)
  }

  /** A fault keeps the walk going, one level deeper. */
  lemma FaultWalks(c: Config, s: Snapshot, s': Snapshot, q: nat, depth: nat, f: int, u: Word, m: map<nat, Page>)
    requires c.Supported() && depth < c.TablesDepth() && q < c.NumPages()
    requires Consistent(c, s, -1) && Walked(c, s, q, depth, f, m)
    requires Creates(c, s, s', q, f, depth, u)
    requires s.ram[f][FetchDepthOffset(c, q, depth)] == 0
    ensures f in s'.tree && Walked(c, Link(s', f, FetchDepthOffset(c, q, depth), u), q, depth + 1, u, m)
  {
    hide Contents, Exclusive, PageOf, OnlyUnlinks, Creates, PageMap, PagesInRange, Empty, InRadix;
    var r := FetchDepthOffset(c, q, depth);
    CreatedFrame(c, s, s', q, f, depth, u);
    hide FetchDepthOffset;
    if depth + 1 < c.TablesDepth() {
      LinkTable(c, s'.ram, s'.tree, s'.used, s'.swap, f, r, u);
    } else {
      LinkLeaf(c, s'.ram, s'.tree, s'.used, s'.swap, f, r, u, q);
    }
  }

  lemma CreatedFrame(c: Config, s: Snapshot, s': Snapshot, q: nat, f: int, depth: nat, u: int)
    requires c.Supported() && depth < c.TablesDepth() && IsTable(c, s.tree, f)
    requires Creates(c, s, s', q, f, depth, u)
    ensures Obtains(c, s, s', u) && f in s'.tree && s'.tree[f] == s.tree[f]
    ensures depth + 1 < c.TablesDepth() ==> Empty(s'.ram[u])
    ensures forall r :: 0 <= r < c.PageSize() && s.ram[f][r] == 0 ==> s'.ram[f][r] == 0
    ensures q !in PageMap(c, s.ram) ==> q !in PageMap(c, s'.ram)
  {
    WayKept(c, s, s', q, f, depth, u, f);
  }

  /** A row that is not zero keeps the walk going without a fault; it cannot lead to an unmapped page. */
  lemma RowWalks(c: Config, s: Snapshot, q: nat, depth: nat, f: int)
    requires c.Supported() && depth < c.TablesDepth() && q < c.NumPages()
    requires IsTree(c, s.ram, s.tree) && PagesInRange(c, s.tree)
    requires f in s.tree && s.tree[f].path == WalkPath(c, q, depth)
    requires s.ram[f][FetchDepthOffset(c, q, depth)] != 0
    ensures var u := s.ram[f][FetchDepthOffset(c, q, depth)];
            && u in s.tree && s.tree[u].path == WalkPath(c, q, depth + 1)
            && (depth + 1 == c.TablesDepth() ==> q in PageMap(c, s.ram) && PageMap(c, s.ram)[q] == u)
  {
    var u := s.ram[f][FetchDepthOffset(c, q, depth)];
    assert IsTable(c, s.tree, f);
    if depth + 1 == c.TablesDepth() {
      WalkFollowsLabels(c, s.ram, s.tree, q, depth + 1);
    }
  }

  /** No row on the way to a mapped page is zero. */
  lemma MappedPageWalks(c: Config, s: Snapshot, q: nat, depth: nat, f: int)
    requires c.Supported() && depth < c.TablesDepth()
    requires IsTree(c, s.ram, s.tree) && PagesInRange(c, s.tree) && q in PageMap(c, s.ram)
    requires f in s.tree && s.tree[f].path == WalkPath(c, q, depth)
    ensures s.ram[f][FetchDepthOffset(c, q, depth)] != 0
  {
    var d := c.TablesDepth();
    WalkFollowsLabels(c, s.ram, s.tree, q, d);
    WalkPathExtends(c, q, depth + 1, d);
    var child := WayDown(c, s.ram, s.tree, f, PageMap(c, s.ram)[q]);
    assert WalkPath(c, q, depth + 1)[depth] == WalkPath(c, q, d)[depth];
  }

  /** Where findFrame's loop stands: a mapped page is walked to without any change, for an unmapped one the
      missing frames are supplied on the way. */
  ghost predicate Walking(c: Config, s0: Snapshot, s: Snapshot, q: nat, depth: nat, frame: int) {
    || WalksMapped(c, s0, s, q, depth, frame)
    || WalksUnmapped(c, s0, s, q, depth, frame)
  }

  ghost predicate WalksMapped(c: Config, s0: Snapshot, s: Snapshot, q: nat, depth: nat, frame: int) {
    && Consistent(c, s0, -1) && q in PageMap(c, s0.ram) && depth <= c.TablesDepth()
    && s == s0 && frame in s.tree && s.tree[frame].path == WalkPath(c, q, depth)
    && (depth == c.TablesDepth() ==> PageMap(c, s.ram)[q] == frame)
  }

  ghost predicate WalksUnmapped(c: Config, s0: Snapshot, s: Snapshot, q: nat, depth: nat, frame: int) {
    && Consistent(c, s0, -1) && q < c.NumPages() && q !in PageMap(c, s0.ram) && depth <= c.TablesDepth()
    && Walked(c, s, q, depth, frame, Mem(c, s0.ram, s0.swap))
  }

  /** The word in row r of frame f. */
  predicate RowHolds(s: Snapshot, f: int, r: nat, word: int) {
    0 <= f < |s.ram| && r < |s.ram[f]| && s.ram[f][r] == word
  }

  lemma WalkStarts(c: Config, s: Snapshot, q: nat)
    requires Consistent(c, s, -1) && q < c.NumPages()
    ensures Walking(c, s, s, q, 0, 0)
  {
    SizesFactor(c);
    if q in PageMap(c, s.ram) {
      assert WalksMapped(c, s, s, q, 0, 0);
    } else {
      assert WalksUnmapped(c, s, s, q, 0, 0);
    }
  }

  lemma WalkInRam(c: Config, s0: Snapshot, s: Snapshot, q: nat, depth: nat, f: int)
    requires Walking(c, s0, s, q, depth, f)
    ensures c.Supported() && 0 <= f < |s.ram| == c.NumFrames()
  {
  }

  /** A zero row means the page is not mapped, and the walk stands on a table. */
  lemma WalkFaults(c: Config, s0: Snapshot, s: Snapshot, q: nat, depth: nat, f: int)
    requires c.Supported() && depth < c.TablesDepth() && q < c.NumPages() && Walking(c, s0, s, q, depth, f)
    requires RowHolds(s, f, FetchDepthOffset(c, q, depth), 0)
    ensures WalksUnmapped(c, s0, s, q, depth, f)
    ensures Consistent(c, s, -1) && IsTable(c, s.tree, f) && q !in PageMap(c, s.ram)
  {
    if WalksMapped(c, s0, s, q, depth, f) {
      MappedPageWalks(c, s, q, depth, f);
      assert false;
    }
  }

  lemma WalkOnFault(c: Config, s0: Snapshot, s: Snapshot, s': Snapshot, q: nat, depth: nat, f: int, u: Word)
    requires c.Supported() && depth < c.TablesDepth() && q < c.NumPages() && Walking(c, s0, s, q, depth, f)
    requires RowHolds(s, f, FetchDepthOffset(c, q, depth), 0)
    requires Creates(c, s, s', q, f, depth, u)
    ensures f in s.tree && f in s'.tree && s'.tree[f] == s.tree[f]
    ensures 0 <= f < |s'.ram| && FetchDepthOffset(c, q, depth) < |s'.ram[f]|
    ensures Walking(c, s0, Link(s', f, FetchDepthOffset(c, q, depth), u), q, depth + 1, u)
  {
    WalkFaults(c, s0, s, q, depth, f);
    CreatedFrame(c, s, s', q, f, depth, u);
    FaultWalks(c, s, s', q, depth, f, u, Mem(c, s0.ram, s0.swap));
    assert WalksUnmapped(c, s0, Link(s', f, FetchDepthOffset(c, q, depth), u), q, depth + 1, u);
  }

  lemma WalkOnRow(c: Config, s0: Snapshot, s: Snapshot, q: nat, depth: nat, f: int, u: Word)
    requires c.Supported() && depth < c.TablesDepth() && q < c.NumPages() && Walking(c, s0, s, q, depth, f)
    requires RowHolds(s, f, FetchDepthOffset(c, q, depth), u) && u != 0
    ensures Walking(c, s0, s, q, depth + 1, u)
  {
    RowWalks(c, s, q, depth, f);
    if WalksMapped(c, s0, s, q, depth, f) {
      assert WalksMapped(c, s0, s, q, depth + 1, u);
    } else {
      assert WalksUnmapped(c, s0, s, q, depth + 1, u);
    }
  }

  // ---------- What the interface promises ----------

  /** A page that has been touched is mapped in RAM or kept in the swap file, one of the two; any other page is in
      neither. */
  lemma ResidentOrSwapped(c: Config, s: Snapshot, q: nat)
    requires Consistent(c, s, -1)
    ensures q in Mem(c, s.ram, s.swap) <==> q in PageMap(c, s.ram) || q in s.swap
    ensures !(q in PageMap(c, s.ram) && q in s.swap)
  {
  }

  /** Touching a page gives it contents if it had none, and changes nothing else. */
  ghost predicate Touches(m: map<nat, Page>, q: nat, m': map<nat, Page>) {
    q in m' && m' == if q in m then m else m[q := m'[q]]
  }

  /** The state after PMrestore. */
  function Restored(s: Snapshot, q: nat, u: int): Snapshot
    requires 0 <= u < |s.ram|
  {
    s.(ram := if q in s.swap then s.ram[u := s.swap[q]] else s.ram, swap := s.swap - {q})
  }

  /** The page was mapped already, and nothing at all has changed. */
  ghost predicate Hits(c: Config, s0: Snapshot, s: Snapshot, q: nat, u: int) {
    Consistent(c, s0, -1) && q in PageMap(c, s0.ram) && PageMap(c, s0.ram)[q] == u && s == s0
  }

  /** The page was not mapped: now it is, the invariant holds, and it was touched and no other page. */
  ghost predicate Misses(c: Config, s0: Snapshot, s: Snapshot, q: nat, u: int) {
    && Consistent(c, s0, -1) && q !in PageMap(c, s0.ram)
    && Consistent(c, s, -1) && q in PageMap(c, s.ram) && PageMap(c, s.ram)[q] == u
    && Touches(Mem(c, s0.ram, s0.swap), q, Mem(c, s.ram, s.swap))
  }

  ghost predicate BringsIn(c: Config, s0: Snapshot, s: Snapshot, q: nat, u: int) {
    || Hits(c, s0, s, q, u)
    || Misses(c, s0, s, q, u)
  }

  lemma MissEnds(c: Config, s0: Snapshot, s: Snapshot, q: nat, u: int)
    requires c.Supported() && WalksUnmapped(c, s0, s, q, c.TablesDepth(), u)
    ensures 0 <= u < |s.ram| && (q in s.swap ==> |s.swap[q]| == c.PageSize())
    ensures Misses(c, s0, Restored(s, q, u), q, u)
    ensures var s' := Restored(s, q, u); Shape(c, s'.ram) && Shape(c, s.ram) && PageMap(c, s'.ram) == PageMap(c, s.ram)
  {
    RestorePage(c, s.ram, s.tree, s.swap, q, u, Mem(c, s0.ram, s0.swap));
    if q in s.swap {
      ContentsDoNotMatter(c, s.ram, s.tree, u, s.swap[q]);
    }
  }

  /** At the end of the walk, restoring completes the job; it does nothing for a page that was mapped. */
  lemma WalkEnds(c: Config, s0: Snapshot, s: Snapshot, q: nat, u: int)
    requires c.Supported() && Walking(c, s0, s, q, c.TablesDepth(), u)
    ensures 0 <= u < |s.ram| == c.NumFrames() && (q in s.swap ==> |s.swap[q]| == c.PageSize())
    ensures BringsIn(c, s0, Restored(s, q, u), q, u)
    ensures var s' := Restored(s, q, u); Shape(c, s'.ram) && Shape(c, s.ram) && PageMap(c, s'.ram) == PageMap(c, s.ram)
    ensures q in PageMap(c, s.ram) && PageMap(c, s.ram)[q] == u
  {
    if WalksMapped(c, s0, s, q, c.TablesDepth(), u) {
      assert s.swap - {q} == s.swap;
      assert Hits(c, s0, Restored(s, q, u), q, u);
    } else {
      MissEnds(c, s0, s, q, u);
    }
  }

  /** A word of the memory a caller sees. */
  ghost predicate WordIs(m: map<nat, Page>, q: nat, offset: nat, value: Word) {
    q in m && offset < |m[q]| && m[q][offset] == value
  }

  /** The memory after writing one word of a touched page. */
  function WithWord(m: map<nat, Page>, q: nat, offset: nat, value: Word): map<nat, Page>
    requires q in m && offset < |m[q]|
  {
    var page: Page := m[q][offset := value];
    m[q := page]
  }

  /** VMread's effect: the page is touched, and the word returned is the one the page holds. */
  ghost predicate Reads(c: Config, m: map<nat, Page>, address: nat, value: Word, m': map<nat, Page>) {
    var q, offset := FetchPageAddress(c, address), FetchOffset(c, address);
    Touches(m, q, m') && |m'[q]| == c.PageSize() && m'[q][offset] == value
  }

  /** VMwrite's effect: the page is touched, then one word of it is replaced. */
  ghost predicate Writes(c: Config, m: map<nat, Page>, address: nat, value: Word, m': map<nat, Page>) {
    var q, offset := FetchPageAddress(c, address), FetchOffset(c, address);
    exists touched ::
      Touches(m, q, touched) && |touched[q]| == c.PageSize() && m' == WithWord(touched, q, offset, value)
  }

  /** Addresses below VIRTUAL_MEMORY_SIZE are the words of the pages below NUM_PAGES. */
  lemma PageInRange(c: Config, address: nat)
    requires c.Supported()
    ensures address < c.VirtualMemorySize() <==> FetchPageAddress(c, address) < c.NumPages()
  {
    var q := FetchPageAddress(c, address);
    SizeFactors(c.virtualWidth - c.offsetWidth, c.offsetWidth);
    DivModJoin(address, c.PageSize());
    if q < c.NumPages() {
      TimesMonotone(q + 1, c.NumPages(), c.PageSize());
    } else {
      TimesMonotone(c.NumPages(), q, c.PageSize());
    }
  }

  /** However it got there, the page is in the frame. */
  lemma BroughtIn(c: Config, s0: Snapshot, s: Snapshot, q: nat, u: int)
    requires BringsIn(c, s0, s, q, u)
    ensures Consistent(c, s0, -1) && Consistent(c, s, -1) && Shape(c, s0.ram) && Shape(c, s.ram)
    ensures q in PageMap(c, s.ram) && PageMap(c, s.ram)[q] == u && 0 <= u < |s.ram| && |s.ram[u]| == c.PageSize()
    ensures var m := Mem(c, s.ram, s.swap); Touches(Mem(c, s0.ram, s0.swap), q, m) && m[q] == s.ram[u]
  {
    hide PagesInRange, Exclusive;
  }

  lemma BroughtInReads(c: Config, s0: Snapshot, s: Snapshot, address: nat, u: int)
    requires BringsIn(c, s0, s, FetchPageAddress(c, address), u)
    ensures Consistent(c, s, -1) && 0 <= u < |s.ram| && FetchOffset(c, address) < |s.ram[u]|
    ensures Reads(c, Mem(c, s0.ram, s0.swap), address, s.ram[u][FetchOffset(c, address)], Mem(c, s.ram, s.swap))
  {
    hide Consistent, Mem, BringsIn;
    BroughtIn(c, s0, s, FetchPageAddress(c, address), u);
  }

  lemma StoreKeeps(c: Config, s: Snapshot, q: nat, page: Page)
    requires Consistent(c, s, -1) && q in PageMap(c, s.ram) && |page| == c.PageSize()
    ensures var s' := s.(ram := s.ram[PageMap(c, s.ram)[q] := page]);
            && Consistent(c, s', -1) && Mem(c, s'.ram, s'.swap) == Mem(c, s.ram, s.swap)[q := page]
            && PageMap(c, s'.ram) == PageMap(c, s.ram)
  {
    hide PageMap, Contents, Exclusive;
    StorePage(c, s.ram, s.tree, s.swap, q, page);
    PageMapListsLeaves(c, s.ram, s.tree);
    hide IsTree;
  }

  lemma BroughtInWrites(c: Config, s0: Snapshot, s: Snapshot, address: nat, u: int, value: Word)
    requires BringsIn(c, s0, s, FetchPageAddress(c, address), u)
    ensures 0 <= u < |s.ram| && FetchOffset(c, address) < |s.ram[u]|
    ensures var s' := s.(ram := Poke(s.ram, u, FetchOffset(c, address), value));
            && Consistent(c, s', -1) && Writes(c, Mem(c, s0.ram, s0.swap), address, value, Mem(c, s'.ram, s'.swap))
            && Shape(c, s.ram) && PageMap(c, s'.ram) == PageMap(c, s.ram)
  {
    hide Consistent, Mem, BringsIn, PageMap;
    var q, offset := FetchPageAddress(c, address), FetchOffset(c, address);
    BroughtIn(c, s0, s, q, u);
    var page: Page := s.ram[u][offset := value];
    StoreKeeps(c, s, q, page);
    assert Poke(s.ram, u, offset, value) == s.ram[u := page];
    assert Touches(Mem(c, s0.ram, s0.swap), q, Mem(c, s.ram, s.swap));
  }
}
